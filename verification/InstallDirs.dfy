// The installation directories: expansion with and without DSCHED_DESTDIR, the in-place pass over all
// fields when the framework is opened, and the merge of what the components give.
module InstallDirs {
  import opened InstallLoop
  import opened InstallMeaning
  import opened InstallTokens
  import opened Sums

  // The names by which the fields are referred to, in the order of the rewriting macros, which is
  // also the order in which the fields are expanded. The last three fields are pmixdatadir,
  // pmixlibdir and pmixincludedir.
  const NAMES: seq<string> := [
    "prefix", "exec_prefix", "bindir", "sbindir", "libexecdir", "datarootdir", "datadir",
    "sysconfdir", "sharedstatedir", "localstatedir", "libdir", "includedir", "infodir", "mandir",
    "pkgdatadir", "pkglibdir", "pkgincludedir"]

  // A name's length and first character tell the field names apart.
  function Key(name: string): (nat, char)
    requires name != ""
  {
    (|name|, name[0])
  }

  const KEYS: seq<(nat, char)> := [
    (6, 'p'), (11, 'e'), (6, 'b'), (7, 's'), (10, 'l'), (11, 'd'),
    (7, 'd'), (10, 's'), (14, 's'), (13, 'l'), (6, 'l'), (10, 'i'),
    (7, 'i'), (6, 'm'), (10, 'p'), (9, 'p'), (13, 'p')]

  lemma FirstNamesArePlain(f: nat)
    requires f < 6
    ensures PlainName(NAMES[f])
  {
  }

  lemma NextNamesArePlain(f: nat)
    requires 6 <= f < 12
    ensures PlainName(NAMES[f])
  {
  }

  lemma LastNamesArePlain(f: nat)
    requires 12 <= f < |NAMES|
    ensures PlainName(NAMES[f])
  {
  }

  lemma FieldNameIsPlain(f: nat)
    requires f < |NAMES|
    ensures PlainName(NAMES[f])
  {
    if f < 6 {
      FirstNamesArePlain(f);
    } else if f < 12 {
      NextNamesArePlain(f);
    } else {
      LastNamesArePlain(f);
    }
  }

  lemma FieldNameHasKey(f: nat)
    requires f < |NAMES|
    ensures NAMES[f] != "" && Key(NAMES[f]) == KEYS[f]
  {
  }

  lemma FieldNamesAreGood()
    ensures GoodNames(NAMES)
  {
    assert |KEYS| == |NAMES| && forall f, g :: 0 <= f < g < |KEYS| ==> KEYS[f] != KEYS[g];
    forall f | 0 <= f < |NAMES|
      ensures PlainName(NAMES[f]) && NAMES[f] != "" && Key(NAMES[f]) == KEYS[f]
    {
      FieldNameIsPlain(f);
      FieldNameHasKey(f);
    }
  }

  // What a string means does not depend on how it is read as tokens: there is only one way.
  lemma MeaningOfString(names: seq<string>, env: seq<Tokens>, used: set<nat>, toks: Tokens, toks': Tokens, s: string,
                        d: nat)
    requires GoodNames(names) && Says(names, used, toks, s) && Says(names, used, toks', s)
    ensures Deep(env, toks, d) == Deep(env, toks', d)
  {
    UniqueTokens(names, toks, toks');
  }

  // ---- DSCHED_DESTDIR ----

  predicate Absolute(path: string) { path != "" && path[0] == '/' }

  // pmix_os_path(false, a, b, NULL) on two absolute paths.
  function OsPath(a: string, b: string): string
    requires Absolute(a) && Absolute(b)
  {
    a + b
  }

  function Prefix(destdir: Option<string>): string {
    if destdir.Some? then destdir.value else ""
  }

  // dsched_dinstall_dirs_expand_setup, for a string on which the loop ends with v. Field values are
  // read past the DESTDIR that they already carry, so that it is not inserted again.
  method ExpandSetup(input: string, dirs: seq<string>, destdir: Option<string>, ghost v: string)
      returns (retval: string)
    requires |dirs| == |NAMES| && Ends(Table(NAMES, dirs, |Prefix(destdir)|), input, v)
    requires destdir.Some? ==> Absolute(destdir.value) && Absolute(v)
    ensures retval == Prefix(destdir) + v
  {
    var offset := 0;
    if destdir.Some? && |destdir.value| > 0 {
      offset := |destdir.value|;
    }
    retval := Rewrite(Table(NAMES, dirs, offset), input);
    OneEnd(Table(NAMES, dirs, offset), input, retval, v);
    if destdir.Some? {
      retval := OsPath(destdir.value, retval);
    }
  }

  // ---- The pass over all fields ----

  // The value of field f without any DESTDIR: its full expansion.
  ghost function Value(raw: seq<Tokens>, rank: seq<nat>, f: nat): string
    requires Ranked(NAMES, raw, rank) && f < |raw|
  {
    Text(NAMES, Full(NAMES, raw, rank, raw[f], rank[f]))
  }

  // It does not depend on how the fields are ranked.
  lemma ValueOfAnyRank(raw: seq<Tokens>, rank: seq<nat>, rank': seq<nat>, f: nat)
    requires Ranked(NAMES, raw, rank) && Ranked(NAMES, raw, rank') && f < |raw|
    ensures Value(raw, rank, f) == Value(raw, rank', f)
  {
    var b := if rank[f] < rank'[f] then rank'[f] else rank[f];
    BoundIrrelevant(NAMES, raw, rank, raw[f], rank[f], b);
    BoundIrrelevant(NAMES, raw, rank', raw[f], rank'[f], b);
    DeepIsFull(NAMES, raw, rank, raw[f], b);
    DeepIsFull(NAMES, raw, rank', raw[f], b);
  }

  // The fields half way through the pass: those before i stand for their full expansions.
  ghost function Expanded(raw: seq<Tokens>, rank: seq<nat>, i: nat): (env: seq<Tokens>)
    requires Ranked(NAMES, raw, rank)
    ensures |env| == |raw| && forall f :: 0 <= f < |env| ==>
      env[f] == if f < i then Full(NAMES, raw, rank, raw[f], rank[f]) else raw[f]
  {
    seq(|raw|, f requires 0 <= f < |raw| => if f < i then Full(NAMES, raw, rank, raw[f], rank[f]) else raw[f])
  }

  // Their values then: DESTDIR and the expansion, or what they were at first.
  ghost function During(raw: seq<Tokens>, rank: seq<nat>, destdir: Option<string>, i: nat): (dirs: seq<string>)
    requires Ranked(NAMES, raw, rank)
    ensures |dirs| == |raw| && forall f :: 0 <= f < |dirs| ==>
      dirs[f] == if f < i then Prefix(destdir) + Value(raw, rank, f) else Text(NAMES, raw[f])
  {
    seq(|raw|, f requires 0 <= f < |raw| =>
      if f < i then Prefix(destdir) + Value(raw, rank, f) else Text(NAMES, raw[f]))
  }

  lemma ExpandedIsRanked(raw: seq<Tokens>, rank: seq<nat>, i: nat)
    requires Ranked(NAMES, raw, rank)
    ensures Ranked(NAMES, Expanded(raw, rank, i), rank)
  {
    forall f | 0 <= f < |raw|
      ensures WellFormed(NAMES, Expanded(raw, rank, i)[f]) && RefsBelow(NAMES, rank, Expanded(raw, rank, i)[f], rank[f])
    {
      FullWellFormed(NAMES, raw, rank, raw[f], rank[f]);
    }
  }

  // Substituting values of which some are fully expanded gives the full expansion.
  lemma {:induction false} ExpandedSuffices(raw: seq<Tokens>, rank: seq<nat>, i: nat, toks: Tokens, b: nat)
    requires Ranked(NAMES, raw, rank) && Ranked(NAMES, Expanded(raw, rank, i), rank) && RefsBelow(NAMES, rank, toks, b)
    ensures Full(NAMES, Expanded(raw, rank, i), rank, toks, b) == Full(NAMES, raw, rank, toks, b)
    decreases b, |toks|
  {
    if toks != [] {
      ExpandedSuffices(raw, rank, i, toks[1..], b);
      if toks[0].Ref? {
        var f := toks[0].f;
        if f < i {
          FullOfPlain(NAMES, Expanded(raw, rank, i), rank, Expanded(raw, rank, i)[f], rank[f]);
        } else {
          ExpandedSuffices(raw, rank, i, raw[f], rank[f]);
        }
      }
    }
  }

  // Each field refers to fields before it.
  ghost predicate InOrder(raw: seq<Tokens>) {
    forall f :: 0 <= f < |raw| ==> UsesOnly(raw[f], Below(f))
  }

  // The fields that can be read when the pass has reached field i: all that have their DESTDIR, which
  // is all of them if there is none to be skipped.
  function Readable(destdir: Option<string>, i: nat): set<nat> {
    if Prefix(destdir) == "" then Below(|NAMES|) else Below(i)
  }

  lemma NextFieldReads(raw: seq<Tokens>, rank: seq<nat>, destdir: Option<string>, i: nat)
    requires Ranked(NAMES, raw, rank) && i < |raw|
    ensures Reads(Table(NAMES, During(raw, rank, destdir, i), |Prefix(destdir)|), Expanded(raw, rank, i),
                  Readable(destdir, i))
  {
    FieldNamesAreGood();
    ExpandedIsRanked(raw, rank, i);
    var t, env := Table(NAMES, During(raw, rank, destdir, i), |Prefix(destdir)|), Expanded(raw, rank, i);
    forall f | f in Readable(destdir, i)
      ensures ReadsField(t, env, Readable(destdir, i), f)
    {
      assert RefsBelow(NAMES, rank, env[f], rank[f]);
      assert t.dirs[f] == Prefix(destdir) + Text(NAMES, env[f]);
    }
  }

  // If only readable fields are referred to, the loop ends on the next field with its full expansion.
  lemma NextFieldEnds(raw: seq<Tokens>, rank: seq<nat>, destdir: Option<string>, i: nat)
    requires Ranked(NAMES, raw, rank) && i < |raw| && UsesOnly(raw[i], Readable(destdir, i))
    ensures Ends(Table(NAMES, During(raw, rank, destdir, i), |Prefix(destdir)|), Text(NAMES, raw[i]),
                 Value(raw, rank, i))
  {
    var t, env := Table(NAMES, During(raw, rank, destdir, i), |Prefix(destdir)|), Expanded(raw, rank, i);
    NextFieldReads(raw, rank, destdir, i);
    ExpandedIsRanked(raw, rank, i);
    assert RefsBelow(NAMES, rank, raw[i], rank[i]);
    ExpandedSuffices(raw, rank, i, raw[i], rank[i]);
    var r, w := Full(NAMES, env, rank, raw[i], rank[i]), Work(NAMES, env, rank, raw[i], rank[i]);
    assert Says(NAMES, Readable(destdir, i), raw[i], Text(NAMES, raw[i]));
    assert Expands(t, env, Readable(destdir, i), rank, rank[i], Text(NAMES, raw[i]), r, w);
    EndsWithFull(t, env, Readable(destdir, i), rank, rank[i], Text(NAMES, raw[i]), r, w);
  }

  // When the pass has reached field i, the loop ends on it with its full expansion.
  ghost predicate RightAt(raw: seq<Tokens>, rank: seq<nat>, destdir: Option<string>, i: nat)
    requires Ranked(NAMES, raw, rank) && i < |raw|
  {
    Ends(Table(NAMES, During(raw, rank, destdir, i), |Prefix(destdir)|), Text(NAMES, raw[i]), Value(raw, rank, i))
  }

  ghost predicate Right(raw: seq<Tokens>, rank: seq<nat>, destdir: Option<string>)
    requires Ranked(NAMES, raw, rank)
  {
    forall i :: 0 <= i < |raw| ==> RightAt(raw, rank, destdir, i)
  }

  // DESTDIR is longer than every field is at first.
  ghost predicate Longer(raw: seq<Tokens>, rank: seq<nat>, destdir: Option<string>)
    requires Ranked(NAMES, raw, rank)
  {
    forall f :: 0 <= f < |raw| ==> |Text(NAMES, raw[f])| < |Prefix(destdir)|
  }

  // All fields but those from p to e.
  function AllBut(p: nat, e: nat): (used: set<nat>)
    ensures forall f: nat :: f in used <==> f < |NAMES| && (f < p || f >= e)
  {
    Below(|NAMES|) - (Below(e) - Below(p))
  }

  // The first of the fields from p on that the tokens refer to.
  lemma FirstLater(toks: Tokens, p: nat, i: nat) returns (e: nat)
    requires i < |toks| && toks[i].Ref? && toks[i].f >= p
    requires forall k :: 0 <= k < |toks| ==> TokenOk(NAMES, toks[k])
    ensures p <= e && RefersInto(toks, {e}) && UsesOnly(toks, AllBut(p, e))
    decreases toks[i].f
  {
    if k :| 0 <= k < |toks| && toks[k].Ref? && p <= toks[k].f < toks[i].f {
      e := FirstLater(toks, p, k);
    } else {
      e := toks[i].f;
      assert toks[i].f in {e};
    }
  }

  // A field that refers to e, and to no other field from itself to e, leads to reading e.
  lemma ReachesLater(raw: seq<Tokens>, rank: seq<nat>, destdir: Option<string>, p: nat, e: nat)
    requires Ranked(NAMES, raw, rank) && p < |raw| && Prefix(destdir) != ""
    requires RefersInto(raw[p], {e}) && UsesOnly(raw[p], AllBut(p, e))
    ensures Reaches(Table(NAMES, During(raw, rank, destdir, p), |Prefix(destdir)|), Expanded(raw, rank, p),
                    AllBut(p, e), e, Text(NAMES, raw[p]))
  {
    var t, env := Table(NAMES, During(raw, rank, destdir, p), |Prefix(destdir)|), Expanded(raw, rank, p);
    NextFieldReads(raw, rank, destdir, p);
    forall f | f in AllBut(p, e) && f < e
      ensures ReadsField(t, env, AllBut(p, e), f)
    {
      assert ReadsField(t, env, Readable(destdir, p), f);
      assert NoRefs(env[f]);
    }
    assert Says(NAMES, AllBut(p, e), raw[p], Text(NAMES, raw[p]));
  }

  lemma HasNoEnd(raw: seq<Tokens>, rank: seq<nat>, destdir: Option<string>, p: nat, e: nat)
    requires Ranked(NAMES, raw, rank) && Longer(raw, rank, destdir) && p <= e && p < |raw|
    requires RefersInto(raw[p], {e}) && UsesOnly(raw[p], AllBut(p, e))
    ensures !RightAt(raw, rank, destdir, p)
  {
    var t := Table(NAMES, During(raw, rank, destdir, p), |Prefix(destdir)|);
    ReachesLater(raw, rank, destdir, p, e);
    assert |t.dirs[e]| < t.offset;
    ShortValueHasNoEnd(t, Expanded(raw, rank, p), AllBut(p, e), e, Text(NAMES, raw[p]));
  }

  // A field that refers to one from itself on has no defined outcome if DESTDIR is long.
  lemma LaterFieldHasNoEnd(raw: seq<Tokens>, rank: seq<nat>, destdir: Option<string>, p: nat)
    requires Ranked(NAMES, raw, rank) && Longer(raw, rank, destdir)
    requires p < |raw| && !UsesOnly(raw[p], Below(p))
    ensures !RightAt(raw, rank, destdir, p)
  {
    var i :| 0 <= i < |raw[p]| && raw[p][i].Ref? && raw[p][i].f !in Below(p);
    assert RefsBelow(NAMES, rank, raw[p], rank[p]);
    var e := FirstLater(raw[p], p, i);
    HasNoEnd(raw, rank, destdir, p, e);
  }

  // The pass gives every full expansion if there is no DESTDIR to be skipped, and otherwise if each
  // field refers to fields before it. It needs that order for any DESTDIR that is long enough.
  lemma RightExactlyInOrder(raw: seq<Tokens>, rank: seq<nat>, destdir: Option<string>)
    requires Ranked(NAMES, raw, rank)
    ensures Prefix(destdir) == "" || InOrder(raw) ==> Right(raw, rank, destdir)
    ensures Longer(raw, rank, destdir) ==> (Right(raw, rank, destdir) <==> InOrder(raw))
  {
    if Prefix(destdir) == "" || InOrder(raw) {
      forall i | 0 <= i < |raw|
        ensures RightAt(raw, rank, destdir, i)
      {
        assert RefsBelow(NAMES, rank, raw[i], rank[i]);
        NextFieldEnds(raw, rank, destdir, i);
      }
    } else if Longer(raw, rank, destdir) {
      var p :| 0 <= p < |raw| && !UsesOnly(raw[p], Below(p));
      LaterFieldHasNoEnd(raw, rank, destdir, p);
    }
  }

  // An absolute path that is longer than all of some sizes.
  lemma {:induction false} LongPath(sizes: seq<nat>) returns (path: string)
    ensures Absolute(path) && forall k :: 0 <= k < |sizes| ==> sizes[k] < |path|
  {
    if sizes == [] {
      path := "/";
    } else {
      path := LongPath(sizes[1..]);
      if |path| <= sizes[0] {
        path := seq(sizes[0] + 1, i => '/');
      }
    }
  }

  // So the fields that come out right whatever DESTDIR is are exactly those in order.
  lemma {:induction false} RightForEveryDestdir(raw: seq<Tokens>, rank: seq<nat>)
    requires Ranked(NAMES, raw, rank)
    ensures InOrder(raw) <==> forall path | Absolute(path) :: Right(raw, rank, Some(path))
  {
    if InOrder(raw) {
      forall path | Absolute(path)
        ensures Right(raw, rank, Some(path))
      {
        RightExactlyInOrder(raw, rank, Some(path));
      }
    } else {
      var sizes := seq(|raw|, f requires 0 <= f < |raw| => |Text(NAMES, raw[f])|);
      var path := LongPath(sizes);
      assert forall f :: 0 <= f < |raw| ==> sizes[f] == |Text(NAMES, raw[f])|;
      RightExactlyInOrder(raw, rank, Some(path));
    }
  }

  // What is required of the fields when there is a DESTDIR.
  ghost predicate Suits(raw: seq<Tokens>, rank: seq<nat>, destdir: Option<string>)
    requires Ranked(NAMES, raw, rank)
  {
    destdir.Some? ==>
      Absolute(destdir.value) && InOrder(raw) && forall f :: 0 <= f < |raw| ==> Absolute(Value(raw, rank, f))
  }

  // One assignment of the pass.
  method ExpandField(i: nat, dirs: seq<string>, destdir: Option<string>, ghost raw: seq<Tokens>,
      ghost rank: seq<nat>) returns (r: string)
    requires Ranked(NAMES, raw, rank) && i < |raw| && dirs == During(raw, rank, destdir, i)
    requires Suits(raw, rank, destdir) && RightAt(raw, rank, destdir, i)
    ensures dirs[i := r] == During(raw, rank, destdir, i + 1)
  {
    r := ExpandSetup(dirs[i], dirs, destdir, Value(raw, rank, i));
  }

  // The end of dsched_dinstalldirs_base_open: every field is expanded in place, one after the other.
  // Without DSCHED_DESTDIR, every field comes out as its full expansion, whatever fields it refers to,
  // if none of them refer to each other in a circle. With it, every field that refers only to fields
  // before it comes out as DESTDIR followed by its expansion, which contains no DESTDIR of its own
  // however deep its references go.
  method ExpandInPlace(dirs: array<string>, destdir: Option<string>, ghost raw: seq<Tokens>, ghost rank: seq<nat>)
    requires Ranked(NAMES, raw, rank) && dirs.Length == |raw|
    requires forall f :: 0 <= f < |raw| ==> dirs[f] == Text(NAMES, raw[f])
    requires Suits(raw, rank, destdir)
    modifies dirs
    ensures forall f :: 0 <= f < dirs.Length ==>
      dirs[f] == if destdir.Some? then destdir.value + Value(raw, rank, f) else Value(raw, rank, f)
  {
    RightExactlyInOrder(raw, rank, destdir);
    for i := 0 to dirs.Length
      invariant dirs[..] == During(raw, rank, destdir, i)
    {
      ghost var before := dirs[..];
      var r := ExpandField(i, dirs[..], destdir, raw, rank);
      dirs[i] := r;
      assert dirs[..] == before[i := r];
    }
    assert forall f :: 0 <= f < dirs.Length ==> dirs[f] == dirs[..][f];
  }

  // ---- The merge of the components' directories ----

  // The value of field f that the first component to have one gives.
  function FirstGiven(components: seq<seq<Option<string>>>, f: nat): Option<string>
    requires forall c :: 0 <= c < |components| ==> |components[c]| == |NAMES|
    requires f < |NAMES|
  {
    if components == [] then None
    else if components[0][f].Some? then components[0][f]
    else FirstGiven(components[1..], f)
  }

  // It is a value that some component gives and no component before it.
  lemma {:induction false} FirstGivenIsFirst(components: seq<seq<Option<string>>>, f: nat)
    requires forall c :: 0 <= c < |components| ==> |components[c]| == |NAMES|
    requires f < |NAMES|
    ensures FirstGiven(components, f).None? <==> forall c :: 0 <= c < |components| ==> components[c][f].None?
    ensures FirstGiven(components, f).Some? ==>
      exists c :: 0 <= c < |components| && components[c][f] == FirstGiven(components, f)
               && forall e :: 0 <= e < c ==> components[e][f].None?
  {
    if components != [] {
      assert forall c :: 1 <= c < |components| ==> components[c] == components[1..][c - 1];
      if components[0][f].None? {
        FirstGivenIsFirst(components[1..], f);
        if FirstGiven(components, f).Some? {
          var c :| 0 <= c < |components[1..]| && components[1..][c][f] == FirstGiven(components[1..], f)
                && forall e :: 0 <= e < c ==> components[1..][e][f].None?;
          assert components[c + 1][f] == FirstGiven(components, f);
        }
      } else {
        assert components[0][f] == FirstGiven(components, f);
      }
    }
  }

  lemma {:induction false} FirstGivenAppend(components: seq<seq<Option<string>>>, c: seq<Option<string>>, f: nat)
    requires forall k :: 0 <= k < |components| ==> |components[k]| == |NAMES|
    requires |c| == |NAMES| && f < |NAMES|
    ensures FirstGiven(components + [c], f)
         == if FirstGiven(components, f).Some? then FirstGiven(components, f) else c[f]
  {
    if components == [] {
      assert (components + [c])[1..] == [];
    } else {
      assert (components + [c])[1..] == components[1..] + [c];
      FirstGivenAppend(components[1..], c, f);
    }
  }

  // The loop of CONDITIONAL_COPY over the components: what is already there is kept.
  method Merge(target: array<Option<string>>, components: seq<seq<Option<string>>>)
    requires target.Length == |NAMES|
    requires forall c :: 0 <= c < |components| ==> |components[c]| == |NAMES|
    modifies target
    ensures forall f :: 0 <= f < |NAMES| ==>
      target[f] == if old(target[f]).Some? then old(target[f]) else FirstGiven(components, f)
  {
    for c := 0 to |components|
      invariant forall f :: 0 <= f < |NAMES| ==>
        target[f] == if old(target[f]).Some? then old(target[f]) else FirstGiven(components[..c], f)
    {
      assert components[..c + 1] == components[..c] + [components[c]];
      for f := 0 to |NAMES|
        invariant forall g :: 0 <= g < f ==>
          target[g] == if old(target[g]).Some? then old(target[g]) else FirstGiven(components[..c + 1], g)
        invariant forall g :: f <= g < |NAMES| ==>
          target[g] == if old(target[g]).Some? then old(target[g]) else FirstGiven(components[..c], g)
      {
        FirstGivenAppend(components[..c], components[c], f);
        if components[c][f].Some? && target[f].None? {
          target[f] := components[c][f];
        }
      }
    }
    assert components[..|components|] == components;
  }

  // ---- Inputs for which the loop does and does not end ----

  // Fields of which one refers to itself, one holds a slash, and the others are empty.
  function SelfReferring(f: nat): (env: seq<Tokens>)
    requires 0 < f < |NAMES|
    ensures |env| == |NAMES|
    ensures forall g :: 0 <= g < |env| ==>
      env[g] == if g == f then [Ref('$', f)] else if g == 0 then [Lit('/')] else []
  {
    seq(|NAMES|, g requires 0 <= g < |NAMES| =>
      if g == f then [Ref('$', f)] else if g == 0 then [Lit('/')] else [])
  }

  function TextsOf(env: seq<Tokens>): (dirs: seq<string>)
    requires forall g :: 0 <= g < |env| ==> forall i :: 0 <= i < |env[g]| ==> TokenOk(NAMES, env[g][i])
    ensures |dirs| == |env| && forall g :: 0 <= g < |dirs| ==> dirs[g] == Text(NAMES, env[g])
  {
    seq(|env|, g requires 0 <= g < |env| => Text(NAMES, env[g]))
  }

  lemma SelfReferringReads(f: nat)
    requires 0 < f < |NAMES|
    ensures var env := SelfReferring(f);
            && (forall g :: 0 <= g < |env| ==> forall i :: 0 <= i < |env[g]| ==> TokenOk(NAMES, env[g][i]))
            && Reads(Table(NAMES, TextsOf(env), 0), env, Below(|NAMES|))
  {
    FieldNamesAreGood();
  }

  lemma NoWayBack(f: nat, loop: set<nat>)
    requires 0 < f < |NAMES|
    ensures !(Circular(SelfReferring(f), loop) && RefersInto([Ref('$', 0)], loop))
  {
    assert !RefersInto(SelfReferring(f)[0], loop);
  }

  lemma OnlyItself(f: nat)
    requires 0 < f < |NAMES|
    ensures ReachesCircle(SelfReferring(f), [Ref('$', f)]) && !ReachesCircle(SelfReferring(f), [Ref('$', 0)])
  {
    var env, self := SelfReferring(f), [Ref('$', f)];
    assert self[0].f in {f} && RefersInto(env[f], {f});
    assert Circular(env, {f}) && RefersInto(self, {f});
    forall loop: set<nat>
      ensures !(Circular(env, loop) && RefersInto([Ref('$', 0)], loop))
    {
      NoWayBack(f, loop);
    }
  }

  lemma SaysReference(f: nat)
    requires f < |NAMES|
    ensures Says(NAMES, Below(|NAMES|), [Ref('$', f)], Reference('$', NAMES[f]))
  {
    var toks := [Ref('$', f)];
    assert Text(NAMES, toks) == Reference('$', NAMES[f]) + Text(NAMES, toks[1..]);
  }

  // The loop never ends on the field that refers to itself, and ends on another one.
  lemma SelfReference(f: nat)
    requires 0 < f < |NAMES|
    ensures var env := SelfReferring(f);
            && (forall g :: 0 <= g < |env| ==> forall i :: 0 <= i < |env[g]| ==> TokenOk(NAMES, env[g][i]))
            && !Stops(Table(NAMES, TextsOf(env), 0), Reference('$', NAMES[f]))
            && Stops(Table(NAMES, TextsOf(env), 0), Reference('$', NAMES[0]))
  {
    var env, used := SelfReferring(f), Below(|NAMES|);
    SelfReferringReads(f);
    SaysReference(f);
    SaysReference(0);
    OnlyItself(f);
    StopsUnlessCircular(Table(NAMES, TextsOf(env), 0), env, used, [Ref('$', f)], Reference('$', NAMES[f]));
    StopsUnlessCircular(Table(NAMES, TextsOf(env), 0), env, used, [Ref('$', 0)], Reference('$', NAMES[0]));
  }

  // Fields of which the first refers to the second.
  function ReferringLater(): (raw: seq<Tokens>)
    ensures |raw| == |NAMES|
    ensures forall g :: 0 <= g < |raw| ==>
      raw[g] == if g == 0 then [Ref('$', 1)]
                else if g == 1 then [Lit('/'), Lit('u'), Lit('s'), Lit('r')]
                else [Lit('/')]
  {
    seq(|NAMES|, g => if g == 0 then [Ref('$', 1)]
                      else if g == 1 then [Lit('/'), Lit('u'), Lit('s'), Lit('r')]
                      else [Lit('/')])
  }

  // Their ranks.
  function LaterRanks(): (rank: seq<nat>)
    ensures |rank| == |NAMES| && forall g :: 0 <= g < |rank| ==> rank[g] == if g == 0 then 1 else 0
  {
    seq(|NAMES|, g => if g == 0 then 1 else 0)
  }

  lemma ReferringLaterIsRanked()
    ensures Ranked(NAMES, ReferringLater(), LaterRanks())
  {
    var raw, rank := ReferringLater(), LaterRanks();
    forall f | 0 <= f < |raw|
      ensures WellFormed(NAMES, raw[f]) && RefsBelow(NAMES, rank, raw[f], rank[f])
    {
    }
  }

  // The text of four characters.
  lemma FourLetters(names: seq<string>, a: char, b: char, c: char, d: char)
    ensures Text(names, [Lit(a), Lit(b), Lit(c), Lit(d)]) == [a, b, c, d]
    ensures Text(names, [Lit(c), Lit(d)]) == [c, d]
  {
    TwoLetters(names, c, d);
    TwoLetters(names, a, b);
    TextConcat(names, [Lit(a), Lit(b)], [Lit(c), Lit(d)]);
    assert [Lit(a), Lit(b), Lit(c), Lit(d)] == [Lit(a), Lit(b)] + [Lit(c), Lit(d)];
  }

  lemma TwoLetters(names: seq<string>, a: char, b: char)
    ensures Text(names, [Lit(a), Lit(b)]) == [a, b]
  {
    assert [Lit(a), Lit(b)][1..] == [Lit(b)] && [Lit(b)][1..] == [];
    assert Text(names, [Lit(b)]) == [b];
  }

  lemma ValueOfPlain(raw: seq<Tokens>, rank: seq<nat>, f: nat)
    requires Ranked(NAMES, raw, rank) && f < |raw| && NoRefs(raw[f])
    ensures Value(raw, rank, f) == Text(NAMES, raw[f])
  {
    FullOfPlain(NAMES, raw, rank, raw[f], rank[f]);
  }

  // A single reference expands to the value that it refers to, if that refers to nothing.
  lemma FullOfSingle(env: seq<Tokens>, rank: seq<nat>, f: nat, b: nat)
    requires Ranked(NAMES, env, rank) && f < |env| && NoRefs(env[f]) && rank[f] < b
    ensures RefsBelow(NAMES, rank, [Ref('$', f)], b)
    ensures Full(NAMES, env, rank, [Ref('$', f)], b) == env[f]
  {
    FullOfRef(NAMES, env, rank, Ref('$', f), [], b);
    assert [Ref('$', f)] + [] == [Ref('$', f)];
    FullOfPlain(NAMES, env, rank, env[f], rank[f]);
  }

  lemma ReferringLaterValue(f: nat)
    requires f < |NAMES| && Ranked(NAMES, ReferringLater(), LaterRanks())
    ensures Value(ReferringLater(), LaterRanks(), f) == if f < 2 then "/usr" else "/"
  {
    var raw, rank := ReferringLater(), LaterRanks();
    FourLetters(NAMES, '/', 'u', 's', 'r');
    if f == 0 {
      FullOfSingle(raw, rank, 1, 1);
    } else {
      ValueOfPlain(raw, rank, f);
    }
  }

  // Past the first two characters of its value, the second field reads as the last two.
  lemma ReadsTooLate(destdir: string)
    requires Ranked(NAMES, ReferringLater(), LaterRanks()) && |destdir| == 2
    ensures var env := ReferringLater()[1 := [Lit('s'), Lit('r')]];
            && Ranked(NAMES, env, LaterRanks())
            && Reads(Table(NAMES, During(ReferringLater(), LaterRanks(), Some(destdir), 0), 2), env, {1})
  {
    var raw, rank := ReferringLater(), LaterRanks();
    var env := raw[1 := [Lit('s'), Lit('r')]];
    FieldNamesAreGood();
    FourLetters(NAMES, '/', 'u', 's', 'r');
    forall f | 0 <= f < |env|
      ensures WellFormed(NAMES, env[f]) && RefsBelow(NAMES, rank, env[f], rank[f])
    {
      assert WellFormed(NAMES, raw[f]) && RefsBelow(NAMES, rank, raw[f], rank[f]);
    }
    var t := Table(NAMES, During(raw, rank, Some(destdir), 0), 2);
    assert t.dirs[1] == ['/', 'u', 's', 'r'] && t.dirs[1][2..] == ['s', 'r'];
    assert ReadsField(t, env, {1}, 1);
  }

  lemma EndsTooShort(destdir: string)
    requires Ranked(NAMES, ReferringLater(), LaterRanks()) && |destdir| == 2
    ensures Ends(Table(NAMES, During(ReferringLater(), LaterRanks(), Some(destdir), 0), 2),
                 Text(NAMES, ReferringLater()[0]), "sr")
  {
    var raw, rank := ReferringLater(), LaterRanks();
    var env := raw[1 := [Lit('s'), Lit('r')]];
    ReadsTooLate(destdir);
    FourLetters(NAMES, '/', 'u', 's', 'r');
    FullOfSingle(env, rank, 1, 1);
    var t := Table(NAMES, During(raw, rank, Some(destdir), 0), 2);
    var s, w := Text(NAMES, raw[0]), Work(NAMES, env, rank, raw[0], 1);
    assert Says(NAMES, {1}, raw[0], s);
    assert Expands(t, env, {1}, rank, 1, s, env[1], w);
    EndsWithFull(t, env, {1}, rank, 1, s, env[1], w);
  }

  // A reference as it is written.
  lemma WrittenReference()
    ensures Text(NAMES, [Ref('$', 1)]) == "${exec_prefix}" && Text(NAMES, [Ref('@', 0)]) == "@{prefix}"
  {
    assert [Ref('$', 1)][1..] == [] && [Ref('@', 0)][1..] == [];
    assert Reference('$', "exec_prefix") == "${exec_prefix}" && Reference('@', "prefix") == "@{prefix}";
  }

  // A first field that refers to the second, which is "/usr", ends as "sr" if DESTDIR has two
  // characters: they are skipped in a value that does not carry them yet. All else that the pass asks
  // for is met.
  lemma LaterReference(destdir: string)
    requires Absolute(destdir) && |destdir| == 2
    ensures var raw, rank := ReferringLater(), LaterRanks();
            && Ranked(NAMES, raw, rank) && !InOrder(raw)
            && (forall f :: 0 <= f < |raw| ==> Absolute(Value(raw, rank, f)))
            && Value(raw, rank, 0) == "/usr" && Text(NAMES, raw[0]) == "${exec_prefix}"
            && Ends(Table(NAMES, During(raw, rank, Some(destdir), 0), |destdir|), Text(NAMES, raw[0]), "sr")
  {
    var raw, rank := ReferringLater(), LaterRanks();
    ReferringLaterIsRanked();
    forall f | 0 <= f < |raw|
      ensures Absolute(Value(raw, rank, f)) && Value(raw, rank, 0) == "/usr"
    {
      ReferringLaterValue(f);
      ReferringLaterValue(0);
    }
    EndsTooShort(destdir);
    WrittenReference();
    assert raw[0][0].f == 1 && !UsesOnly(raw[0], Below(0));
  }
}
