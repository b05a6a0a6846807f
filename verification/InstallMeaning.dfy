// The meaning of the rewriting loop: it ends for exactly the strings from which no circle of fields is
// reached, and gives the recursive substitution of the fields.
module InstallMeaning {
  import opened InstallLoop
  import opened InstallTokens

  // The numbers below n.
  function Below(n: nat): (r: set<nat>)
    ensures forall f: nat :: f in r <==> f < n
  {
    if n == 0 then {} else Below(n - 1) + {n - 1}
  }

  // ---- strings and tokens ----------------------------------------------------------------------

  // The tokens refer to fields in used only.
  ghost predicate UsesOnly(toks: Tokens, used: set<nat>) {
    forall i :: 0 <= i < |toks| && toks[i].Ref? ==> toks[i].f in used
  }

  // Names, fields and their values fit together.
  ghost predicate Fits(t: Table, env: seq<Tokens>) {
    GoodNames(t.names) && Whole(t) && |env| == |t.names|
  }

  // Field f has the value given by env, which refers to fields in used only.
  ghost predicate ReadsField(t: Table, env: seq<Tokens>, used: set<nat>, f: nat)
    requires Fits(t, env)
  {
    && f < |env| && WellFormed(t.names, env[f]) && UsesOnly(env[f], used)
    && t.offset <= |t.dirs[f]| && t.dirs[f][t.offset..] == Text(t.names, env[f])
  }

  // So do all the fields in used. Nothing is said of the other fields.
  ghost predicate Reads(t: Table, env: seq<Tokens>, used: set<nat>) {
    Fits(t, env) && forall f :: f in used ==> ReadsField(t, env, used, f)
  }

  // The string is the text of the tokens.
  ghost predicate Says(names: seq<string>, used: set<nat>, toks: Tokens, s: string) {
    WellFormed(names, toks) && UsesOnly(toks, used) && s == Text(names, toks)
  }

  lemma ReplaceUsesOnly(toks: Tokens, i: nat, v: Tokens, used: set<nat>)
    requires UsesOnly(toks, used) && UsesOnly(v, used) && i < |toks|
    ensures UsesOnly(Replace(toks, i, v), used)
  {
    var r := Replace(toks, i, v);
    forall k | 0 <= k < |r| && r[k].Ref?
      ensures r[k].f in used
    {
      if k < i {
        assert r[k] == toks[k];
      } else if k < i + |v| {
        assert r[k] == v[k - i];
      } else {
        assert r[k] == toks[k - |v| + 1];
      }
    }
  }

  lemma SplitString(x: string, pat: string, y: string)
    ensures var s := x + pat + y;
            s[..|x|] == x && s[|x| + |pat|..] == y
  {
  }

  // Replacing a reference in the string is replacing it in the tokens.
  lemma SubstituteOnTokens(t: Table, env: seq<Tokens>, used: set<nat>, toks: Tokens, s: string,
                           sigil: char, f: nat, p: nat) returns (i: nat)
    requires Fits(t, env) && Says(t.names, used, toks, s) && Sigil(sigil) && f < |t.names|
    requires f in used ==> ReadsField(t, env, used, f)
    requires OccursAt(s, Reference(sigil, t.names[f]), p)
    ensures i < |toks| && toks[i] == Ref(sigil, f) && f in used
    ensures var u := Substitute(t, s, f, p, |Reference(sigil, t.names[f])|);
            u.Turn? && u.changed && Says(t.names, used, Replace(toks, i, env[f]), u.text)
  {
    i := OccurrenceIsToken(t.names, toks, sigil, f, p);
    SplitText(t.names, toks, i);
    ReplaceWellFormed(t.names, toks, i, env[f]);
    ReplaceUsesOnly(toks, i, env[f], used);
    SplitString(Text(t.names, toks[..i]), Reference(sigil, t.names[f]), Text(t.names, toks[i + 1..]));
  }

  // A macro that changes the string replaces one reference to its field.
  lemma MacroOnTokens(t: Table, env: seq<Tokens>, used: set<nat>, toks: Tokens, s: string, f: nat)
    returns (toks': Tokens, i: nat)
    requires Fits(t, env) && Says(t.names, used, toks, s) && f < |t.names|
    requires f in used ==> ReadsField(t, env, used, f)
    ensures Macro(t, s, f).Turn? && Says(t.names, used, toks', Macro(t, s, f).text)
    ensures if Macro(t, s, f).changed
            then i < |toks| && toks[i].Ref? && toks[i].f == f && f in used && toks' == Replace(toks, i, env[f])
            else toks' == toks
  {
    var dollar, at := Find(s, Reference('$', t.names[f])), Find(s, Reference('@', t.names[f]));
    toks', i := toks, 0;
    if dollar.Some? {
      i := SubstituteOnTokens(t, env, used, toks, s, '$', f, dollar.value);
      toks' := Replace(toks, i, env[f]);
    } else if at.Some? {
      i := SubstituteOnTokens(t, env, used, toks, s, '@', f, at.value);
      toks' := Replace(toks, i, env[f]);
    }
  }

  // A reference among the tokens is one in the string.
  lemma ReferenceOccurs(t: Table, toks: Tokens, s: string, i: nat)
    requires WellFormed(t.names, toks) && s == Text(t.names, toks) && i < |toks| && toks[i].Ref?
    ensures !NoReference(t, s, |t.names|)
  {
    assert TokenOk(t.names, toks[i]);
    TokenOccurs(t.names, toks, i);
  }

  // ---- when the loop does not end --------------------------------------------------------------

  ghost predicate RefersInto(toks: Tokens, loop: set<nat>) {
    exists i :: 0 <= i < |toks| && toks[i].Ref? && toks[i].f in loop
  }

  // Every field in loop refers to some field in loop. If loop is not empty its references run in a
  // circle, and tokens that refer into it reach that circle.
  ghost predicate Circular(env: seq<Tokens>, loop: set<nat>) {
    && (forall f :: f in loop ==> f < |env|)
    && (forall f {:trigger RefersInto(env[f], loop)} :: f in loop ==> RefersInto(env[f], loop))
  }

  ghost predicate ReachesCircle(env: seq<Tokens>, toks: Tokens) {
    exists loop: set<nat> :: Circular(env, loop) && RefersInto(toks, loop)
  }

  lemma ReplaceKeepsOthers(loop: set<nat>, toks: Tokens, i: nat, v: Tokens)
    requires RefersInto(toks, loop) && i < |toks| && toks[i].Ref? && toks[i].f !in loop
    ensures RefersInto(Replace(toks, i, v), loop)
  {
    var r := Replace(toks, i, v);
    var k :| 0 <= k < |toks| && toks[k].Ref? && toks[k].f in loop;
    if k < i {
      assert r[k] == toks[k];
    } else {
      assert r[k - 1 + |v|] == toks[k];
    }
  }

  lemma ReplaceStaysInLoop(env: seq<Tokens>, loop: set<nat>, toks: Tokens, i: nat)
    requires Circular(env, loop) && RefersInto(toks, loop)
    requires i < |toks| && toks[i].Ref? && toks[i].f < |env|
    ensures RefersInto(Replace(toks, i, env[toks[i].f]), loop)
  {
    var v := env[toks[i].f];
    if toks[i].f in loop {
      assert RefersInto(v, loop);
      var j :| 0 <= j < |v| && v[j].Ref? && v[j].f in loop;
      assert Replace(toks, i, v)[i + j] == v[j];
    } else {
      ReplaceKeepsOthers(loop, toks, i, v);
    }
  }

  // The string refers into a circle.
  ghost predicate Doomed(t: Table, used: set<nat>, loop: set<nat>, s: string) {
    exists toks: Tokens :: Says(t.names, used, toks, s) && RefersInto(toks, loop)
  }

  lemma MacroStaysDoomed(t: Table, env: seq<Tokens>, used: set<nat>, loop: set<nat>, s: string, f: nat)
    requires Reads(t, env, used) && f < |t.names| && Circular(env, loop) && Doomed(t, used, loop, s)
    ensures Macro(t, s, f).Turn? && Doomed(t, used, loop, Macro(t, s, f).text)
  {
    var toks: Tokens :| Says(t.names, used, toks, s) && RefersInto(toks, loop);
    var toks', i := MacroOnTokens(t, env, used, toks, s, f);
    if Macro(t, s, f).changed {
      ReplaceStaysInLoop(env, loop, toks, i);
    }
  }

  lemma DoomedRefers(t: Table, used: set<nat>, loop: set<nat>, s: string)
    requires Doomed(t, used, loop, s)
    ensures !NoReference(t, s, |t.names|)
  {
    var toks: Tokens :| Says(t.names, used, toks, s) && RefersInto(toks, loop);
    var i :| 0 <= i < |toks| && toks[i].Ref? && toks[i].f in loop;
    ReferenceOccurs(t, toks, s, i);
  }

  lemma PassStaysDoomed(t: Table, env: seq<Tokens>, used: set<nat>, loop: set<nat>, s: string)
    requires Reads(t, env, used) && Circular(env, loop) && Doomed(t, used, loop, s)
    ensures Pass(t, s).Turn? && Pass(t, s).changed && Doomed(t, used, loop, Pass(t, s).text)
  {
    ghost var inv := u => Doomed(t, used, loop, u);
    forall u, f: nat | inv(u) && f < |t.names|
      ensures Macro(t, u, f).Turn? && inv(Macro(t, u, f).text)
    {
      MacroStaysDoomed(t, env, used, loop, u, f);
    }
    PassKeeps(t, s, |t.names|, inv);
    DoomedRefers(t, used, loop, s);
    UnchangedPass(t, s, |t.names|);
  }

  // From a string that refers into a circle the loop goes round for ever: after any number of turns
  // there is a reference left, and the next turn replaces one.
  lemma GoesRound(t: Table, env: seq<Tokens>, used: set<nat>, loop: set<nat>, s: string, n: nat)
    requires Reads(t, env, used) && Circular(env, loop) && Doomed(t, used, loop, s)
    ensures After(t, s, n).Turn? && After(t, s, n).changed && Doomed(t, used, loop, After(t, s, n).text)
    ensures !NoReference(t, After(t, s, n).text, |t.names|)
  {
    ghost var inv := u => Doomed(t, used, loop, u);
    forall u | inv(u)
      ensures Pass(t, u).Turn? && Pass(t, u).changed && inv(Pass(t, u).text)
    {
      PassStaysDoomed(t, env, used, loop, u);
    }
    AfterKeeps(t, s, n, inv);
    DoomedRefers(t, used, loop, After(t, s, n).text);
  }

  // ---- when it has no defined outcome ----------------------------------------------------------

  // The string refers to field e, and the macros before that of e can be carried out.
  ghost predicate Reaches(t: Table, env: seq<Tokens>, used: set<nat>, e: nat, s: string) {
    && e < |t.names| && Fits(t, env) && Doomed(t, used, {e}, s)
    && (forall f :: f in used && f < e ==> ReadsField(t, env, used, f))
  }

  lemma MacroBefore(t: Table, env: seq<Tokens>, used: set<nat>, e: nat, s: string, f: nat)
    requires Reaches(t, env, used, e, s) && f < e
    ensures Macro(t, s, f).Turn? && Reaches(t, env, used, e, Macro(t, s, f).text)
  {
    var toks: Tokens :| Says(t.names, used, toks, s) && RefersInto(toks, {e});
    var toks', i := MacroOnTokens(t, env, used, toks, s, f);
    if Macro(t, s, f).changed {
      ReplaceKeepsOthers({e}, toks, i, env[f]);
    }
  }

  lemma MacroOfShort(t: Table, env: seq<Tokens>, used: set<nat>, e: nat, s: string)
    requires Reaches(t, env, used, e, s) && |t.dirs[e]| < t.offset
    ensures Macro(t, s, e).Undefined?
  {
    var toks: Tokens :| Says(t.names, used, toks, s) && RefersInto(toks, {e});
    var i :| 0 <= i < |toks| && toks[i].Ref? && toks[i].f in {e};
    assert TokenOk(t.names, toks[i]);
    TokenOccurs(t.names, toks, i);
    UnchangedMacro(t, s, e);
  }

  lemma MacrosBefore(t: Table, env: seq<Tokens>, used: set<nat>, e: nat, s: string)
    requires Reaches(t, env, used, e, s)
    ensures PassUpTo(t, s, e).Turn? && Reaches(t, env, used, e, PassUpTo(t, s, e).text)
  {
    ghost var inv := u => Reaches(t, env, used, e, u);
    forall u, f: nat | inv(u) && f < e
      ensures Macro(t, u, f).Turn? && inv(Macro(t, u, f).text)
    {
      MacroBefore(t, env, used, e, u, f);
    }
    PassKeeps(t, s, e, inv);
  }

  // If the first field that cannot be read is shorter than what is skipped, a string that refers to it
  // has no defined outcome.
  lemma ShortValueHasNoEnd(t: Table, env: seq<Tokens>, used: set<nat>, e: nat, s: string)
    requires Reaches(t, env, used, e, s) && |t.dirs[e]| < t.offset
    ensures Pass(t, s).Undefined? && !Stops(t, s)
  {
    MacrosBefore(t, env, used, e, s);
    MacroOfShort(t, env, used, e, PassUpTo(t, s, e).text);
    StuckAt(t, s, e);
    NeverEnds(t, s);
  }

  lemma StuckAt(t: Table, s: string, e: nat)
    requires Whole(t) && e < |t.names|
    requires PassUpTo(t, s, e).Turn? && Macro(t, PassUpTo(t, s, e).text, e).Undefined?
    ensures Pass(t, s).Undefined?
  {
    if Pass(t, s).Turn? {
      PassDefined(t, s, e + 1, |t.names|);
      assert false;
    }
  }

  lemma NeverEnds(t: Table, s: string)
    requires Whole(t) && Pass(t, s).Undefined?
    ensures !Stops(t, s)
  {
    if Stops(t, s) {
      var r, n: nat :| After(t, s, n) == Turn(r, false);
      assert After(t, s, 0) == Turn(s, true);
      assert After(t, s, 1).Undefined?;
      AfterStays(t, s, 1, n);
      assert false;
    }
  }

  // ---- when it does ----------------------------------------------------------------------------

  // The string expands to r, and w replacements are left to do.
  ghost predicate Expands(t: Table, env: seq<Tokens>, used: set<nat>, rank: seq<nat>, b: nat, s: string, r: Tokens,
      w: nat)
    requires Ranked(t.names, env, rank)
  {
    exists toks: Tokens ::
      && Says(t.names, used, toks, s) && RefsBelow(t.names, rank, toks, b)
      && Full(t.names, env, rank, toks, b) == r && Work(t.names, env, rank, toks, b) == w
  }

  lemma MacroExpands(t: Table, env: seq<Tokens>, used: set<nat>, rank: seq<nat>, b: nat, s: string, r: Tokens, w: nat,
                     f: nat)
    requires Reads(t, env, used) && f < |t.names|
    requires Ranked(t.names, env, rank) && Expands(t, env, used, rank, b, s, r, w)
    ensures var u := Macro(t, s, f);
            && u.Turn?
            && if u.changed then w > 0 && Expands(t, env, used, rank, b, u.text, r, w - 1)
               else Expands(t, env, used, rank, b, u.text, r, w)
  {
    var toks: Tokens :| Says(t.names, used, toks, s) && RefsBelow(t.names, rank, toks, b)
      && Full(t.names, env, rank, toks, b) == r && Work(t.names, env, rank, toks, b) == w;
    var toks', i := MacroOnTokens(t, env, used, toks, s, f);
    if Macro(t, s, f).changed {
      ReplaceKeepsFull(t.names, env, rank, toks, b, i);
    }
  }

  // A pass keeps the expansion and does some of its work.
  lemma PassExpands(t: Table, env: seq<Tokens>, used: set<nat>, rank: seq<nat>, b: nat, s: string, r: Tokens, w: nat)
    returns (w': nat)
    requires Reads(t, env, used) && Ranked(t.names, env, rank) && Expands(t, env, used, rank, b, s, r, w)
    ensures Pass(t, s).Turn? && Expands(t, env, used, rank, b, Pass(t, s).text, r, w')
    ensures Pass(t, s).changed ==> w' < w
  {
    ghost var left := (u: string, v: nat) => Ranked(t.names, env, rank) && Expands(t, env, used, rank, b, u, r, v);
    forall u, f: nat, v: nat
      ensures MacroCounts(t, left, u, f, v)
    {
      if left(u, v) && f < |t.names| {
        MacroExpands(t, env, used, rank, b, u, r, v, f);
      }
    }
    w' := PassCounts(t, s, |t.names|, left, w);
  }

  // A string without references is its own expansion.
  lemma ExpandedText(t: Table, env: seq<Tokens>, used: set<nat>, rank: seq<nat>, b: nat, s: string, r: Tokens, w: nat)
    requires Ranked(t.names, env, rank) && Expands(t, env, used, rank, b, s, r, w) && NoReference(t, s, |t.names|)
    ensures WellFormed(t.names, r) && s == Text(t.names, r)
  {
    var toks: Tokens :| Says(t.names, used, toks, s) && RefsBelow(t.names, rank, toks, b)
      && Full(t.names, env, rank, toks, b) == r && Work(t.names, env, rank, toks, b) == w;
    forall i | 0 <= i < |toks|
      ensures !toks[i].Ref?
    {
      if toks[i].Ref? {
        ReferenceOccurs(t, toks, s, i);
        assert false;
      }
    }
    FullOfPlain(t.names, env, rank, toks, b);
  }

  // With ranked fields the loop ends with the full expansion.
  lemma {:induction false} EndsWithFull(t: Table, env: seq<Tokens>, used: set<nat>, rank: seq<nat>, b: nat, s: string,
                                        r: Tokens, w: nat)
    requires Reads(t, env, used) && Ranked(t.names, env, rank) && Expands(t, env, used, rank, b, s, r, w)
    ensures WellFormed(t.names, r) && Ends(t, s, Text(t.names, r))
    decreases w
  {
    var w' := PassExpands(t, env, used, rank, b, s, r, w);
    UnchangedPass(t, s, |t.names|);
    if Pass(t, s).changed {
      EndsWithFull(t, env, used, rank, b, Pass(t, s).text, r, w');
      EndsLater(t, s, Text(t.names, r));
    } else {
      ExpandedText(t, env, used, rank, b, s, r, w);
      assert After(t, s, 0) == Turn(s, true);
      assert After(t, s, 1) == Turn(s, false);
    }
  }

  lemma EndsLater(t: Table, s: string, r: string)
    requires Whole(t) && Pass(t, s).Turn? && Pass(t, s).changed && Ends(t, Pass(t, s).text, r)
    ensures Ends(t, s, r)
  {
    var n: nat :| After(t, Pass(t, s).text, n) == Turn(r, false);
    AfterShift(t, s, n);
    assert After(t, s, n + 1) == Turn(r, false);
  }

  // ---- exactly when ----------------------------------------------------------------------------

  // Taking away fields that refer to fields taken away before leaves a circular rest; the others are
  // ranked by when they were taken away.
  lemma {:induction false} Peel(env: seq<Tokens>, used: set<nat>, left: set<nat>, rank: seq<nat>, k: nat)
    returns (core: set<nat>, rank': seq<nat>, k': nat)
    requires left <= used && |rank| == |env| && (forall f :: f in used ==> f < |env| && UsesOnly(env[f], used))
    requires forall f :: f in used - left ==> rank[f] < k && RanksBelow(env[f], used - left, rank, rank[f])
    ensures core <= left && |rank'| == |env| && Circular(env, core)
    ensures forall f :: f in used - core ==> rank'[f] < k' && RanksBelow(env[f], used - core, rank', rank'[f])
    decreases |left|
  {
    if f :| f in left && !RefersInto(env[f], left) {
      var rank1, left1 := rank[f := k], left - {f};
      forall g | g in used - left1
        ensures rank1[g] < k + 1 && RanksBelow(env[g], used - left1, rank1, rank1[g])
      {
        if g != f {
          assert RanksBelow(env[g], used - left, rank, rank[g]);
        }
      }
      core, rank', k' := Peel(env, used, left1, rank1, k + 1);
    } else {
      core, rank', k' := left, rank, k;
    }
  }

  // The tokens refer to fields in some set only, and only to fields of a rank below b.
  ghost predicate RanksBelow(toks: Tokens, fields: set<nat>, rank: seq<nat>, b: nat) {
    forall i :: 0 <= i < |toks| && toks[i].Ref? ==>
      toks[i].f in fields && toks[i].f < |rank| && rank[toks[i].f] < b
  }

  // The fields that matter, with nothing in the others.
  function Restricted(env: seq<Tokens>, used: set<nat>): (r: seq<Tokens>)
    ensures |r| == |env| && forall f :: 0 <= f < |r| ==> r[f] == if f in used then env[f] else []
  {
    seq(|env|, f requires 0 <= f < |env| => if f in used then env[f] else [])
  }

  // References replaced by the fields, all at once, d levels deep.
  function Deep(env: seq<Tokens>, toks: Tokens, d: nat): Tokens
    decreases d, |toks|
  {
    if toks == [] then []
    else
      var rest := Deep(env, toks[1..], d);
      if d > 0 && toks[0].Ref? && toks[0].f < |env| then Deep(env, env[toks[0].f], d - 1) + rest
      else [toks[0]] + rest
  }

  lemma {:induction false} DeepIsFull(names: seq<string>, env: seq<Tokens>, rank: seq<nat>, toks: Tokens, b: nat)
    requires Ranked(names, env, rank) && RefsBelow(names, rank, toks, b)
    ensures Deep(env, toks, b) == Full(names, env, rank, toks, b)
    decreases b, |toks|
  {
    if toks != [] {
      DeepIsFull(names, env, rank, toks[1..], b);
      if toks[0].Ref? {
        var f := toks[0].f;
        assert RefsBelow(names, rank, env[f], rank[f]);
        DeepIsFull(names, env, rank, env[f], b - 1);
        BoundIrrelevant(names, env, rank, env[f], b - 1, rank[f]);
      }
    }
  }

  lemma {:induction false} DeepRestricted(env: seq<Tokens>, used: set<nat>, toks: Tokens, d: nat)
    requires UsesOnly(toks, used) && forall f :: f in used ==> f < |env| && UsesOnly(env[f], used)
    ensures Deep(Restricted(env, used), toks, d) == Deep(env, toks, d)
    decreases d, |toks|
  {
    if toks != [] {
      assert forall i :: 0 <= i < |toks[1..]| ==> toks[1..][i] == toks[i + 1];
      DeepRestricted(env, used, toks[1..], d);
      if d > 0 && toks[0].Ref? {
        DeepRestricted(env, used, env[toks[0].f], d - 1);
      }
    }
  }

  // The loop ends with the recursive substitution, d levels of which leave no reference.
  ghost predicate EndsWithDeep(t: Table, env: seq<Tokens>, toks: Tokens, s: string, d: nat) {
    var r := Deep(env, toks, d);
    NoRefs(r) && WellFormed(t.names, r) && Whole(t) && Ends(t, s, Text(t.names, r))
  }

  lemma RestrictedIsRanked(names: seq<string>, env: seq<Tokens>, used: set<nat>, rank: seq<nat>)
    requires |env| == |names| == |rank|
    requires forall f :: f in used ==> f < |env| && WellFormed(names, env[f]) && RanksBelow(env[f], used, rank, rank[f])
    ensures Ranked(names, Restricted(env, used), rank)
  {
    forall f | 0 <= f < |env|
      ensures RefsBelow(names, rank, Restricted(env, used)[f], rank[f])
    {
      if f in used {
        assert forall i :: 0 <= i < |env[f]| ==> TokenOk(names, env[f][i]);
      }
    }
  }

  // A string from which no circle is reached ends as its recursive substitution.
  lemma EndsUnlessCircular(t: Table, env: seq<Tokens>, used: set<nat>, toks: Tokens, s: string) returns (d: nat)
    requires Reads(t, env, used) && Says(t.names, used, toks, s) && !ReachesCircle(env, toks)
    ensures EndsWithDeep(t, env, toks, s, d)
  {
    var core, rank, k := Peel(env, used, used, seq(|env|, i => 0), 0);
    var good := used - core;
    var env' := Restricted(env, good);
    assert !RefersInto(toks, core);
    RestrictedIsRanked(t.names, env, good, rank);
    assert Reads(t, env', good);
    assert Says(t.names, good, toks, s);
    forall i | 0 <= i < |toks|
      ensures TokenOk(t.names, toks[i]) && (toks[i].Ref? ==> rank[toks[i].f] < k)
    {
      assert TokenOk(t.names, toks[i]);
    }
    assert RefsBelow(t.names, rank, toks, k);
    var r, w := Full(t.names, env', rank, toks, k), Work(t.names, env', rank, toks, k);
    assert Expands(t, env', good, rank, k, s, r, w);
    EndsWithFull(t, env', good, rank, k, s, r, w);
    DeepIsFull(t.names, env', rank, toks, k);
    DeepRestricted(env, good, toks, k);
    d := k;
  }

  // The loop ends for exactly the strings from which no circle of references is reached, whatever the
  // fields are that the string does not lead to. It then gives the recursive substitution.
  lemma StopsUnlessCircular(t: Table, env: seq<Tokens>, used: set<nat>, toks: Tokens, s: string)
    requires Reads(t, env, used) && Says(t.names, used, toks, s)
    ensures Stops(t, s) <==> !ReachesCircle(env, toks)
    ensures Stops(t, s) ==> exists d :: EndsWithDeep(t, env, toks, s, d)
  {
    if ReachesCircle(env, toks) {
      var loop: set<nat> :| Circular(env, loop) && RefersInto(toks, loop);
      assert Doomed(t, used, loop, s);
      if Stops(t, s) {
        var r, n: nat :| After(t, s, n) == Turn(r, false);
        GoesRound(t, env, used, loop, s, n);
        assert false;
      }
    } else {
      var d := EndsUnlessCircular(t, env, used, toks, s);
      assert EndsWithDeep(t, env, toks, s, d);
    }
  }

  lemma RankedUnlessCore(names: seq<string>, env: seq<Tokens>) returns (core: set<nat>, rank: seq<nat>)
    requires |env| == |names| && forall f :: 0 <= f < |env| ==> WellFormed(names, env[f])
    ensures Circular(env, core) && (core == {} ==> Ranked(names, env, rank))
  {
    var all := Below(|env|);
    forall f | f in all
      ensures f < |env| && UsesOnly(env[f], all)
    {
      assert forall i :: 0 <= i < |env[f]| ==> TokenOk(names, env[f][i]);
    }
    var k;
    core, rank, k := Peel(env, all, all, seq(|env|, i => 0), 0);
    if core == {} {
      assert all - core == all;
      RestrictedIsRanked(names, env, all, rank);
      assert Restricted(env, all) == env;
    }
  }

  // No fields that refer into each other in a circle can be ranked, and all others can.
  lemma RankedUnlessCircular(names: seq<string>, env: seq<Tokens>)
    requires |env| == |names| && forall f :: 0 <= f < |env| ==> WellFormed(names, env[f])
    ensures (exists rank :: Ranked(names, env, rank)) <==> !(exists loop: set<nat> :: loop != {} && Circular(env, loop))
  {
    if loop: set<nat> :| loop != {} && Circular(env, loop) {
      if rank :| Ranked(names, env, rank) {
        var f :| f in loop;
        CircularNotRanked(names, env, rank, loop, f);
      }
    } else {
      var core, rank := RankedUnlessCore(names, env);
    }
  }

  lemma CircularNotRanked(names: seq<string>, env: seq<Tokens>, rank: seq<nat>, loop: set<nat>, f: nat)
    requires Circular(env, loop) && f in loop
    ensures !Ranked(names, env, rank)
    decreases if f < |rank| then rank[f] else 0
  {
    if Ranked(names, env, rank) {
      assert RefersInto(env[f], loop);
      var i :| 0 <= i < |env[f]| && env[f][i].Ref? && env[f][i].f in loop;
      assert RefsBelow(names, rank, env[f], rank[f]);
      CircularNotRanked(names, env, rank, loop, env[f][i].f);
    }
  }
}
