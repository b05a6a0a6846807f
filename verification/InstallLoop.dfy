// The rewriting loop of dsched_dinstall_dirs_expand_internal, as it works on a string.
module InstallLoop {
  import opened Sums
  import opened InstallTokens

  // The fields: the names by which they are referred to, their values, and how much of each value is
  // skipped because it holds the DESTDIR already.
  datatype Table = Table(names: seq<string>, dirs: seq<string>, offset: nat)

  // The string after some rewriting, and whether that changed it. Skipping past the end of a value has
  // no defined outcome.
  datatype Turn = Turn(text: string, changed: bool) | Undefined

  predicate Whole(t: Table) {
    |t.names| == |t.dirs|
  }

  // ---- what the code does to a string ----------------------------------------------------------

  function FindFrom(s: string, pat: string, i: nat): (r: Option<nat>)
    requires forall p :: 0 <= p < i ==> !OccursAt(s, pat, p)
    ensures r.Some? ==> OccursAt(s, pat, r.value) && forall p :: 0 <= p < r.value ==> !OccursAt(s, pat, p)
    ensures r.None? ==> forall p: nat :: !OccursAt(s, pat, p)
    decreases |s| - i
  {
    if i + |pat| > |s| then None
    else if s[i..i + |pat|] == pat then Some(i)
    else FindFrom(s, pat, i + 1)
  }

  // The C library's strstr.
  function Find(s: string, pat: string): (r: Option<nat>)
    ensures r.Some? ==> OccursAt(s, pat, r.value) && forall p :: 0 <= p < r.value ==> !OccursAt(s, pat, p)
    ensures r.None? ==> forall p: nat :: !OccursAt(s, pat, p)
  {
    FindFrom(s, pat, 0)
  }

  function Substitute(t: Table, s: string, f: nat, p: nat, len: nat): Turn
    requires f < |t.dirs| && p + len <= |s|
  {
    if t.offset <= |t.dirs[f]| then Turn(s[..p] + t.dirs[f][t.offset..] + s[p + len..], true) else Undefined
  }

  // EXPAND_STRING2: the first reference to field f is replaced, with a dollar sign if there is one.
  function Macro(t: Table, s: string, f: nat): Turn
    requires Whole(t) && f < |t.names|
  {
    var dollar, at := Reference('$', t.names[f]), Reference('@', t.names[f]);
    match Find(s, dollar)
    case Some(p) => Substitute(t, s, f, p, |dollar|)
    case None =>
      match Find(s, at)
      case Some(p) => Substitute(t, s, f, p, |at|)
      case None => Turn(s, false)
  }

  // The first n macros of the loop's body.
  function PassUpTo(t: Table, s: string, n: nat): Turn
    requires Whole(t) && n <= |t.names|
  {
    if n == 0 then Turn(s, false)
    else match PassUpTo(t, s, n - 1)
      case Undefined => Undefined
      case Turn(u, c) =>
        match Macro(t, u, n - 1)
        case Undefined => Undefined
        case Turn(v, d) => Turn(v, c || d)
  }

  function Pass(t: Table, s: string): Turn
    requires Whole(t)
  {
    PassUpTo(t, s, |t.names|)
  }

  // What every macro keeps, a pass keeps.
  lemma {:induction false} PassKeeps(t: Table, s: string, n: nat, inv: string -> bool)
    requires Whole(t) && n <= |t.names| && inv(s)
    requires forall u, f: nat | inv(u) && f < n :: Macro(t, u, f).Turn? && inv(Macro(t, u, f).text)
    ensures PassUpTo(t, s, n).Turn? && inv(PassUpTo(t, s, n).text)
  {
    if n > 0 {
      PassKeeps(t, s, n - 1, inv);
    }
  }

  // If left counts replacements that are left to do, a macro that changes the string does one.
  ghost predicate MacroCounts(t: Table, left: (string, nat) -> bool, u: string, f: nat, v: nat)
    requires Whole(t)
  {
    left(u, v) && f < |t.names| ==>
      && Macro(t, u, f).Turn?
      && if Macro(t, u, f).changed then v > 0 && left(Macro(t, u, f).text, v - 1) else left(Macro(t, u, f).text, v)
  }

  // Then a pass that changes it does some.
  lemma {:induction false} PassCounts(t: Table, s: string, n: nat, left: (string, nat) -> bool, w: nat)
      returns (w': nat)
    requires Whole(t) && n <= |t.names| && left(s, w)
    requires forall u, f: nat, v: nat :: MacroCounts(t, left, u, f, v)
    ensures PassUpTo(t, s, n).Turn? && left(PassUpTo(t, s, n).text, w')
    ensures w' <= w && (PassUpTo(t, s, n).changed ==> w' < w)
  {
    w' := w;
    if n > 0 {
      var v := PassCounts(t, s, n - 1, left, w);
      var u := PassUpTo(t, s, n - 1).text;
      assert MacroCounts(t, left, u, n - 1, v);
      w' := if Macro(t, u, n - 1).changed then v - 1 else v;
    }
  }

  // After n times round the do-while loop.
  function After(t: Table, s: string, n: nat): Turn
    requires Whole(t)
  {
    if n == 0 then Turn(s, true)
    else
      var before := After(t, s, n - 1);
      if before.Turn? && before.changed then Pass(t, before.text) else before
  }

  lemma {:induction false} AfterKeeps(t: Table, s: string, n: nat, inv: string -> bool)
    requires Whole(t) && inv(s)
    requires forall u | inv(u) :: Pass(t, u).Turn? && Pass(t, u).changed && inv(Pass(t, u).text)
    ensures After(t, s, n).Turn? && After(t, s, n).changed && inv(After(t, s, n).text)
  {
    if n > 0 {
      AfterKeeps(t, s, n - 1, inv);
    }
  }

  // The loop ends with r.
  ghost predicate Ends(t: Table, s: string, r: string)
    requires Whole(t)
  {
    exists n: nat :: After(t, s, n) == Turn(r, false)
  }

  ghost predicate Stops(t: Table, s: string)
    requires Whole(t)
  {
    exists r :: Ends(t, s, r)
  }

  lemma {:induction false} AfterStays(t: Table, s: string, n: nat, m: nat)
    requires Whole(t) && n <= m && !(After(t, s, n).Turn? && After(t, s, n).changed)
    ensures After(t, s, m) == After(t, s, n)
  {
    if n < m {
      AfterStays(t, s, n, m - 1);
    }
  }

  // There is only one end.
  lemma OneEnd(t: Table, s: string, r: string, r': string)
    requires Whole(t) && Ends(t, s, r) && Ends(t, s, r')
    ensures r == r'
  {
    var n: nat, m: nat :| After(t, s, n) == Turn(r, false) && After(t, s, m) == Turn(r', false);
    if n <= m {
      AfterStays(t, s, n, m);
    } else {
      AfterStays(t, s, m, n);
    }
  }

  // What the loop ends with refers to no field, and the loop leaves it as it is.
  lemma ExpansionIsFinal(t: Table, s: string, r: string)
    requires Whole(t) && Ends(t, s, r)
    ensures NoReference(t, r, |t.names|) && Ends(t, r, r)
  {
    var n: nat :| After(t, s, n) == Turn(r, false);
    LastTurn(t, s, n);
    UnchangedPass(t, r, |t.names|);
    assert After(t, r, 0) == Turn(r, true);
    assert After(t, r, 1) == Turn(r, false);
  }

  lemma {:induction false} LastTurn(t: Table, s: string, n: nat)
    requires Whole(t) && After(t, s, n).Turn? && !After(t, s, n).changed
    ensures NoReference(t, After(t, s, n).text, |t.names|)
  {
    var before := After(t, s, n - 1);
    if before.changed {
      UnchangedPass(t, before.text, |t.names|);
    } else {
      LastTurn(t, s, n - 1);
    }
  }

  lemma {:induction false} AfterShift(t: Table, s: string, n: nat)
    requires Whole(t) && Pass(t, s).Turn? && Pass(t, s).changed
    ensures After(t, s, n + 1) == After(t, Pass(t, s).text, n)
  {
    if n == 0 {
      assert After(t, s, 0) == Turn(s, true);
    } else {
      AfterShift(t, s, n - 1);
    }
  }

  lemma {:induction false} PassDefined(t: Table, s: string, n: nat, m: nat)
    requires Whole(t) && n <= m <= |t.names| && PassUpTo(t, s, m).Turn?
    ensures PassUpTo(t, s, n).Turn?
  {
    if n < m {
      PassDefined(t, s, n, m - 1);
    }
  }

  ghost predicate NoReference(t: Table, s: string, n: nat)
    requires n <= |t.names|
  {
    forall f, p: nat, sigil | 0 <= f < n && Sigil(sigil) :: !OccursAt(s, Reference(sigil, t.names[f]), p)
  }

  // A pass leaves a string unchanged exactly when the string refers to no field.
  lemma {:induction false} UnchangedPass(t: Table, s: string, n: nat)
    requires Whole(t) && n <= |t.names|
    ensures PassUpTo(t, s, n) == Turn(s, false) <==> NoReference(t, s, n)
    ensures PassUpTo(t, s, n).Turn? && !PassUpTo(t, s, n).changed ==> PassUpTo(t, s, n).text == s
  {
    if n > 0 {
      UnchangedPass(t, s, n - 1);
      UnchangedMacro(t, s, n - 1);
      if NoReference(t, s, n) {
        assert NoReference(t, s, n - 1);
      }
    }
  }

  lemma UnchangedMacro(t: Table, s: string, f: nat)
    requires Whole(t) && f < |t.names|
    ensures Macro(t, s, f).Turn? && !Macro(t, s, f).changed
       <==> forall p: nat, sigil | Sigil(sigil) :: !OccursAt(s, Reference(sigil, t.names[f]), p)
    ensures Macro(t, s, f).Turn? && !Macro(t, s, f).changed ==> Macro(t, s, f).text == s
  {
    var dollar, at := Reference('$', t.names[f]), Reference('@', t.names[f]);
    if Find(s, dollar).Some? {
      assert OccursAt(s, Reference('$', t.names[f]), Find(s, dollar).value);
    } else if Find(s, at).Some? {
      assert OccursAt(s, Reference('@', t.names[f]), Find(s, at).value);
    }
  }

  lemma StartsWithSigil(s: string, sigil: char, name: string, p: nat)
    requires OccursAt(s, Reference(sigil, name), p)
    ensures p < |s| && s[p] == sigil
  {
    assert s[p..p + |Reference(sigil, name)|][0] == s[p];
  }

  lemma NoSigilNoReference(t: Table, s: string)
    requires forall k :: 0 <= k < |s| ==> !Sigil(s[k])
    ensures NoReference(t, s, |t.names|)
  {
    forall f, p: nat, sigil | 0 <= f < |t.names| && Sigil(sigil)
      ensures !OccursAt(s, Reference(sigil, t.names[f]), p)
    {
      if OccursAt(s, Reference(sigil, t.names[f]), p) {
        StartsWithSigil(s, sigil, t.names[f], p);
        assert false;
      }
    }
  }

  // ---- the code --------------------------------------------------------------------------------

  method Strstr(s: string, pat: string) returns (p: Option<nat>)
    ensures p == Find(s, pat)
  {
    var i := 0;
    while i + |pat| <= |s|
      invariant forall q :: 0 <= q < i ==> !OccursAt(s, pat, q)
      invariant Find(s, pat) == FindFrom(s, pat, i)
    {
      if s[i..i + |pat|] == pat {
        return Some(i);
      }
      i := i + 1;
    }
    return None;
  }

  // EXPAND_STRING2
  method Expand(t: Table, s: string, f: nat) returns (r: string, changed: bool)
    requires Whole(t) && f < |t.names| && Macro(t, s, f).Turn?
    ensures Macro(t, s, f) == Turn(r, changed)
  {
    var dollar := Reference('$', t.names[f]);
    var start := Strstr(s, dollar);
    if start.Some? {
      return s[..start.value] + t.dirs[f][t.offset..] + s[start.value + |dollar|..], true;
    }
    var at := Reference('@', t.names[f]);
    start := Strstr(s, at);
    if start.Some? {
      return s[..start.value] + t.dirs[f][t.offset..] + s[start.value + |at|..], true;
    }
    return s, false;
  }

  // The body of the loop: the macros for all fields, one after the other.
  method ExpandAll(t: Table, s: string) returns (retval: string, changed: bool)
    requires Whole(t) && Pass(t, s).Turn?
    ensures Pass(t, s) == Turn(retval, changed)
  {
    retval, changed := s, false;
    for f := 0 to |t.names|
      invariant PassUpTo(t, s, f) == Turn(retval, changed)
    {
      PassDefined(t, s, f + 1, |t.names|);
      var hit;
      retval, hit := Expand(t, retval, f);
      changed := changed || hit;
    }
  }

  // The body of dsched_dinstall_dirs_expand_internal before the DESTDIR is prefixed, for every string
  // on which its loop ends.
  method Rewrite(t: Table, input: string) returns (retval: string)
    requires Whole(t) && Stops(t, input)
    ensures Ends(t, input, retval) && NoReference(t, retval, |t.names|)
  {
    var needsExpand := false;
    for i := 0 to |input|
      invariant !needsExpand && forall k :: 0 <= k < i ==> !Sigil(input[k])
    {
      if input[i] == '$' || input[i] == '@' {
        needsExpand := true;
        break;
      }
    }
    retval := input;
    if needsExpand {
      ghost var end: string, last: nat :| After(t, input, last) == Turn(end, false);
      ghost var k := 0;
      var changed := true;
      while changed
        invariant k <= last && After(t, input, k) == Turn(retval, changed)
        invariant !changed ==> NoReference(t, retval, |t.names|)
        decreases last - k, if changed then 1 else 0
      {
        StillToGo(t, input, k, last);
        UnchangedPass(t, retval, |t.names|);
        retval, changed := ExpandAll(t, retval);
        k := k + 1;
      }
    } else {
      NoSigilNoReference(t, input);
      UnchangedPass(t, input, |t.names|);
      assert After(t, input, 0) == Turn(input, true);
      assert After(t, input, 1) == Turn(input, false);
    }
  }

  // As long as the loop has changed something it is not over, and its next turn is defined.
  lemma StillToGo(t: Table, s: string, k: nat, last: nat)
    requires Whole(t) && k <= last && After(t, s, k).Turn? && After(t, s, k).changed
    requires After(t, s, last).Turn? && !After(t, s, last).changed
    ensures k < last && Pass(t, After(t, s, k).text).Turn?
    ensures After(t, s, k + 1) == Pass(t, After(t, s, k).text)
  {
    if After(t, s, k + 1).Undefined? {
      AfterStays(t, s, k + 1, last);
    }
  }
}
