// The text of an installation directory, read as tokens: plain characters, references to known
// fields, and references to unknown names. Substituting field values into the tokens is the
// meaning that the string rewriting in dinstalldirs_base_expand.c must have.
module InstallTokens {

  datatype Token =
    | Lit(c: char)
    | Ref(sigil: char, f: nat)
    | Unknown(sigil: char, name: string)

  type Tokens = seq<Token>

  predicate Sigil(c: char) { c == '$' || c == '@' }

  predicate PlainName(name: string) {
    forall i :: 0 <= i < |name| ==> !Sigil(name[i]) && name[i] != '}'
  }

  // Names by which fields can be referred to: field f by names[f].
  ghost predicate GoodNames(names: seq<string>) {
    && (forall f :: 0 <= f < |names| ==> PlainName(names[f]))
    && (forall f, g :: 0 <= f < g < |names| ==> names[f] != names[g])
  }

  function Reference(sigil: char, name: string): string { [sigil, '{'] + name + ['}'] }

  function TokenText(names: seq<string>, t: Token): string
    requires t.Ref? ==> t.f < |names|
  {
    match t
    case Lit(c) => [c]
    case Ref(sigil, f) => Reference(sigil, names[f])
    case Unknown(sigil, name) => Reference(sigil, name)
  }

  predicate TokenOk(names: seq<string>, t: Token) {
    match t
    case Lit(_) => true
    case Ref(sigil, f) => Sigil(sigil) && f < |names|
    case Unknown(sigil, name) => Sigil(sigil) && PlainName(name) && name !in names
  }

  // A sigil that starts no reference is followed by a plain character other than a brace.
  predicate HarmlessAt(toks: Tokens, i: nat)
    requires i < |toks|
  {
    toks[i].Lit? && Sigil(toks[i].c) ==>
      i + 1 < |toks| && toks[i + 1].Lit? && toks[i + 1].c != '{'
  }

  ghost predicate WellFormed(names: seq<string>, toks: Tokens) {
    forall i :: 0 <= i < |toks| ==> TokenOk(names, toks[i]) && HarmlessAt(toks, i)
  }

  function Text(names: seq<string>, toks: Tokens): string
    requires forall i :: 0 <= i < |toks| ==> TokenOk(names, toks[i])
  {
    if toks == [] then ""
    else
      assert TokenOk(names, toks[0]);
      TokenText(names, toks[0]) + Text(names, toks[1..])
  }

  lemma {:induction false} TextConcat(names: seq<string>, a: Tokens, b: Tokens)
    requires forall i :: 0 <= i < |a| ==> TokenOk(names, a[i])
    requires forall i :: 0 <= i < |b| ==> TokenOk(names, b[i])
    ensures Text(names, a + b) == Text(names, a) + Text(names, b)
  {
    if a == [] {
      assert a + b == b;
    } else {
      assert (a + b)[1..] == a[1..] + b;
      TextConcat(names, a[1..], b);
    }
  }

  // ---- Where a reference occurs in the text ----

  predicate OccursAt(s: string, pat: string, p: nat) {
    p + |pat| <= |s| && s[p..p + |pat|] == pat
  }

  // Two bracketed names that start the same text are the same name.
  lemma {:induction false} SameName(a: string, b: string, rest: string)
    requires PlainName(a) && PlainName(b)
    requires |a| + 1 <= |b + ['}'] + rest| && (b + ['}'] + rest)[..|a| + 1] == a + ['}']
    ensures a == b
  {
    var s := b + ['}'] + rest;
    assert forall k :: 0 <= k <= |a| ==> s[k] == s[..|a| + 1][k] == (a + ['}'])[k];
    assert s[|b|] == '}' && forall k :: 0 <= k < |b| ==> s[k] == b[k];
    if |b| < |a| {
      assert false;
    }
    assert s[|a|] == '}';
    if |a| < |b| {
      assert false;
    }
  }

  // A reference to field f read at the start of the text is the first token.
  lemma ReferenceAtStart(names: seq<string>, toks: Tokens, sigil: char, f: nat)
    requires GoodNames(names) && WellFormed(names, toks) && toks != []
    requires Sigil(sigil) && f < |names|
    requires OccursAt(Text(names, toks), Reference(sigil, names[f]), 0)
    ensures toks[0] == Ref(sigil, f)
  {
    var s, pat, rest := Text(names, toks), Reference(sigil, names[f]), Text(names, toks[1..]);
    assert s[0] == pat[0] && s[1] == pat[1] by {
      assert s[..|pat|] == pat;
    }
    assert HarmlessAt(toks, 0) && TokenOk(names, toks[0]);
    match toks[0]
    case Lit(c) => assert false;
    case Ref(sg, g) =>
      NameAtStart(sg, names[g], sigil, names[f], rest);
    case Unknown(sg, name) =>
      NameAtStart(sg, name, sigil, names[f], rest);
      assert false;
  }

  lemma NameAtStart(sg: char, name: string, sigil: char, wanted: string, rest: string)
    requires PlainName(name) && PlainName(wanted)
    requires OccursAt(Reference(sg, name) + rest, Reference(sigil, wanted), 0)
    ensures sg == sigil && name == wanted
  {
    var s, pat := Reference(sg, name) + rest, Reference(sigil, wanted);
    assert s[..|pat|] == pat;
    assert s[0] == pat[0];
    assert s[2..] == name + ['}'] + rest;
    assert s[2..][..|wanted| + 1] == s[..|pat|][2..];
    assert pat[2..] == wanted + ['}'];
    SameName(wanted, name, rest);
  }

  // No reference starts inside another token.
  lemma NothingInside(names: seq<string>, t: Token, p: nat)
    requires GoodNames(names) && TokenOk(names, t) && 0 < p < |TokenText(names, t)|
    ensures !Sigil(TokenText(names, t)[p])
  {
  }

  // A reference that occurs past the first token occurs in the text of the others.
  lemma OccurrenceInRest(head: string, rest: string, pat: string, p: nat)
    requires OccursAt(head + rest, pat, p) && |head| <= p
    ensures OccursAt(rest, pat, p - |head|)
  {
    assert rest[p - |head|..p - |head| + |pat|] == (head + rest)[p..p + |pat|];
  }

  lemma OccurrenceNotInside(names: seq<string>, toks: Tokens, sigil: char, f: nat, p: nat)
    requires GoodNames(names) && WellFormed(names, toks) && Sigil(sigil) && f < |names| && toks != []
    requires OccursAt(Text(names, toks), Reference(sigil, names[f]), p) && p > 0
    ensures |TokenText(names, toks[0])| <= p
  {
    var s, pat := Text(names, toks), Reference(sigil, names[f]);
    assert s[p..p + |pat|][0] == s[p] == sigil;
    if p < |TokenText(names, toks[0])| {
      NothingInside(names, toks[0], p);
      assert false;
    }
  }

  // References occur in the text exactly where the tokens have them.
  lemma {:induction false} OccurrenceIsToken(names: seq<string>, toks: Tokens, sigil: char, f: nat, p: nat)
      returns (i: nat)
    requires GoodNames(names) && WellFormed(names, toks) && Sigil(sigil) && f < |names|
    requires OccursAt(Text(names, toks), Reference(sigil, names[f]), p)
    ensures i < |toks| && toks[i] == Ref(sigil, f)
    ensures p == |Text(names, toks[..i])|
  {
    assert toks != [];
    if p == 0 {
      ReferenceAtStart(names, toks, sigil, f);
      i := 0;
    } else {
      var head := TokenText(names, toks[0]);
      OccurrenceNotInside(names, toks, sigil, f, p);
      OccurrenceInRest(head, Text(names, toks[1..]), Reference(sigil, names[f]), p);
      TailWellFormed(names, toks);
      var j := OccurrenceIsToken(names, toks[1..], sigil, f, p - |head|);
      i := j + 1;
      assert toks[..i][1..] == toks[1..][..j];
    }
  }

  lemma TailWellFormed(names: seq<string>, toks: Tokens)
    requires WellFormed(names, toks) && toks != []
    ensures WellFormed(names, toks[1..])
  {
    forall i | 0 <= i < |toks[1..]|
      ensures TokenOk(names, toks[1..][i]) && HarmlessAt(toks[1..], i)
    {
      assert HarmlessAt(toks, i + 1);
    }
  }

  // A token that is a reference does occur in the text.
  lemma TokenOccurs(names: seq<string>, toks: Tokens, i: nat)
    requires WellFormed(names, toks) && i < |toks| && toks[i].Ref?
    ensures OccursAt(Text(names, toks), Reference(toks[i].sigil, names[toks[i].f]), |Text(names, toks[..i])|)
  {
    SplitText(names, toks, i);
  }

  lemma SplitText(names: seq<string>, toks: Tokens, i: nat)
    requires WellFormed(names, toks) && i < |toks|
    ensures Text(names, toks) == Text(names, toks[..i]) + TokenText(names, toks[i]) + Text(names, toks[i + 1..])
  {
    assert toks == toks[..i] + toks[i..];
    TextConcat(names, toks[..i], toks[i..]);
    assert toks[i..][1..] == toks[i + 1..];
  }

  // ---- Substitution ----

  // Field f has the value env[f]; the rank of a field exceeds that of every field it refers to.
  ghost predicate Ranked(names: seq<string>, env: seq<Tokens>, rank: seq<nat>) {
    && |env| == |names| == |rank|
    && (forall f :: 0 <= f < |env| ==> WellFormed(names, env[f]))
    && (forall f :: 0 <= f < |env| ==> RefsBelow(names, rank, env[f], rank[f]))
  }

  ghost predicate RefsBelow(names: seq<string>, rank: seq<nat>, toks: Tokens, b: nat) {
    && |rank| == |names|
    && (forall i :: 0 <= i < |toks| ==> TokenOk(names, toks[i]))
    && (forall i :: 0 <= i < |toks| && toks[i].Ref? ==> rank[toks[i].f] < b)
  }

  predicate NoRefs(toks: Tokens) {
    forall i :: 0 <= i < |toks| ==> !toks[i].Ref?
  }

  // Every reference replaced by the full expansion of its field, all at once.
  ghost function Full(names: seq<string>, env: seq<Tokens>, rank: seq<nat>, toks: Tokens, b: nat): (r: Tokens)
    requires Ranked(names, env, rank) && RefsBelow(names, rank, toks, b)
    ensures NoRefs(r) && forall i :: 0 <= i < |r| ==> TokenOk(names, r[i])
    decreases b, |toks|
  {
    if toks == [] then []
    else
      var rest := Full(names, env, rank, toks[1..], b);
      if toks[0].Ref? then Full(names, env, rank, env[toks[0].f], rank[toks[0].f]) + rest
      else [toks[0]] + rest
  }

  // The number of replacements that a full expansion takes.
  ghost function Work(names: seq<string>, env: seq<Tokens>, rank: seq<nat>, toks: Tokens, b: nat): nat
    requires Ranked(names, env, rank) && RefsBelow(names, rank, toks, b)
    decreases b, |toks|
  {
    if toks == [] then 0
    else
      var rest := Work(names, env, rank, toks[1..], b);
      if toks[0].Ref? then 1 + Work(names, env, rank, env[toks[0].f], rank[toks[0].f]) + rest
      else rest
  }

  lemma {:induction false} BoundIrrelevant(names: seq<string>, env: seq<Tokens>, rank: seq<nat>, toks: Tokens, b: nat,
      b': nat)
    requires Ranked(names, env, rank) && RefsBelow(names, rank, toks, b) && RefsBelow(names, rank, toks, b')
    ensures Full(names, env, rank, toks, b) == Full(names, env, rank, toks, b')
    ensures Work(names, env, rank, toks, b) == Work(names, env, rank, toks, b')
  {
    if toks != [] {
      BoundIrrelevant(names, env, rank, toks[1..], b, b');
    }
  }

  lemma {:induction false} FullConcat(names: seq<string>, env: seq<Tokens>, rank: seq<nat>, x: Tokens, y: Tokens,
      b: nat)
    requires Ranked(names, env, rank) && RefsBelow(names, rank, x, b) && RefsBelow(names, rank, y, b)
    ensures RefsBelow(names, rank, x + y, b)
    ensures Full(names, env, rank, x + y, b) == Full(names, env, rank, x, b) + Full(names, env, rank, y, b)
    ensures Work(names, env, rank, x + y, b) == Work(names, env, rank, x, b) + Work(names, env, rank, y, b)
  {
    if x == [] {
      assert x + y == y;
    } else {
      assert (x + y)[1..] == x[1..] + y;
      FullConcat(names, env, rank, x[1..], y, b);
    }
  }

  // Replacing one reference by its field's value.
  function Replace(toks: Tokens, i: nat, v: Tokens): Tokens
    requires i < |toks|
  {
    toks[..i] + v + toks[i + 1..]
  }

  lemma ReplaceWellFormed(names: seq<string>, toks: Tokens, i: nat, v: Tokens)
    requires WellFormed(names, toks) && WellFormed(names, v) && i < |toks| && toks[i].Ref?
    ensures WellFormed(names, Replace(toks, i, v))
    ensures Text(names, Replace(toks, i, v)) == Text(names, toks[..i]) + Text(names, v) + Text(names, toks[i + 1..])
  {
    var r := Replace(toks, i, v);
    forall k | 0 <= k < |r|
      ensures TokenOk(names, r[k]) && HarmlessAt(r, k)
    {
      if k < i {
        assert HarmlessAt(toks, k);
      } else if k < i + |v| {
        assert HarmlessAt(v, k - i);
      } else {
        assert HarmlessAt(toks, k - |v| + 1);
      }
    }
    TextConcat(names, toks[..i] + v, toks[i + 1..]);
    TextConcat(names, toks[..i], v);
  }

  // One replacement does not change the full expansion and leaves one less to do.
  lemma ReplaceKeepsFull(names: seq<string>, env: seq<Tokens>, rank: seq<nat>, toks: Tokens, b: nat, i: nat)
    requires Ranked(names, env, rank) && RefsBelow(names, rank, toks, b)
    requires i < |toks| && toks[i].Ref?
    ensures var r := Replace(toks, i, env[toks[i].f]);
      && RefsBelow(names, rank, r, b)
      && Full(names, env, rank, r, b) == Full(names, env, rank, toks, b)
      && Work(names, env, rank, r, b) + 1 == Work(names, env, rank, toks, b)
  {
    var f := toks[i].f;
    var v := env[f];
    var x, y := toks[..i], toks[i + 1..];
    assert RefsBelow(names, rank, v, rank[f]);
    FullConcat(names, env, rank, x + v, y, b);
    FullConcat(names, env, rank, x, v, b);
    BoundIrrelevant(names, env, rank, v, b, rank[f]);
    assert toks == x + ([toks[i]] + y);
    FullOfRef(names, env, rank, toks[i], y, b);
    FullConcat(names, env, rank, x, [toks[i]] + y, b);
  }

  lemma FullOfRef(names: seq<string>, env: seq<Tokens>, rank: seq<nat>, t: Token, y: Tokens, b: nat)
    requires Ranked(names, env, rank) && t.Ref? && TokenOk(names, t) && rank[t.f] < b && RefsBelow(names, rank, y, b)
    ensures RefsBelow(names, rank, [t] + y, b) && RefsBelow(names, rank, env[t.f], rank[t.f])
    ensures Full(names, env, rank, [t] + y, b)
         == Full(names, env, rank, env[t.f], rank[t.f]) + Full(names, env, rank, y, b)
    ensures Work(names, env, rank, [t] + y, b)
         == 1 + Work(names, env, rank, env[t.f], rank[t.f]) + Work(names, env, rank, y, b)
  {
    assert ([t] + y)[1..] == y;
  }

  // Tokens without references are their own expansion.
  lemma {:induction false} FullOfPlain(names: seq<string>, env: seq<Tokens>, rank: seq<nat>, toks: Tokens, b: nat)
    requires Ranked(names, env, rank) && RefsBelow(names, rank, toks, b) && NoRefs(toks)
    ensures Full(names, env, rank, toks, b) == toks
  {
    if toks != [] {
      FullOfPlain(names, env, rank, toks[1..], b);
      assert toks == [toks[0]] + toks[1..];
    }
  }

  // A full expansion is well-formed text.
  lemma {:induction false} FullWellFormed(names: seq<string>, env: seq<Tokens>, rank: seq<nat>, toks: Tokens, b: nat)
    requires Ranked(names, env, rank) && RefsBelow(names, rank, toks, b) && WellFormed(names, toks)
    ensures WellFormed(names, Full(names, env, rank, toks, b))
    decreases b, |toks|
  {
    if toks != [] {
      TailWellFormed(names, toks);
      FullWellFormed(names, env, rank, toks[1..], b);
      var rest := Full(names, env, rank, toks[1..], b);
      if toks[0].Ref? {
        var f := toks[0].f;
        FullWellFormed(names, env, rank, env[f], rank[f]);
        JoinWellFormed(names, Full(names, env, rank, env[f], rank[f]), rest);
      } else {
        assert HarmlessAt(toks, 0);
        FirstKept(names, env, rank, toks[1..], b);
        var r := [toks[0]] + rest;
        forall k | 0 <= k < |r|
          ensures TokenOk(names, r[k]) && HarmlessAt(r, k)
        {
          if k > 0 {
            assert HarmlessAt(rest, k - 1);
          }
        }
      }
    }
  }

  lemma FirstKept(names: seq<string>, env: seq<Tokens>, rank: seq<nat>, toks: Tokens, b: nat)
    requires Ranked(names, env, rank) && RefsBelow(names, rank, toks, b)
    ensures toks != [] && !toks[0].Ref? ==>
      Full(names, env, rank, toks, b) != [] && Full(names, env, rank, toks, b)[0] == toks[0]
  {
  }

  lemma JoinWellFormed(names: seq<string>, x: Tokens, y: Tokens)
    requires WellFormed(names, x) && WellFormed(names, y)
    ensures WellFormed(names, x + y)
  {
    forall k | 0 <= k < |x + y|
      ensures TokenOk(names, (x + y)[k]) && HarmlessAt(x + y, k)
    {
      if k < |x| {
        assert HarmlessAt(x, k);
      } else {
        assert HarmlessAt(y, k - |x|);
      }
    }
  }

  // ---- Reading a string as tokens ----

  // A bracketed name that the text starts with is the first token.
  lemma BracketAtStart(names: seq<string>, toks: Tokens, sigil: char, name: string)
    requires GoodNames(names) && WellFormed(names, toks) && toks != [] && Sigil(sigil) && PlainName(name)
    requires OccursAt(Text(names, toks), Reference(sigil, name), 0)
    ensures !toks[0].Lit? && TokenText(names, toks[0]) == Reference(sigil, name)
  {
    var s, pat, rest := Text(names, toks), Reference(sigil, name), Text(names, toks[1..]);
    assert s[0] == pat[0] && s[1] == pat[1] by {
      assert s[..|pat|] == pat;
    }
    assert HarmlessAt(toks, 0) && TokenOk(names, toks[0]);
    match toks[0]
    case Lit(_) => assert false;
    case Ref(sg, g) => NameAtStart(sg, names[g], sigil, name, rest);
    case Unknown(sg, other) => NameAtStart(sg, other, sigil, name, rest);
  }

  function NameOf(names: seq<string>, t: Token): string
    requires !t.Lit? && TokenOk(names, t)
  {
    if t.Ref? then names[t.f] else t.name
  }

  // Tokens with the same bracketed text are the same token.
  lemma SameBracket(names: seq<string>, s: Token, t: Token)
    requires GoodNames(names) && TokenOk(names, s) && TokenOk(names, t) && !s.Lit? && !t.Lit?
    requires TokenText(names, s) == TokenText(names, t)
    ensures s == t
  {
    NameAtStart(s.sigil, NameOf(names, s), t.sigil, NameOf(names, t), "");
    assert TokenText(names, s) + "" == TokenText(names, s);
  }

  lemma SameFirstToken(names: seq<string>, a: Tokens, b: Tokens)
    requires GoodNames(names) && WellFormed(names, a) && WellFormed(names, b) && a != [] && b != []
    requires Text(names, a) == Text(names, b)
    ensures a[0] == b[0]
  {
    assert TokenOk(names, a[0]) && TokenOk(names, b[0]);
    if !a[0].Lit? {
      assert OccursAt(Text(names, b), TokenText(names, a[0]), 0);
      BracketAtStart(names, b, a[0].sigil, NameOf(names, a[0]));
      SameBracket(names, a[0], b[0]);
    } else if !b[0].Lit? {
      assert OccursAt(Text(names, a), TokenText(names, b[0]), 0);
      BracketAtStart(names, a, b[0].sigil, NameOf(names, b[0]));
      assert false;
    } else {
      assert Text(names, a)[0] == a[0].c && Text(names, b)[0] == b[0].c;
    }
  }

  // Well-formed tokens with the same text are the same tokens.
  lemma {:induction false} UniqueTokens(names: seq<string>, a: Tokens, b: Tokens)
    requires GoodNames(names) && WellFormed(names, a) && WellFormed(names, b)
    requires Text(names, a) == Text(names, b)
    ensures a == b
  {
    if a != [] && b != [] {
      SameFirstToken(names, a, b);
      TailWellFormed(names, a);
      TailWellFormed(names, b);
      var k := |TokenText(names, a[0])|;
      assert Text(names, a[1..]) == Text(names, a)[k..] == Text(names, b)[k..] == Text(names, b[1..]);
      UniqueTokens(names, a[1..], b[1..]);
      assert a == [a[0]] + a[1..] && b == [b[0]] + b[1..];
    }
  }
}
