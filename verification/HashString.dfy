// The string hash of dsched_hash_string.h. A uint32_t is a number below 2^32; sums and left shifts
// wrap, and exclusive or works bit by bit.
//
// The hash is a chain of steps that can all be undone. That shows that a common suffix never hides
// a difference, and that one changed character always changes the hash.
module HashString {
  import opened Powers

  const TWO_TO_THE_32: nat := 0x1_0000_0000

  type Word = n: nat | n < TWO_TO_THE_32

  type Byte = n: nat | n < 0x100

  function Add(a: Word, b: Word): Word {
    (a + b) % TWO_TO_THE_32
  }

  // a << n, for factor == 2^n.
  function Shl(a: Word, factor: nat): Word {
    a * factor % TWO_TO_THE_32
  }

  // a >> n
  function Shr(a: nat, n: nat): (r: nat)
    ensures r <= a && (a > 0 && n > 0 ==> r < a)
  {
    if n == 0 then a else Shr(a / 2, n - 1)
  }

  // a ^ b on numbers of any size.
  function XorBits(a: nat, b: nat): nat {
    if a == 0 then b
    else if b == 0 then a
    else 2 * XorBits(a / 2, b / 2) + (a + b) % 2
  }

  function Xor(a: Word, b: Word): Word {
    Pow2Of32();
    XorFits(a, b, 32);
    XorBits(a, b)
  }

  lemma Pow2Of32()
    ensures Pow2(32) == TWO_TO_THE_32
  {
    assert Pow2(6) == 64;
    assert Pow2(12) == 4096;
    assert Pow2(18) == 0x4_0000;
    assert Pow2(24) == 0x100_0000;
    assert Pow2(30) == 0x4000_0000;
  }

  lemma {:induction false} XorFits(a: nat, b: nat, n: nat)
    requires a < Pow2(n) && b < Pow2(n)
    ensures XorBits(a, b) < Pow2(n)
  {
    if a > 0 && b > 0 {
      XorFits(a / 2, b / 2, n - 1);
    }
  }

  // ---- the hash --------------------------------------------------------------------------------

  // The value that a char is added as. Whether char is signed is up to the C implementation; a
  // signed one is extended to 32 bits.
  function Extend(signed: bool, c: Byte): Word {
    if signed && c >= 0x80 then c + 0xFFFF_FF00 else c
  }

  // One turn of the loop, once the character has been added.
  function Mix(a: Word): Word {
    var b := Add(a, Shl(a, 0x400));
    Xor(b, Shr(b, 6))
  }

  // What follows the loop.
  function Finish(h: Word): Word {
    var a := Add(h, Shl(h, 0x8));
    var b := Xor(a, Shr(a, 11));
    Add(b, Shl(b, 0x8000))
  }

  // A loop over s that starts in state h.
  function Fold<H, X>(step: (H, X) -> H, h: H, s: seq<X>): H {
    if s == [] then h
    else step(Fold(step, h, s[..|s| - 1]), s[|s| - 1])
  }

  function Step(signed: bool): (Word, Byte) -> Word {
    (h, c) => Mix(Add(h, Extend(signed, c)))
  }

  // The value of _hash after the characters of s.
  function State(signed: bool, s: seq<Byte>): Word {
    Fold(Step(signed), 0, s)
  }

  function Hash(signed: bool, s: seq<Byte>): Word {
    Finish(State(signed, s))
  }

  // ---- the macros ------------------------------------------------------------------------------

  // The C string at the front of a buffer: everything before the first NUL.
  function CString(buffer: seq<Byte>): (s: seq<Byte>)
    ensures s <= buffer && 0 !in s
    ensures 0 in buffer ==> |s| < |buffer| && buffer[|s|] == 0
    ensures 0 !in buffer ==> s == buffer
  {
    if buffer == [] || buffer[0] == 0 then []
    else [buffer[0]] + CString(buffer[1..])
  }

  lemma Successor(i: nat)
    ensures Add(i % TWO_TO_THE_32, 1) == (i + 1) % TWO_TO_THE_32
  {
  }

  // DSCHED_HASH_STRLEN. The length is a uint32_t too.
  method HashStrlen(signed: bool, str: array<Byte>) returns (hash: Word, length: Word)
    requires 0 in str[..]
    ensures hash == Hash(signed, CString(str[..]))
    ensures length == |CString(str[..])| % TWO_TO_THE_32
  {
    ghost var s := CString(str[..]);
    hash, length := 0, 0;
    var i := 0;
    while str[i] != 0
      invariant 0 <= i <= |s|
      invariant hash == State(signed, s[..i]) && length == i % TWO_TO_THE_32
      decreases |s| - i
    {
      Successor(i);
      length := Add(length, 1);
      FoldAppend(Step(signed), 0, s[..i], s[i]);
      assert s[..i] + [s[i]] == s[..i + 1];
      hash := Add(hash, Extend(signed, str[i]));
      i := i + 1;
      hash := Add(hash, Shl(hash, 0x400));
      hash := Xor(hash, Shr(hash, 6));
    }
    assert s[..i] == s;
    hash := Add(hash, Shl(hash, 0x8));
    hash := Xor(hash, Shr(hash, 11));
    hash := Add(hash, Shl(hash, 0x8000));
  }

  // DSCHED_HASH_STR: the same hash, without the length.
  method HashStr(signed: bool, str: array<Byte>) returns (hash: Word)
    requires 0 in str[..]
    ensures hash == Hash(signed, CString(str[..]))
  {
    ghost var s := CString(str[..]);
    hash := 0;
    var i := 0;
    while str[i] != 0
      invariant 0 <= i <= |s|
      invariant hash == State(signed, s[..i])
      decreases |s| - i
    {
      FoldAppend(Step(signed), 0, s[..i], s[i]);
      assert s[..i] + [s[i]] == s[..i + 1];
      hash := Add(hash, Extend(signed, str[i]));
      i := i + 1;
      hash := Add(hash, Shl(hash, 0x400));
      hash := Xor(hash, Shr(hash, 6));
    }
    assert s[..i] == s;
    hash := Add(hash, Shl(hash, 0x8));
    hash := Xor(hash, Shr(hash, 11));
    hash := Add(hash, Shl(hash, 0x8000));
  }

  // ---- every step can be undone ----------------------------------------------------------------

  // x + (x << k) is multiplication by an odd number, which has an inverse modulo 2^32.
  lemma AddShlInjective(a: Word, b: Word, factor: nat)
    requires factor == 0x8 || factor == 0x400 || factor == 0x8000
    requires Add(a, Shl(a, factor)) == Add(b, Shl(b, factor))
    ensures a == b
  {
    if factor == 0x8 {
      Times9(a);
      Times9(b);
    } else if factor == 0x400 {
      Times1025(a);
      Times1025(b);
    } else {
      Times32769(a);
      Times32769(b);
    }
  }

  // The multiples of 2^32 that a + (a << k) drops.
  lemma Dropped(a: Word, factor: nat) returns (q: nat)
    requires factor == 0x8 || factor == 0x400 || factor == 0x8000
    ensures Add(a, Shl(a, factor)) == a * factor + a - TWO_TO_THE_32 * q
  {
    q := a * factor / TWO_TO_THE_32 + (a + Shl(a, factor)) / TWO_TO_THE_32;
  }

  lemma Remainder(x: int, q: int, r: Word)
    requires x == TWO_TO_THE_32 * q + r
    ensures x % TWO_TO_THE_32 == r
  {
  }

  lemma Times9(a: Word)
    ensures Add(a, Shl(a, 0x8)) * 0x38E3_8E39 % TWO_TO_THE_32 == a
  {
    var q := Dropped(a, 0x8);
    Remainder(Add(a, Shl(a, 0x8)) * 0x38E3_8E39, 2 * a - 0x38E3_8E39 * q, a);
  }

  lemma Times1025(a: Word)
    ensures Add(a, Shl(a, 0x400)) * 0xC00F_FC01 % TWO_TO_THE_32 == a
  {
    var q := Dropped(a, 0x400);
    Remainder(Add(a, Shl(a, 0x400)) * 0xC00F_FC01, 769 * a - 0xC00F_FC01 * q, a);
  }

  lemma Times32769(a: Word)
    ensures Add(a, Shl(a, 0x8000)) * 0x3FFF_8001 % TWO_TO_THE_32 == a
  {
    var q := Dropped(a, 0x8000);
    Remainder(Add(a, Shl(a, 0x8000)) * 0x3FFF_8001, 8192 * a - 0x3FFF_8001 * q, a);
  }

  // Shifting right distributes over exclusive or.
  lemma {:induction false} ShrXor(a: nat, b: nat, n: nat)
    ensures Shr(XorBits(a, b), n) == XorBits(Shr(a, n), Shr(b, n))
    decreases n
  {
    if n > 0 {
      assert XorBits(a, b) / 2 == XorBits(a / 2, b / 2);
      ShrXor(a / 2, b / 2, n - 1);
    }
  }

  lemma LowBit(a: nat, b: nat)
    ensures XorBits(a, b) % 2 == 1 <==> a % 2 != b % 2
  {
    Parity(a, b);
  }

  // Bit k of the exclusive or is set when the bits k differ.
  lemma {:induction false} XorIsBitwise(a: nat, b: nat, k: nat)
    ensures Shr(XorBits(a, b), k) % 2 == 1 <==> Shr(a, k) % 2 != Shr(b, k) % 2
  {
    ShrXor(a, b, k);
    LowBit(Shr(a, k), Shr(b, k));
  }

  // A right shift divides by a power of two, without remainder.
  lemma {:induction false} ShrDivides(a: nat, n: nat)
    ensures Shr(a, n) == a / Pow2(n)
    decreases n
  {
    if n > 0 {
      ShrDivides(a / 2, n - 1);
      DivideTwice(a, Pow2(n - 1));
    }
  }

  lemma DivideTwice(a: nat, p: nat)
    requires p > 0
    ensures a / 2 / p == a / (2 * p)
  {
    var q := a / 2 / p;
    assert a / 2 == q * p + a / 2 % p;
    var r := 2 * (a / 2 % p) + a % 2;
    assert a == q * (2 * p) + r && 0 <= r < 2 * p;
    Quotient(a, 2 * p, q, r);
  }

  lemma Quotient(a: nat, d: nat, q: nat, r: nat)
    requires d > 0 && a == q * d + r && r < d
    ensures a / d == q
  {
    var e := a / d - q;
    assert e * d == r - a % d by {
      assert a == a / d * d + a % d;
      assert a / d * d - q * d == e * d;
    }
    Between(e, d, r - a % d);
  }

  lemma Between(e: int, d: int, x: int)
    requires e * d == x && -d < x < d
    ensures e == 0
  {
  }

  lemma {:induction false} ShrShr(a: nat, n: nat, k: nat)
    ensures Shr(Shr(a, n), k) == Shr(a, k + n)
    decreases n
  {
    if n > 0 {
      ShrShr(a / 2, n - 1, k);
      ShrHalf(a, k + n - 1);
    }
  }

  lemma {:induction false} ShrHalf(a: nat, n: nat)
    ensures Shr(a / 2, n) == Shr(a, n + 1)
  {
  }

  // Bit k of a number.
  predicate BitOf(a: nat, k: nat) {
    a / Pow2(k) % 2 == 1
  }

  // Bit k of x ^ (x >> n).
  lemma {:induction false} BitOfXorShr(x: nat, n: nat, k: nat)
    ensures BitOf(XorBits(x, Shr(x, n)), k) <==> BitOf(x, k) != BitOf(x, k + n)
  {
    XorIsBitwise(x, Shr(x, n), k);
    ShrShr(x, n, k);
    ShrDivides(XorBits(x, Shr(x, n)), k);
    ShrDivides(x, k);
    ShrDivides(x, k + n);
  }

  lemma TimesOdd(a: Word, factor: nat, x: Word)
    requires factor == 0x8 || factor == 0x400 || factor == 0x8000
    requires x == Add(a, Shl(a, factor))
    ensures x == a * (factor + 1) % 0x1_0000_0000
  {
    var q := Dropped(a, factor);
    Remainder(a * (factor + 1), q, x);
  }

  // A turn of the loop multiplies by 1025 and then adds to every bit the bit 6 places higher, without
  // carry.
  lemma {:induction false} MixBits(a: Word, k: nat)
    ensures var b := a * 1025 % 0x1_0000_0000;
            BitOf(Mix(a), k) <==> BitOf(b, k) != BitOf(b, k + 6)
  {
    var b := Add(a, Shl(a, 0x400));
    TimesOdd(a, 0x400, b);
    BitOfXorShr(b, 6, k);
  }

  // What follows multiplies by 9, adds to every bit the bit 11 places higher, and multiplies by 32769.
  lemma {:induction false} FinishBits(h: Word) returns (x: Word)
    ensures var a := h * 9 % 0x1_0000_0000;
            forall k: nat :: BitOf(x, k) <==> BitOf(a, k) != BitOf(a, k + 11)
    ensures Finish(h) == x * 32769 % 0x1_0000_0000
  {
    var a := Add(h, Shl(h, 0x8));
    TimesOdd(h, 0x8, a);
    x := Xor(a, Shr(a, 11));
    forall k: nat
      ensures BitOf(x, k) <==> BitOf(a, k) != BitOf(a, k + 11)
    {
      BitOfXorShr(a, 11, k);
    }
    TimesOdd(x, 0x8000, Finish(h));
  }

  // A char counts as the number that it is, a signed one from 128 on as that less 256.
  lemma ExtendIsSigned(signed: bool, c: Byte)
    ensures Extend(signed, c) == (if signed && c >= 128 then c - 256 else c) % 0x1_0000_0000
  {
  }

  lemma {:induction false} XorCancels(a: nat, b: nat, c: nat)
    requires XorBits(a, c) == XorBits(b, c)
    ensures a == b
    decreases a + b + c
  {
    if c > 0 {
      Parity(a, c);
      Parity(b, c);
      XorCancels(a / 2, b / 2, c / 2);
      SameHalves(a, b, c);
    }
  }

  lemma SameHalves(a: nat, b: nat, c: nat)
    requires a / 2 == b / 2 && (a + c) % 2 == (b + c) % 2
    ensures a == b
  {
  }

  lemma {:induction false} Parity(a: nat, b: nat)
    ensures XorBits(a, b) % 2 == (a + b) % 2 && XorBits(a, b) / 2 == XorBits(a / 2, b / 2)
  {
  }

  // The high bits of x ^ (x >> n) are those of x, and each tells the bit n places lower.
  lemma {:induction false} XorShrInjective(a: nat, b: nat, n: nat)
    requires n > 0 && XorBits(a, Shr(a, n)) == XorBits(b, Shr(b, n))
    ensures a == b
    decreases a + b
  {
    if a > 0 || b > 0 {
      ShrXor(a, Shr(a, n), n);
      ShrXor(b, Shr(b, n), n);
      XorShrInjective(Shr(a, n), Shr(b, n), n);
      XorCancels(a, b, Shr(a, n));
    }
  }

  lemma {:induction false} MixInjective(a: Word, b: Word)
    requires Mix(a) == Mix(b)
    ensures a == b
  {
    XorShrInjective(Add(a, Shl(a, 0x400)), Add(b, Shl(b, 0x400)), 6);
    AddShlInjective(a, b, 0x400);
  }

  lemma FinishInjective(g: Word, h: Word)
    requires Finish(g) == Finish(h)
    ensures g == h
  {
    var a, c := Add(g, Shl(g, 0x8)), Add(h, Shl(h, 0x8));
    AddShlInjective(Xor(a, Shr(a, 11)), Xor(c, Shr(c, 11)), 0x8000);
    XorShrInjective(a, c, 11);
    AddShlInjective(g, h, 0x8);
  }

  // ---- the theorems ----------------------------------------------------------------------------

  lemma FoldAppend<H, X>(step: (H, X) -> H, h: H, s: seq<X>, x: X)
    ensures Fold(step, h, s + [x]) == step(Fold(step, h, s), x)
  {
    assert (s + [x])[..|s|] == s;
  }

  // The state starts from 0, and each character is added to it and mixed in.
  lemma StateAppend(signed: bool, s: seq<Byte>, c: Byte)
    ensures State(signed, []) == 0
    ensures State(signed, s + [c]) == Mix((State(signed, s) + Extend(signed, c)) % 0x1_0000_0000)
  {
    FoldAppend(Step(signed), 0, s, c);
  }

  lemma SplitLast<X>(s: seq<X>, t: seq<X>)
    requires t != []
    ensures s + t == (s + t[..|t| - 1]) + [t[|t| - 1]]
  {
  }

  // If the step can be undone, so can a whole loop.
  lemma {:induction false} FoldInjective<H(!new), X(!new)>(step: (H, X) -> H, h: H, s: seq<X>, t: seq<X>,
      suffix: seq<X>)
    requires forall f, g, x :: step(f, x) == step(g, x) ==> f == g
    ensures Fold(step, h, s + suffix) == Fold(step, h, t + suffix) <==> Fold(step, h, s) == Fold(step, h, t)
    decreases |suffix|
  {
    if suffix == [] {
      assert s + suffix == s && t + suffix == t;
    } else {
      var front, x := suffix[..|suffix| - 1], suffix[|suffix| - 1];
      FoldInjective(step, h, s, t, front);
      FoldAppend(step, h, s + front, x);
      FoldAppend(step, h, t + front, x);
      SplitLast(s, suffix);
      SplitLast(t, suffix);
    }
  }

  lemma AddInjective(a: Word, b: Word, c: Word)
    requires Add(a, c) == Add(b, c) || Add(c, a) == Add(c, b)
    ensures a == b
  {
  }

  lemma StepInjective(signed: bool, g: Word, h: Word, c: Byte)
    requires Step(signed)(g, c) == Step(signed)(h, c)
    ensures g == h
  {
    MixInjective(Add(g, Extend(signed, c)), Add(h, Extend(signed, c)));
    AddInjective(g, h, Extend(signed, c));
  }

  lemma StepTellsCharacters(signed: bool, h: Word, c: Byte, d: Byte)
    requires Step(signed)(h, c) == Step(signed)(h, d)
    ensures c == d
  {
    MixInjective(Add(h, Extend(signed, c)), Add(h, Extend(signed, d)));
    AddInjective(Extend(signed, c), Extend(signed, d), h);
  }

  lemma HashesMeet(signed: bool, s: seq<Byte>, t: seq<Byte>)
    ensures Hash(signed, s) == Hash(signed, t) <==> State(signed, s) == State(signed, t)
  {
    if Hash(signed, s) == Hash(signed, t) {
      FinishInjective(State(signed, s), State(signed, t));
    }
  }

  // Two strings followed by the same suffix collide exactly when they collide themselves.
  lemma {:induction false} CommonSuffixCancels(signed: bool, s: seq<Byte>, t: seq<Byte>, suffix: seq<Byte>)
    ensures Hash(signed, s + suffix) == Hash(signed, t + suffix) <==> Hash(signed, s) == Hash(signed, t)
  {
    forall g, h, c | Step(signed)(g, c) == Step(signed)(h, c) ensures g == h {
      StepInjective(signed, g, h, c);
    }
    FoldInjective(Step(signed), 0, s, t, suffix);
    HashesMeet(signed, s + suffix, t + suffix);
    HashesMeet(signed, s, t);
  }

  // Strings of one length that agree everywhere but at i collide exactly when they agree there too.
  lemma {:induction false} OneChangedCharacter(signed: bool, s: seq<Byte>, t: seq<Byte>, i: nat)
    requires |s| == |t| && i < |s|
    requires forall j :: 0 <= j < |s| && j != i ==> s[j] == t[j]
    ensures Hash(signed, s) == Hash(signed, t) <==> s[i] == t[i]
  {
    if s[i] == t[i] {
      assert s == t;
    } else {
      var p, q := s[..i], s[i + 1..];
      assert s == (p + [s[i]]) + q && t == (p + [t[i]]) + q;
      CommonSuffixCancels(signed, p + [s[i]], p + [t[i]], q);
      LastCharacterTells(signed, p, s[i], t[i]);
    }
  }

  lemma LastCharacterTells(signed: bool, s: seq<Byte>, c: Byte, d: Byte)
    requires c != d
    ensures Hash(signed, s + [c]) != Hash(signed, s + [d])
  {
    FoldAppend(Step(signed), 0, s, c);
    FoldAppend(Step(signed), 0, s, d);
    HashesMeet(signed, s + [c], s + [d]);
    if State(signed, s + [c]) == State(signed, s + [d]) {
      StepTellsCharacters(signed, State(signed, s), c, d);
    }
  }

  // ---- a hash ----------------------------------------------------------------------------------

  lemma Halves(a: nat, b: nat)
    ensures XorBits(a, b) == 2 * XorBits(a / 2, b / 2) + (a + b) % 2
  {
    Parity(a, b);
  }

  lemma XorBit(x: nat, y: nat, a: nat, b: nat)
    requires a < 2 && b < 2
    ensures XorBits(2 * x + a, 2 * y + b) == 2 * XorBits(x, y) + (a + b) % 2
  {
    assert (2 * x + a) / 2 == x && (2 * y + b) / 2 == y;
    Halves(2 * x + a, 2 * y + b);
  }

  lemma FirstXor(x: Word, y: Word)
    requires x == 0x18461 && y == 0x611
    ensures Xor(x, y) == 0x18270
  {
    XorBit(0xC230, 0x308, 1, 1);
    XorBit(0x6118, 0x184, 0, 0);
    XorBit(0x308C, 0xC2, 0, 0);
    XorBit(0x1846, 0x61, 0, 0);
    XorBit(0xC23, 0x30, 0, 1);
    XorBit(0x611, 0x18, 1, 0);
    XorBit(0x308, 0xC, 1, 0);
    XorBit(0x184, 0x6, 0, 0);
    XorBit(0xC2, 0x3, 0, 0);
    XorBit(0x61, 0x1, 0, 1);
    XorBit(0x30, 0x0, 1, 1);
  }

  lemma LastXor(x: Word, y: Word)
    requires x == 0xD95F0 && y == 0x1B2
    ensures Xor(x, y) == 0xD9442
  {
    XorBit(0x6CAF8, 0xD9, 0, 0);
    XorBit(0x3657C, 0x6C, 0, 1);
    XorBit(0x1B2BE, 0x36, 0, 0);
    XorBit(0xD95F, 0x1B, 0, 0);
    XorBit(0x6CAF, 0xD, 1, 1);
    XorBit(0x3657, 0x6, 1, 1);
    XorBit(0x1B2B, 0x3, 1, 0);
    XorBit(0xD95, 0x1, 1, 1);
    XorBit(0x6CA, 0x0, 1, 1);
  }

  lemma ShiftBy(a: Word, n: nat)
    requires n == 6 || n == 11
    ensures Shr(a, n) == if n == 6 then a / 64 else a / 2048
  {
    ShrDivides(a, n);
    assert Pow2(6) == 64;
    assert Pow2(11) == 2048;
  }

  // One turn, and what follows the loop, by their intermediate values.
  lemma MixIs(a: Word, b: Word, c: Word)
    requires b == Add(a, Shl(a, 0x400)) && c == Shr(b, 6)
    ensures Mix(a) == Xor(b, c)
  {
  }

  lemma FinishIs(h: Word, a: Word, c: Word, x: Word)
    requires a == Add(h, Shl(h, 0x8)) && c == Shr(a, 11) && x == Xor(a, c)
    ensures Finish(h) == Add(x, Shl(x, 0x8000))
  {
  }

  lemma MultipleOf(a: Word, factor: nat, r: Word)
    requires factor == 0x8 || factor == 0x400 || factor == 0x8000
    requires r == a * (factor + 1) % 0x1_0000_0000
    ensures r == Add(a, Shl(a, factor))
  {
    TimesOdd(a, factor, Add(a, Shl(a, factor)));
  }

  lemma MixOf(a: Word, b: Word, c: Word)
    requires a == 0x61 && b == 0x18461 && c == 0x611
    ensures Mix(a) == 0x18270
  {
    MultipleOf(a, 0x400, b);
    ShiftBy(b, 6);
    FirstXor(b, c);
    MixIs(a, b, c);
  }

  lemma MultiplesOf(h: Word, a: Word, x: Word, r: Word)
    requires h == 0x18270 && a == 0xD95F0 && x == 0xD9442 && r == 0xCA2E_9442
    ensures a == Add(h, Shl(h, 0x8)) && r == Add(x, Shl(x, 0x8000))
  {
    MultipleOf(h, 0x8, a);
    MultipleOf(x, 0x8000, r);
  }

  lemma FinishOf(h: Word, a: Word, c: Word, x: Word, r: Word)
    requires h == 0x18270 && a == 0xD95F0 && c == 0x1B2 && x == 0xD9442 && r == 0xCA2E_9442
    ensures Finish(h) == r
  {
    MultiplesOf(h, a, x, r);
    ShiftBy(a, 11);
    LastXor(a, c);
    FinishIs(h, a, c, x);
  }

  lemma PlainSum(signed: bool, h: Word, c: Byte)
    requires h == 0 && c < 0x80
    ensures (h + Extend(signed, c)) % 0x1_0000_0000 == c
  {
  }

  lemma StateOfOne(signed: bool, c: Byte)
    requires c < 0x80
    ensures State(signed, [c]) == Mix(c)
  {
    var h := State(signed, []);
    StateAppend(signed, [], c);
    assert [] + [c] == [c];
    PlainSum(signed, h, c);
  }

  // The hash of "a".
  lemma HashOfLetter(signed: bool, c: Byte)
    requires c == 0x61
    ensures Hash(signed, [c]) == 0xCA2E_9442
  {
    StateOfOne(signed, c);
    MixOf(c, 0x18461, 0x611);
    FinishOf(Mix(c), 0xD95F0, 0x1B2, 0xD9442, 0xCA2E_9442);
  }
}
