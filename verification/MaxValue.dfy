// The loop of DSCHED_COMPUTE_MAX_VALUE, run by a shell whose expr computes with signed numbers of
// some width and wraps around.
module MaxValue {
  import opened Powers

  // One more than the largest number that the shell holds.
  function Half(w: nat): (h: int)
    requires w > 0
    ensures w <= h && Pow2(w) == 2 * h
  {
    Pow2(w - 1)
  }

  // A number as the shell keeps it, in w bits: what is left after taking 2^w away, or adding it, as
  // often as needed.
  function Wrap(w: nat, x: int): (r: int)
    requires w > 0
    ensures -Half(w) <= r < Half(w)
    decreases if x < 0 then -2 * x else 2 * x + 1
  {
    if x < -Half(w) then Wrap(w, x + 2 * Half(w))
    else if x >= Half(w) then Wrap(w, x - 2 * Half(w))
    else x
  }

  // The number of bits that the loop starts from.
  function Bits(w: nat, bytes: nat): int
    requires w > 0
  {
    Wrap(w, Wrap(w, bytes * 8) - 1)
  }

  // Wrapping changes a number by an even one.
  lemma {:induction false} WrapKeepsParity(w: nat, x: int) returns (e: int)
    requires w > 0
    ensures Wrap(w, x) == x + 2 * e
    decreases if x < 0 then -2 * x else 2 * x + 1
  {
    var h := Half(w);
    if x < -h {
      e := WrapKeepsParity(w, x + 2 * h);
      e := e + h;
    } else if x >= h {
      e := WrapKeepsParity(w, x - 2 * h);
      e := e - h;
    } else {
      e := 0;
    }
  }

  lemma NextMultiple(e: int, p: int)
    ensures (e + 1) * p == e * p + p && (e - 1) * p == e * p - p
  {
  }

  // More precisely, by a multiple of 2^w.
  lemma {:induction false} WrapIsCongruent(w: nat, x: int) returns (e: int)
    requires w > 0
    ensures Wrap(w, x) == x + e * Pow2(w)
    decreases if x < 0 then -2 * x else 2 * x + 1
  {
    var h := Half(w);
    if x < -h {
      e := WrapIsCongruent(w, x + 2 * h);
      NextMultiple(e, Pow2(w));
      e := e + 1;
    } else if x >= h {
      e := WrapIsCongruent(w, x - 2 * h);
      NextMultiple(e, Pow2(w));
      e := e - 1;
    } else {
      e := 0;
    }
  }

  // The number of bits is odd, even if it wrapped around, and never zero.
  lemma BitsNotZero(w: nat, bytes: nat)
    requires w > 0
    ensures Bits(w, bytes) != 0
  {
    var e := WrapKeepsParity(w, bytes * 8);
    var f := WrapKeepsParity(w, Wrap(w, bytes * 8) - 1);
    assert Bits(w, bytes) == 2 * (4 * bytes + e + f) - 1;
  }

  lemma BitsInRange(w: nat, bytes: nat)
    requires w >= 8 && bytes > 0 && 8 * bytes < Half(w)
    ensures Bits(w, bytes) == 8 * bytes - 1
  {
  }

  // After k steps the number of bits left tells apart whether k was all, all but one, or neither.
  lemma BitsLeft(w: nat, all: int, k: nat)
    requires w >= 8 && k < w && -Half(w) <= all < Half(w)
    ensures (Wrap(w, all - k) == 0 <==> all == k) && (Wrap(w, all - k) == 1 <==> all == k + 1)
    ensures Wrap(w, Wrap(w, all - k) - 1) == Wrap(w, all - (k + 1))
  {
  }

  function Min(a: nat, b: nat): nat {
    if a < b then a else b
  }

  // The largest signed number of the given number of bytes, or of the shell if that is smaller, and
  // whether the shell is too small.
  predicate Right(w: nat, bytes: nat, value: int, overflow: bool)
    requires w > 0 && bytes > 0
  {
    value == Pow2(Min(8 * bytes, w) - 1) - 1 && (overflow <==> 8 * bytes > w)
  }

  // The number of bits is too large, and wraps around to one that is not.
  predicate Misread(w: nat, bytes: nat)
    requires w > 0
  {
    8 * bytes > w && 1 <= Bits(w, bytes) < w
  }

  // What the loop finds for a number of bits.
  predicate Found(w: nat, all: int, value: int, overflow: bool)
    requires w > 0
  {
    if 1 <= all < w then value == Pow2(all) - 1 && !overflow
    else value == Pow2(w - 1) - 1 && overflow
  }

  lemma {:induction false} FoundIsRight(w: nat, bytes: nat, value: int, overflow: bool)
    requires w >= 8 && bytes > 0 && Found(w, Bits(w, bytes), value, overflow)
    ensures Right(w, bytes, value, overflow) <==> !Misread(w, bytes)
    ensures 8 * bytes < Half(w) ==> !Misread(w, bytes)
  {
    if 8 * bytes < Half(w) {
      BitsInRange(w, bytes);
    }
  }

  // Doubling a power of two, and what the loop tries when that wrapped around.
  lemma Doubling(w: nat, k: nat)
    requires w >= 8 && k <= w - 2
    ensures k < w - 2 ==> Wrap(w, Pow2(k) * 2) == Pow2(k + 1) && Wrap(w, Pow2(k + 1) - 1) == Pow2(k + 1) - 1
    ensures k == w - 2 ==> Wrap(w, Pow2(k) * 2) < 0
    ensures k == w - 2 ==> Wrap(w, Wrap(w, Pow2(k) - 1) + Pow2(k)) == Pow2(w - 1) - 1
  {
    assert Pow2(k) * 2 == Pow2(k + 1);
    if k < w - 2 {
      Pow2Mono(k + 1, w - 1);
    }
  }

  // Where the loop is after k steps that doubled the value.
  predicate At(w: nat, all: int, k: nat, bits: int, value: int)
    requires w >= 8
  {
    k <= w - 2 && value == Pow2(k) && bits == Wrap(w, all - k) && bits != 0 && !(1 <= all <= k)
  }

  // A turn of the loop whose doubling does not wrap around.
  lemma Doubles(w: nat, all: int, k: nat, bits: int, value: int)
    requires w >= 8 && -Half(w) <= all < Half(w) && At(w, all, k, bits, value)
    requires Wrap(w, value * 2) >= 0
    ensures var doubled, left := Wrap(w, value * 2), Wrap(w, bits - 1);
            && k + 1 < w
            && if left == 0 then Found(w, all, Wrap(w, doubled - 1), false)
               else At(w, all, k + 1, left, doubled)
  {
    BitsLeft(w, all, k);
    BitsLeft(w, all, k + 1);
    Doubling(w, k);
  }

  // A turn whose doubling wraps around, which is the last one.
  lemma Stops(w: nat, all: int, k: nat, bits: int, value: int)
    requires w >= 8 && -Half(w) <= all < Half(w) && At(w, all, k, bits, value)
    requires Wrap(w, value * 2) < 0
    ensures var tried := Wrap(w, Wrap(w, value - 1) + value);
            tried >= 0 && Found(w, all, tried, bits != 1)
  {
    BitsLeft(w, all, k);
    Doubling(w, k);
  }

  // The result is right unless the number of bits is misread, and it is not as long as the shell
  // can hold the number of bits.
  method ComputeMaxValue(w: nat, bytes: nat) returns (value: int, overflow: bool)
    requires w >= 8 && bytes > 0
    ensures Found(w, Bits(w, bytes), value, overflow)
    ensures Right(w, bytes, value, overflow) <==> !Misread(w, bytes)
    ensures 8 * bytes < Half(w) ==> !Misread(w, bytes)
  {
    var bits := Wrap(w, Wrap(w, bytes * 8) - 1);
    value, overflow := 1, false;
    ghost var all, k := bits, 0;
    BitsNotZero(w, bytes);
    while bits != 0
      invariant k < w
      invariant if bits == 0 then Found(w, all, value, overflow) else At(w, all, k, bits, value) && !overflow
      decreases bits != 0, w - k
    {
      var newval := Wrap(w, value * 2);
      if !(newval < 0) {
        Doubles(w, all, k, bits, value);
        value := newval;
        bits := Wrap(w, bits - 1);
        if bits == 0 {
          value := Wrap(w, value - 1);
        }
        k := k + 1;
      } else {
        Stops(w, all, k, bits, value);
        newval := Wrap(w, Wrap(w, value - 1) + value);
        if !(newval < 0) {
          value := newval;
          if bits != 1 {
            overflow := true;
          }
        } else {
          overflow := true;
        }
        bits := 0;
      }
    }
    FoundIsRight(w, bytes, value, overflow);
  }

  // 8193 bytes are 65544 bits, which leave 8 when 2^16 is taken away.
  lemma BitsWrapAround()
    ensures Bits(16, 8193) == 7
  {
    assert Pow2(5) == 32 && Pow2(10) == 1024;
    assert Half(16) == 0x8000;
    assert Wrap(16, 65544) == Wrap(16, 8) == 8;
  }

  // With 16-bit arithmetic, 8193 bytes are read as 7 bits, and no overflow is reported.
  lemma MisreadInput(value: int, overflow: bool)
    requires Found(16, Bits(16, 8193), value, overflow)
    ensures Misread(16, 8193) && value == 127 && !overflow && !Right(16, 8193, value, overflow)
  {
    BitsWrapAround();
    Pow2Mono(7, 15);
    assert Pow2(5) == 32 && Pow2(7) == 128;
  }
}
