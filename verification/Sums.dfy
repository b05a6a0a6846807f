// Sums of a weight over a sequence. With a weight of 0 or 1 a sum is a count, which is how
// reference holders, outstanding responses and queued events are counted elsewhere.
module Sums {

  datatype Option<+T> = None | Some(value: T)

  function Sum<T>(s: seq<T>, w: T -> nat): nat {
    if s == [] then 0 else Sum(s[..|s| - 1], w) + w(s[|s| - 1])
  }

  lemma SumAppend<T>(s: seq<T>, x: T, w: T -> nat)
    ensures Sum(s + [x], w) == Sum(s, w) + w(x)
  {
    assert (s + [x])[..|s|] == s;
  }

  // Taking one more element adds its weight.
  lemma SumTake<T>(s: seq<T>, n: nat, w: T -> nat)
    requires n < |s|
    ensures Sum(s[..n + 1], w) == Sum(s[..n], w) + w(s[n])
  {
    assert s[..n + 1] == s[..n] + [s[n]];
    SumAppend(s[..n], s[n], w);
  }

  lemma {:induction false} SumConcat<T>(s: seq<T>, t: seq<T>, w: T -> nat)
    ensures Sum(s + t, w) == Sum(s, w) + Sum(t, w)
  {
    if t == [] {
      assert s + t == s;
    } else {
      var t' := t[..|t| - 1];
      SumConcat(s, t', w);
      assert s + t == (s + t') + [t[|t| - 1]];
      SumAppend(s + t', t[|t| - 1], w);
    }
  }

  lemma {:induction false} SumUpdate<T>(s: seq<T>, i: nat, x: T, w: T -> nat)
    requires i < |s|
    ensures Sum(s[i := x], w) + w(s[i]) == Sum(s, w) + w(x)
  {
    var n := |s| - 1;
    if i == n {
      assert s[i := x][..n] == s[..n];
    } else {
      SumUpdate(s[..n], i, x, w);
      assert s[i := x][..n] == s[..n][i := x];
    }
  }

  // A sum is at least each of its terms.
  lemma {:induction false} SumAtLeast<T>(s: seq<T>, i: nat, w: T -> nat)
    requires i < |s|
    ensures Sum(s, w) >= w(s[i])
  {
    var n := |s| - 1;
    if i < n {
      SumAtLeast(s[..n], i, w);
    }
  }

  // A sum of 0/1 weights that has two distinct hits is at least two.
  lemma {:induction false} SumAtLeastTwo<T>(s: seq<T>, i: nat, j: nat, w: T -> nat)
    requires i < j < |s|
    ensures Sum(s, w) >= w(s[i]) + w(s[j])
  {
    var n := |s| - 1;
    if j < n {
      SumAtLeastTwo(s[..n], i, j, w);
    } else {
      SumAtLeast(s[..n], i, w);
    }
  }

  // A positive sum has a positive term.
  lemma {:induction false} SumWitness<T>(s: seq<T>, w: T -> nat) returns (i: nat)
    requires Sum(s, w) > 0
    ensures i < |s| && w(s[i]) > 0
  {
    var n := |s| - 1;
    if w(s[n]) > 0 {
      i := n;
    } else {
      i := SumWitness(s[..n], w);
    }
  }

  lemma {:induction false} SumZero<T>(s: seq<T>, w: T -> nat)
    requires forall i :: 0 <= i < |s| ==> w(s[i]) == 0
    ensures Sum(s, w) == 0
  {
    if s != [] {
      SumZero(s[..|s| - 1], w);
    }
  }

  // A sum of equal weights is a product.
  lemma {:induction false} SumConstant<T>(s: seq<T>, w: T -> nat, k: nat)
    requires forall i :: 0 <= i < |s| ==> w(s[i]) == k
    ensures Sum(s, w) == |s| * k
  {
    if s != [] {
      SumConstant(s[..|s| - 1], w, k);
      assert |s| * k == (|s| - 1) * k + k;
    }
  }

  lemma Scale(a: nat, b: nat, k: nat)
    requires a <= b
    ensures a * k <= b * k
  {
    assert b * k == a * k + (b - a) * k;
  }

  lemma SumAtMost<T>(s: seq<T>, w: T -> nat, k: nat, n: nat)
    requires |s| <= n && forall i :: 0 <= i < |s| ==> w(s[i]) == k
    ensures Sum(s, w) <= n * k
  {
    SumConstant(s, w, k);
    Scale(|s|, n, k);
  }
}
