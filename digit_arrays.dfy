/** Little-endian decimal digit arrays: entry i is the digit of weight 10^i.
    This module gives their numeric value and the facts about it that the
    arithmetic in module Multiplicator relies on. */
module DigitArrays {

  function Pow10(n: nat): (p: nat)
    ensures p >= 1
  {
    if n == 0 then 1 else 10 * Pow10(n - 1)
  }

  predicate IsDigit(d: int) {
    0 <= d <= 9
  }

  predicate AllDigits(a: seq<int>) {
    forall i :: 0 <= i < |a| ==> IsDigit(a[i])
  }

  /** The number a digit array stands for: the sum of a[i] * 10^i. */
  function Val(a: seq<int>): int {
    if a == [] then 0 else Val(a[..|a| - 1]) + a[|a| - 1] * Pow10(|a| - 1)
  }

  /** A digit array with no most-significant zero; [0] is the one way to write zero. */
  predicate Normalized(a: seq<int>) {
    |a| >= 1 && AllDigits(a) && (|a| == 1 || a[|a| - 1] != 0)
  }

  /** No zero top digit beyond position n: either the array is at most n long,
      or its last (most significant) entry is nonzero. */
  predicate Tight(a: seq<int>, n: nat) {
    |a| <= n || a[|a| - 1] != 0
  }

  function Zeros(n: nat): (z: seq<int>)
    ensures |z| == n && AllDigits(z)
    ensures forall i :: 0 <= i < n ==> z[i] == 0
  {
    seq(n, _ => 0)
  }

  function Max(x: int, y: int): int {
    if x >= y then x else y
  }

  lemma {:induction false} Pow10Add(x: nat, y: nat)
    ensures Pow10(x + y) == Pow10(x) * Pow10(y)
    decreases x
  {
    if x > 0 {
      Pow10Add(x - 1, y);
      assert Pow10(x + y) == 10 * Pow10(x - 1 + y);
    }
  }

  lemma {:induction false} Pow10Monotone(x: nat, y: nat)
    requires x <= y
    ensures Pow10(x) <= Pow10(y)
    decreases y
  {
    if x < y {
      Pow10Monotone(x, y - 1);
    }
  }

  /** A digit times a positive weight: never negative, and at least the weight unless the digit is 0. */
  lemma DigitTimes(d: int, p: nat)
    requires IsDigit(d)
    ensures 0 <= d * p <= 9 * p
    ensures d != 0 ==> d * p >= p
  {
    assert d * p == (d - 1) * p + p;
  }

  /** Appending a digit at the top adds d * 10^|a|. */
  lemma {:induction false} ValSnoc(a: seq<int>, d: int)
    ensures Val(a + [d]) == Val(a) + d * Pow10(|a|)
  {
    assert (a + [d])[..|a|] == a;
  }

  /** Extending a prefix of b by one more entry. */
  lemma {:induction false} ValPrefixStep(b: seq<int>, i: nat)
    requires i < |b|
    ensures Val(b[..i + 1]) == Val(b[..i]) + b[i] * Pow10(i)
  {
    assert b[..i + 1] == b[..i] + [b[i]];
    ValSnoc(b[..i], b[i]);
  }

  /** Prepending a digit at the bottom shifts the rest up by one place. */
  lemma {:induction false} ValCons(d: int, a: seq<int>)
    ensures Val([d] + a) == d + 10 * Val(a)
    decreases |a|
  {
    if a == [] {
      assert [d] + a == [] + [d];
      ValSnoc([], d);
    } else {
      var init, last := a[..|a| - 1], a[|a| - 1];
      assert a == init + [last];
      assert [d] + a == ([d] + init) + [last];
      ValCons(d, init);
      ValSnoc([d] + init, last);
      ValSnoc(init, last);
      assert Pow10(|[d] + init|) == 10 * Pow10(|init|);
      ConsArith(d, Val(init), last, Pow10(|init|));
    }
  }

  lemma ConsArith(d: int, v: int, last: int, p: int)
    ensures (d + 10 * v) + last * (10 * p) == d + 10 * (v + last * p)
  {
  }

  lemma TenTimes(p: int, v: int)
    ensures 10 * (p * v) == (10 * p) * v
  {
  }

  /** i zeros below an array multiply its value by 10^i. */
  lemma {:induction false} ValShifted(i: nat, a: seq<int>)
    ensures Val(Zeros(i) + a) == Pow10(i) * Val(a)
    decreases i
  {
    if i > 0 {
      assert Zeros(i) + a == [0] + (Zeros(i - 1) + a);
      ValCons(0, Zeros(i - 1) + a);
      ValShifted(i - 1, a);
      TenTimes(Pow10(i - 1), Val(a));
    } else {
      assert Zeros(i) + a == a;
    }
  }

  /** A digit array of length n stands for a number in [0, 10^n). */
  lemma {:induction false} ValBounds(a: seq<int>)
    requires AllDigits(a)
    ensures 0 <= Val(a) < Pow10(|a|)
    decreases |a|
  {
    if a != [] {
      var init := a[..|a| - 1];
      ValBounds(init);
      DigitTimes(a[|a| - 1], Pow10(|init|));
    }
  }

  /** The top digit is nonzero exactly when the value reaches 10^(|a|-1). */
  lemma {:induction false} TopDigitNonzero(a: seq<int>)
    requires AllDigits(a) && |a| >= 1
    ensures a[|a| - 1] != 0 <==> Val(a) >= Pow10(|a| - 1)
  {
    var init, top := a[..|a| - 1], a[|a| - 1];
    ValBounds(init);
    DigitTimes(top, Pow10(|a| - 1));
    assert Val(a) == Val(init) + top * Pow10(|a| - 1);
  }

  /** A digit array whose value is 0 holds only zeros. */
  lemma {:induction false} ZeroValAllZero(a: seq<int>)
    requires AllDigits(a) && Val(a) == 0
    ensures forall i :: 0 <= i < |a| ==> a[i] == 0
    decreases |a|
  {
    if a != [] {
      var init, top := a[..|a| - 1], a[|a| - 1];
      ValBounds(init);
      DigitTimes(top, Pow10(|init|));
      assert Val(a) == Val(init) + top * Pow10(|init|);
      ZeroValAllZero(init);
      assert forall i :: 0 <= i < |init| ==> a[i] == init[i];
    }
  }

  /** A tight array whose value is at least 10^(n-1) has a nonzero top digit. */
  lemma {:induction false} TightLargeTopNonzero(a: seq<int>, n: nat)
    requires AllDigits(a) && |a| >= 1 && n >= 1
    requires Tight(a, n) && Val(a) >= Pow10(n - 1)
    ensures a[|a| - 1] != 0
  {
    if |a| <= n {
      Pow10Monotone(|a| - 1, n - 1);
      TopDigitNonzero(a);
    }
  }

  /** Sums of tight arrays are tight, given the length and carry facts of AddArrays. */
  lemma {:induction false} TightSum(a: seq<int>, b: seq<int>, r: seq<int>, n: nat)
    requires AllDigits(a) && AllDigits(b) && AllDigits(r)
    requires Val(r) == Val(a) + Val(b)
    requires Max(|a|, |b|) <= |r| <= Max(|a|, |b|) + 1
    requires |r| == Max(|a|, |b|) + 1 ==> r[|r| - 1] == 1
    requires Tight(a, n) && Tight(b, n)
    ensures Tight(r, n)
  {
    if |r| == Max(|a|, |b|) && |r| > n {
      var longer, other := if |a| >= |b| then a else b, if |a| >= |b| then b else a;
      assert |longer| == |r| && longer[|longer| - 1] != 0;
      assert Val(r) == Val(longer) + Val(other);
      TopDigitNonzero(longer);
      ValBounds(other);
      TopDigitNonzero(r);
    }
  }
}
