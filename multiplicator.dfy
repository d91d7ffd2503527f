/** Arithmetic on little-endian decimal digit arrays, as in exercise_2/multiplicator.js:
    conversion from and to decimal text, addition with carry, multiplication by a
    digit through repeated addition, long multiplication and factorial.
    JavaScript arrays of numbers become seq<int>; each function that builds a fresh
    array and returns it becomes a method returning a sequence. */
module Multiplicator {
  import opened Decimal
  import opened DigitArrays

  function Reverse<T>(s: seq<T>): (r: seq<T>)
    ensures |r| == |s|
    ensures forall i :: 0 <= i < |s| ==> r[i] == s[|s| - 1 - i]
  {
    if s == [] then [] else Reverse(s[1..]) + [s[0]]
  }

  /** `Number(c)` applied to every character of a string of decimal digits. */
  function CharsToDigits(s: string): (r: seq<int>)
    requires forall i :: 0 <= i < |s| ==> IsDigitChar(s[i])
    ensures |r| == |s|
    ensures forall i :: 0 <= i < |s| ==> r[i] == CharValue(s[i])
  {
    if s == [] then [] else [CharValue(s[0])] + CharsToDigits(s[1..])
  }

  /** `arr.join('')`: the concatenation of the text of every entry. */
  function Join(a: seq<int>): string {
    if a == [] then "" else IntText(a[0]) + Join(a[1..])
  }

  /** numberToArray: the decimal text of n, one digit per entry, least significant first. */
  function NumberToArray(n: nat): (a: seq<int>)
    ensures |a| >= 1 && AllDigits(a)
    ensures a[|a| - 1] == 0 <==> n == 0
  {
    Reverse(CharsToDigits(DecimalString(n)))
  }

  /** arrayToString: the entries joined from the last to the first. The argument is
      a value here, so leaving it unmodified is automatic. */
  function ArrayToString(a: seq<int>): (s: string)
    ensures AllDigits(a) ==> |s| == |a|
    ensures AllDigits(a) ==> forall i :: 0 <= i < |a| ==> s[i] == DigitChar(a[|a| - 1 - i])
  {
    if AllDigits(a) then JoinDigitArray(Reverse(a)); Join(Reverse(a))
    else Join(Reverse(a))
  }

  /** addArrays: schoolbook addition, one digit and one carry per position. */
  method AddArrays(a: seq<int>, b: seq<int>) returns (r: seq<int>)
    requires AllDigits(a) && AllDigits(b)
    ensures AllDigits(r)
    ensures Val(r) == Val(a) + Val(b)
    ensures Max(|a|, |b|) <= |r| <= Max(|a|, |b|) + 1
    ensures |r| == Max(|a|, |b|) + 1 ==> r[|r| - 1] == 1
  {
    r := [];
    var carry := 0;
    var maxLength := Max(|a|, |b|);
    var i := 0;
    while i < maxLength || carry > 0
      invariant 0 <= i <= maxLength + 1 && |r| == i
      invariant 0 <= carry <= 1
      invariant i == maxLength + 1 ==> carry == 0 && r[maxLength] == 1
      invariant AllDigits(r)
      invariant Val(r) + carry * Pow10(i) == Val(a[..if i < |a| then i else |a|]) + Val(b[..if i < |b| then i else |b|])
      decreases maxLength + 1 - i
    {
      var x := if i < |a| then a[i] else 0;
      var y := if i < |b| then b[i] else 0;
      var sum := x + y + carry;
      AddStep(a, b, r, i, carry, sum % 10, sum / 10);
      r := r + [sum % 10];
      carry := sum / 10;
      i := i + 1;
    }
    assert a[..|a|] == a && b[..|b|] == b;
  }

  /** One iteration of the addition loop keeps its value invariant. */
  lemma AddStep(a: seq<int>, b: seq<int>, r: seq<int>, i: nat, carry: int, d: int, carry': int)
    requires |r| == i
    requires Val(r) + carry * Pow10(i) == Val(a[..if i < |a| then i else |a|]) + Val(b[..if i < |b| then i else |b|])
    requires d + 10 * carry' == (if i < |a| then a[i] else 0) + (if i < |b| then b[i] else 0) + carry
    ensures Val(r + [d]) + carry' * Pow10(i + 1)
         == Val(a[..if i + 1 < |a| then i + 1 else |a|]) + Val(b[..if i + 1 < |b| then i + 1 else |b|])
  {
    ValSnoc(r, d);
    if i < |a| {
      ValPrefixStep(a, i);
    }
    if i < |b| {
      ValPrefixStep(b, i);
    }
    var x := if i < |a| then a[i] else 0;
    var y := if i < |b| then b[i] else 0;
    CarryArith(d, carry', x, y, carry, Pow10(i));
  }

  lemma CarryArith(d: int, carry': int, x: int, y: int, carry: int, p: int)
    requires d + 10 * carry' == x + y + carry
    ensures d * p + carry' * (10 * p) == x * p + y * p + carry * p
  {
    assert carry' * (10 * p) == (10 * carry') * p;
    assert (d + 10 * carry') * p == d * p + (10 * carry') * p;
    assert (x + y + carry) * p == x * p + y * p + carry * p;
  }

  /** multiplyArrayBySingleDigit: digit - 1 additions of the array to a copy of itself. */
  method MultiplyArrayBySingleDigit(a: seq<int>, digit: nat) returns (r: seq<int>)
    requires AllDigits(a)
    ensures AllDigits(r)
    ensures Val(r) == digit * Val(a)
    ensures digit == 0 ==> r == [0]
    ensures digit == 1 ==> r == a
    ensures digit >= 1 ==> |r| >= |a| && Tight(r, |a|)
  {
    if digit == 0 {
      return [0];
    }
    if digit == 1 {
      return a;
    }
    r := a;
    var i := 1;
    while i < digit
      invariant 1 <= i <= digit
      invariant AllDigits(r) && |r| >= |a| && Tight(r, |a|)
      invariant Val(r) == i * Val(a)
    {
      var next := AddArrays(r, a);
      TightSum(r, a, next, |a|);
      OneMoreCopy(i, Val(a), Val(r), Val(next));
      r := next;
      i := i + 1;
    }
  }

  /** One more addition of the array adds one more copy of its value. */
  lemma OneMoreCopy(i: int, v: int, sum: int, next: int)
    requires sum == i * v && next == sum + v
    ensures next == (i + 1) * v
  {
  }

  /** multiplyArrays: the sum of the partial products of a with every digit of b,
      each shifted up by the digit's position, then the top-zero strip. */
  method MultiplyArrays(a: seq<int>, b: seq<int>) returns (r: seq<int>)
    requires AllDigits(a) && AllDigits(b)
    ensures AllDigits(r) && |r| >= 1
    ensures |a| == 0 || |b| == 0 ==> r == [0]
    ensures Val(a) * Val(b) == 0 ==> r == [0]
    ensures Normalized(a) && Normalized(b) ==> Normalized(r) && Val(r) == Val(a) * Val(b)
  {
    if |a| == 0 || |b| == 0 {
      return [0];
    }
    var n := |a| + |b| - 1;
    r := [0];
    for i := 0 to |b|
      invariant AllDigits(r) && |r| >= 1
      invariant Tight(r, n)
      invariant Val(r) == Val(a) * Val(b[..i])
    {
      var partialProduct := MultiplyArrayBySingleDigit(a, b[i]);
      var shiftedProduct := Zeros(i) + partialProduct;
      ShiftedTight(a, b[i], i, partialProduct, n);
      ValShifted(i, partialProduct);
      var next := AddArrays(r, shiftedProduct);
      TightSum(r, shiftedProduct, next, n);
      ValPrefixStep(b, i);
      PartialProductArith(Val(a), Val(b[..i]), b[i], Pow10(i));
      r := next;
    }
    assert b[..|b|] == b;
    ghost var product := r;
    // The strip loop; ShiftStrip says what it leaves.
    while |r| > 1 && r[|r| - 1] == 0
      invariant AllDigits(r) && |r| >= 1
      invariant ShiftStrip(r) == ShiftStrip(product)
      decreases |r|
    {
      r := r[1..];
    }
    assert r == ShiftStrip(r) == ShiftStrip(product);
    ValBounds(a);
    ValBounds(b);
    if Val(a) * Val(b) == 0 {
      ZeroValAllZero(product);
      ShiftStripAllZero(product);
    } else if Normalized(a) && Normalized(b) {
      ProductLowerBound(a, b);
      TightLargeTopNonzero(product, n);
    }
  }

  lemma PartialProductArith(va: int, vb: int, d: int, p: int)
    ensures va * vb + p * (d * va) == va * (vb + d * p)
  {
    assert p * (d * va) == va * (d * p);
  }

  /** The shifted partial product of a with one digit is tight within |a| + |b| - 1 places. */
  lemma ShiftedTight(a: seq<int>, digit: int, i: nat, partialProduct: seq<int>, n: nat)
    requires |a| >= 1 && i + |a| <= n && digit >= 0
    requires digit == 0 ==> partialProduct == [0]
    requires digit >= 1 ==> |partialProduct| >= |a| && Tight(partialProduct, |a|)
    ensures Tight(Zeros(i) + partialProduct, n)
  {
    var s := Zeros(i) + partialProduct;
    assert s[|s| - 1] == partialProduct[|partialProduct| - 1];
  }

  /** Two normalized nonzero factors of lengths p and q have a product of at least 10^(p+q-2). */
  lemma ProductLowerBound(a: seq<int>, b: seq<int>)
    requires Normalized(a) && Normalized(b) && Val(a) * Val(b) != 0
    ensures Val(a) * Val(b) >= Pow10(|a| + |b| - 2)
  {
    ValBounds(a);
    ValBounds(b);
    assert a[|a| - 1] != 0 by {
      if |a| == 1 {
        assert Val(a) == Val([]) + a[0] * 1;
      }
    }
    assert b[|b| - 1] != 0 by {
      if |b| == 1 {
        assert Val(b) == Val([]) + b[0] * 1;
      }
    }
    TopDigitNonzero(a);
    TopDigitNonzero(b);
    Pow10Add(|a| - 1, |b| - 1);
    MulMonotone(Pow10(|a| - 1), Val(a), Pow10(|b| - 1), Val(b));
  }

  lemma MulMonotone(x: nat, x': nat, y: nat, y': nat)
    requires x <= x' && y <= y'
    ensures x * y <= x' * y'
  {
    assert x * y <= x' * y;
    assert x' * y <= x' * y';
  }

  /** What the strip loop of multiplyArrays computes: while the array is longer than
      one entry and its last entry is 0, drop its FIRST entry. */
  ghost function ShiftStrip(s: seq<int>): seq<int>
    decreases |s|
  {
    if |s| > 1 && s[|s| - 1] == 0 then ShiftStrip(s[1..]) else s
  }

  /** The strip drops the low digit, not the zero on top: the sum [2, 0] (the value 2
      with a zero on top, which multiplyArrays([2, 0], [1]) reaches) strips to [0]. */
  lemma StripDropsLowDigit()
    ensures Val([2, 0]) == 2 && ShiftStrip([2, 0]) == [0]
  {
    assert [2, 0][1..] == [0];
    assert Val([2]) == Val([]) + 2 * Pow10(0);
    assert Val([2, 0]) == Val([2]) + 0 * Pow10(1);
  }

  /** On an array of zeros the strip leaves exactly [0]. */
  lemma {:induction false} ShiftStripAllZero(s: seq<int>)
    requires |s| >= 1 && forall i :: 0 <= i < |s| ==> s[i] == 0
    ensures ShiftStrip(s) == [0]
    decreases |s|
  {
    if |s| > 1 {
      ShiftStripAllZero(s[1..]);
    }
  }

  function Fact(n: int): nat {
    if n <= 1 then 1 else n * Fact(n - 1)
  }

  /** factorial: the running product [1] * [2] * ... * [n], each factor converted
      with numberToArray. */
  method Factorial(n: int) returns (r: seq<int>)
    ensures Normalized(r) && Val(r) == Fact(n)
    ensures n <= 1 ==> r == [1]
  {
    assert Val([1]) == Val([]) + 1 * Pow10(0);
    if n == 0 || n == 1 {
      return [1];
    }
    r := [1];
    var i := 2;
    while i <= n
      invariant 2 <= i && (i <= n + 1 || i == 2)
      invariant Normalized(r) && Val(r) == Fact(i - 1)
      invariant i == 2 ==> r == [1]
    {
      var multiplier := NumberToArray(i);
      NumberToArrayCorrect(i);
      ghost var before := Val(r);
      r := MultiplyArrays(r, multiplier);
      FactStep(i, before, Val(r));
      i := i + 1;
    }
  }

  lemma FactStep(i: int, previous: int, product: int)
    requires i >= 2 && previous == Fact(i - 1) && product == previous * i
    ensures product == Fact(i)
  {
  }

  /** numberToArray peels off the least significant digit first. */
  lemma {:induction false} NumberToArrayUnfold(n: nat)
    ensures n < 10 ==> NumberToArray(n) == [n]
    ensures n >= 10 ==> NumberToArray(n) == [n % 10] + NumberToArray(n / 10)
  {
    if n >= 10 {
      var high := CharsToDigits(DecimalString(n / 10));
      assert CharsToDigits(DecimalString(n)) == high + [n % 10];
      assert Reverse(high + [n % 10]) == [n % 10] + Reverse(high);
    }
  }

  /** numberToArray yields digits whose value is n, with no most-significant zero
      (123 becomes [3, 2, 1]). */
  lemma {:induction false} NumberToArrayCorrect(n: nat)
    ensures Normalized(NumberToArray(n)) && Val(NumberToArray(n)) == n
    ensures var a := NumberToArray(n); a[|a| - 1] != 0 <==> n != 0
    decreases n
  {
    NumberToArrayUnfold(n);
    if n < 10 {
      assert Val([n]) == Val([]) + n * 1;
    } else {
      NumberToArrayCorrect(n / 10);
      ValCons(n % 10, NumberToArray(n / 10));
    }
  }

  lemma NumberToArrayExample()
    ensures NumberToArray(123) == [3, 2, 1]
    ensures NumberToArray(5) == [5]
  {
    NumberToArrayUnfold(123);
    NumberToArrayUnfold(12);
    NumberToArrayUnfold(1);
    NumberToArrayUnfold(5);
  }

  /** Converting the value of a normalized digit array gives that array back. */
  lemma {:induction false} NumberToArrayOfVal(a: seq<int>)
    requires Normalized(a)
    ensures Val(a) >= 0 && NumberToArray(Val(a)) == a
    decreases |a|
  {
    ValBounds(a);
    if |a| == 1 {
      assert Val(a) == Val([]) + a[0] * 1;
      NumberToArrayUnfold(Val(a));
    } else {
      var rest := a[1..];
      assert a == [a[0]] + rest;
      ValCons(a[0], rest);
      assert Normalized(rest);
      TopDigitNonzero(rest);
      NumberToArrayOfVal(rest);
      DigitDivMod(a[0], Val(rest));
      NumberToArrayUnfold(Val(a));
    }
  }

  lemma DigitDivMod(d: int, v: int)
    requires IsDigit(d) && v >= 1
    ensures d + 10 * v >= 10 && (d + 10 * v) % 10 == d && (d + 10 * v) / 10 == v
  {
  }

  /** Reversing twice is the identity. */
  lemma ReverseReverse<T>(s: seq<T>)
    ensures Reverse(Reverse(s)) == s
  {
  }

  /** Joining single digits writes each as its character. */
  lemma {:induction false} JoinDigits(s: string)
    requires forall i :: 0 <= i < |s| ==> IsDigitChar(s[i])
    ensures Join(CharsToDigits(s)) == s
    decreases |s|
  {
    if s != [] {
      JoinDigits(s[1..]);
      assert CharsToDigits(s)[1..] == CharsToDigits(s[1..]);
      assert DigitChar(CharValue(s[0])) == s[0];
    }
  }

  /** Joining an array of digits writes one character per digit. */
  lemma {:induction false} JoinDigitArray(a: seq<int>)
    requires AllDigits(a)
    ensures |Join(a)| == |a|
    ensures forall i :: 0 <= i < |a| ==> Join(a)[i] == DigitChar(a[i])
    decreases |a|
  {
    if a != [] {
      JoinDigitArray(a[1..]);
      assert IntText(a[0]) == [DigitChar(a[0])];
    }
  }

  /** arrayToString(numberToArray(n)) is the decimal text of n. */
  lemma ArrayToStringRoundTrip(n: nat)
    ensures ArrayToString(NumberToArray(n)) == DecimalString(n)
  {
    ReverseReverse(CharsToDigits(DecimalString(n)));
    JoinDigits(DecimalString(n));
  }
}
