/** Numeric helpers shared by every part of the simulation: sums and means of
    real sequences (Python's `sum(...)/len(...)`), first-maximum search
    (Python's `max(..., key=...)`), integer truncation (`int(x)`), float
    modulo (`x % m`), rounding to two decimals (`round(x, 2)`) and powers. */
module Num {

  function Abs(x: real): real {
    if x < 0.0 then -x else x
  }

  function Min(a: real, b: real): real {
    if a <= b then a else b
  }

  function Max(a: real, b: real): real {
    if a <= b then b else a
  }

  /** `r` lies on the segment between `a` and `b`, whichever is larger. */
  predicate Between(r: real, a: real, b: real) {
    Min(a, b) <= r <= Max(a, b)
  }

  /** Left-to-right sum, as Python's `sum`. */
  function Sum(s: seq<real>): real {
    if |s| == 0 then 0.0 else Sum(s[..|s| - 1]) + s[|s| - 1]
  }

  lemma {:induction false} SumBounds(s: seq<real>, lo: real, hi: real)
    requires forall k :: 0 <= k < |s| ==> lo <= s[k] <= hi
    ensures |s| as real * lo <= Sum(s) <= |s| as real * hi
  {
    if |s| > 0 {
      SumBounds(s[..|s| - 1], lo, hi);
    }
  }

  /** Index of the FIRST maximal element, as Python's `max` scanning left to right. */
  function ArgMax(s: seq<real>): (k: nat)
    requires |s| > 0
    ensures k < |s|
    ensures forall j :: 0 <= j < |s| ==> s[j] <= s[k]
    ensures forall j :: 0 <= j < k ==> s[j] < s[k]
  {
    if |s| == 1 then 0
    else
      var k' := ArgMax(s[..|s| - 1]);
      if s[|s| - 1] > s[k'] then |s| - 1 else k'
  }

  /** Index of the FIRST minimal element. */
  function ArgMin(s: seq<real>): (k: nat)
    requires |s| > 0
    ensures k < |s|
    ensures forall j :: 0 <= j < |s| ==> s[k] <= s[j]
    ensures forall j :: 0 <= j < k ==> s[k] < s[j]
  {
    if |s| == 1 then 0
    else
      var k' := ArgMin(s[..|s| - 1]);
      if s[|s| - 1] < s[k'] then |s| - 1 else k'
  }

  lemma ProductNonNegative(a: real, b: real)
    requires a >= 0.0 && b >= 0.0
    ensures a * b >= 0.0
  {
  }

  lemma MulMonotone(a: real, b: real, c: real)
    requires a <= b && c >= 0.0
    ensures a * c <= b * c
  {
    assert (b - a) * c >= 0.0;
  }

  lemma MulStrict(a: real, b: real, c: real)
    requires a < b && c > 0.0
    ensures a * c < b * c
  {
    assert (b - a) * c > 0.0;
  }

  /** A total between `n * lo` and `n * hi` has its `n`-th part between `lo` and `hi`. */
  lemma DivBounds(total: real, n: real, lo: real, hi: real)
    requires n > 0.0
    requires n * lo <= total <= n * hi
    ensures lo <= total / n <= hi
  {
    var q := total / n;
    assert q * n == total;
    if q < lo {
      MulStrict(q, lo, n);
    }
    if q > hi {
      MulStrict(hi, q, n);
    }
  }

  /** Mean of the values, 0 for an empty sequence (the zero-safe average used
      throughout the source). */
  function Mean(s: seq<real>): (r: real)
    ensures |s| == 0 ==> r == 0.0
    ensures |s| > 0 ==> s[ArgMin(s)] <= r <= s[ArgMax(s)]
  {
    if |s| == 0 then 0.0
    else
      var n := |s| as real;
      SumBounds(s, s[ArgMin(s)], s[ArgMax(s)]);
      DivBounds(Sum(s), n, s[ArgMin(s)], s[ArgMax(s)]);
      Sum(s) / n
  }

  /** `r` times the number of values gives back their sum: `r` is their
      mean, or the values are empty and `r` is anything. */
  predicate IsMeanOf(r: real, s: seq<real>) {
    r * |s| as real == Sum(s)
  }

  /** The mean times the number of values gives back their sum. */
  lemma {:induction false} MeanTimesCount(s: seq<real>)
    ensures IsMeanOf(Mean(s), s)
  {
    if |s| > 0 {
      DivTimes(Mean(s), Sum(s), |s| as real);
    }
  }

  lemma DivTimes(m: real, t: real, n: real)
    requires n != 0.0 && m == t / n
    ensures m * n == t
  {
  }

  /** The mean of values that all lie in [lo, hi] lies in [lo, hi]. */
  lemma MeanWithin(s: seq<real>, lo: real, hi: real)
    requires |s| > 0
    requires forall k :: 0 <= k < |s| ==> lo <= s[k] <= hi
    ensures lo <= Mean(s) <= hi
  {
    var a := ArgMin(s);
    var b := ArgMax(s);
    assert lo <= s[a] && s[b] <= hi;
  }

  /** Python's `int(x)` on a float: truncation toward zero. */
  function Trunc(x: real): (r: int)
    ensures Abs(r as real) <= Abs(x)
    ensures Abs(x - r as real) < 1.0
    ensures x >= 0.0 ==> r >= 0
    ensures x <= 0.0 ==> r <= 0
  {
    if x >= 0.0 then x.Floor else -((-x).Floor)
  }

  /** `r` is a whole number of hundredths. */
  predicate IsCent(x: real) {
    (x * 100.0).Floor as real == x * 100.0
  }

  /** Rounds a whole-hundredths count `y` to the nearest integer, ties to even. */
  function RoundHalfEven(y: real): (n: int)
    ensures Abs(y - n as real) <= 0.5
    ensures y.Floor as real == y ==> n == y.Floor
  {
    var f := y.Floor;
    var frac := y - f as real;
    if frac < 0.5 then f
    else if frac > 0.5 then f + 1
    else if f % 2 == 0 then f else f + 1
  }

  lemma RoundHalfEvenMonotone(y: real, y': real)
    requires y <= y'
    ensures RoundHalfEven(y) <= RoundHalfEven(y')
  {
  }

  /** Python's `round(x, 2)` on the exact value: nearest hundredth, ties to even.
      Binary floating-point representation error is not modelled. */
  function Round2(x: real): (r: real)
    ensures IsCent(r)
    ensures Abs(r - x) <= 0.005
    ensures IsCent(x) ==> r == x
  {
    var n := RoundHalfEven(x * 100.0);
    assert (n as real / 100.0) * 100.0 == n as real;
    n as real / 100.0
  }

  /** Rounding never reverses the order of two values. */
  lemma Round2Monotone(x: real, x': real)
    requires x <= x'
    ensures Round2(x) <= Round2(x')
  {
    RoundHalfEvenMonotone(x * 100.0, x' * 100.0);
  }

  /** Rounding a value that lies between two whole hundredths stays between them. */
  lemma Round2Within(x: real, lo: real, hi: real)
    requires IsCent(lo) && IsCent(hi)
    requires lo <= x <= hi
    ensures lo <= Round2(x) <= hi
  {
    Round2Monotone(lo, x);
    Round2Monotone(x, hi);
  }

  /** Python's float modulo `x % m`: the remainder takes the sign of `m`
      (for a negative modulus, `x % m == -((-x) % (-m))`). */
  function RealMod(x: real, m: real): (r: real)
    requires m != 0.0
    ensures m > 0.0 ==> 0.0 <= r < m
    ensures m < 0.0 ==> m < r <= 0.0
    ensures 0.0 <= x < m ==> r == x
  {
    if m > 0.0 then PositiveMod(x, m) else -PositiveMod(-x, -m)
  }

  function PositiveMod(x: real, m: real): (r: real)
    requires m > 0.0
    ensures 0.0 <= r < m
    ensures 0.0 <= x < m ==> r == x
  {
    ModPositive(x, m);
    if 0.0 <= x < m then ModSmall(x, m); x - m * (x / m).Floor as real
    else x - m * (x / m).Floor as real
  }

  lemma ModPositive(x: real, m: real)
    requires m > 0.0
    ensures 0.0 <= x - m * (x / m).Floor as real < m
  {
    var t := x / m;
    var qr := t.Floor as real;
    assert qr <= t < qr + 1.0;
    MulMonotone(qr, t, m);
    MulStrict(t, qr + 1.0, m);
    assert t * m == x;
    assert m * qr == qr * m;
    assert (qr + 1.0) * m == qr * m + m;
  }

  lemma ModSmall(x: real, m: real)
    requires 0.0 <= x < m
    ensures (x / m).Floor == 0
  {
    var t := x / m;
    assert t * m == x;
    if t < 0.0 {
      MulStrict(t, 0.0, m);
    }
    if t >= 1.0 {
      MulMonotone(1.0, t, m);
    }
  }

  function Pow(b: real, n: nat): real {
    if n == 0 then 1.0 else b * Pow(b, n - 1)
  }

  lemma {:induction false} PowPositive(b: real, n: nat)
    requires b > 0.0
    ensures Pow(b, n) > 0.0
  {
    if n > 0 {
      PowPositive(b, n - 1);
    }
  }

  /** A base in [0, 1] keeps its powers in [0, 1]. */
  lemma {:induction false} PowUnit(b: real, n: nat)
    requires 0.0 <= b <= 1.0
    ensures 0.0 <= Pow(b, n) <= 1.0
  {
    if n > 0 {
      PowUnit(b, n - 1);
      UnitProduct(b, Pow(b, n - 1));
    }
  }

  /** The product of two numbers in [0, 1] lies in [0, 1]. */
  lemma UnitProduct(a: real, b: real)
    requires 0.0 <= a <= 1.0 && 0.0 <= b <= 1.0
    ensures 0.0 <= a * b <= 1.0
  {
    ProductNonNegative(a, b);
    var c := 1.0 - b;
    ProductNonNegative(a, c);
    assert a * c == a - a * b;
  }

  /** Number of occurrences of `x` in `s`. */
  function Count<T(==)>(s: seq<T>, x: T): nat {
    if |s| == 0 then 0
    else Count(s[..|s| - 1], x) + (if s[|s| - 1] == x then 1 else 0)
  }

  lemma {:induction false} CountAppend<T>(a: seq<T>, b: seq<T>, x: T)
    ensures Count(a + b, x) == Count(a, x) + Count(b, x)
  {
    if |b| == 0 {
      assert a + b == a;
    } else {
      assert (a + b)[..|a + b| - 1] == a + b[..|b| - 1];
      CountAppend(a, b[..|b| - 1], x);
    }
  }

  lemma {:induction false} CountAbsent<T>(s: seq<T>, x: T)
    requires x !in s
    ensures Count(s, x) == 0
  {
    if |s| > 0 {
      assert x !in s[..|s| - 1];
      CountAbsent(s[..|s| - 1], x);
    }
  }

  /** In a sequence without repetition, each member occurs exactly once. */
  lemma {:induction false} CountDistinct<T>(s: seq<T>, x: T)
    requires forall a, b :: 0 <= a < b < |s| ==> s[a] != s[b]
    requires x in s
    ensures Count(s, x) == 1
  {
    var last := s[|s| - 1];
    var init := s[..|s| - 1];
    if x == last {
      assert x !in init;
      CountAbsent(init, x);
    } else {
      assert x in init;
      CountDistinct(init, x);
    }
  }

  /** A non-empty sequence is its prefix followed by its last element. */
  lemma SplitLast<T>(s: seq<T>)
    requires |s| > 0
    ensures s == s[..|s| - 1] + [s[|s| - 1]]
  {
  }

  lemma MultisetSplitLast<T>(s: seq<T>)
    requires |s| > 0
    ensures multiset(s) == multiset(s[..|s| - 1]) + multiset{s[|s| - 1]}
  {
    SplitLast(s);
  }

  /** Sequences with the same multiset hold the same elements. */
  lemma SameMembers<T>(a: seq<T>, b: seq<T>, x: T)
    requires multiset(a) == multiset(b)
    ensures x in a <==> x in b
  {
    assert x in a <==> x in multiset(a);
    assert x in b <==> x in multiset(b);
  }

  /** A permutation of `a` holds each element of `a`, and only those. */
  lemma PermutationMembers<T>(a: seq<T>, b: seq<T>)
    requires multiset(a) == multiset(b)
    ensures forall k :: 0 <= k < |a| ==> a[k] in b
    ensures forall x :: x in b ==> exists m :: 0 <= m < |a| && a[m] == x
  {
    forall k | 0 <= k < |a| ensures a[k] in b {
      SameMembers(a, b, a[k]);
    }
    forall x | x in b ensures exists m :: 0 <= m < |a| && a[m] == x {
      SameMembers(a, b, x);
    }
  }
}
