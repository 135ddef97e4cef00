/**
 * Exact-arithmetic statistics over columns of reals, following the pandas
 * conventions the survey scripts rely on: missing values are skipped, the
 * mean of nothing is missing, and variances use one degree of freedom.
 */
module Stats {
  import opened Wrappers

  function Sum(xs: seq<real>): real {
    if xs == [] then 0.0 else xs[0] + Sum(xs[1..])
  }

  /** The present values of a column, in order (pandas `dropna`). */
  function Present(xs: seq<Option<real>>): (r: seq<real>)
    ensures |r| <= |xs|
    ensures r == [] <==> forall i :: 0 <= i < |xs| ==> xs[i].None?
    ensures forall v :: v in r <==> Some(v) in xs
  {
    if xs == [] then []
    else if xs[0].Some? then [xs[0].value] + Present(xs[1..])
    else Present(xs[1..])
  }

  /** Real division, named so that equal operands give equal quotients to the prover. */
  function Div(a: real, b: real): real
    requires b != 0.0
  {
    a / b
  }

  function Mean(xs: seq<real>): real
    requires xs != []
  {
    Div(Sum(xs), |xs| as real)
  }

  /** pandas `Series.mean(skipna=True)`: missing exactly when nothing is present. */
  function MeanSkipNa(xs: seq<Option<real>>): (r: Option<real>)
    ensures r.None? <==> forall i :: 0 <= i < |xs| ==> xs[i].None?
  {
    var p := Present(xs);
    if p == [] then None else Some(Mean(p))
  }

  function Sq(d: real): real { d * d }

  /** The sum of squared deviations from `m`. */
  function SumSquares(xs: seq<real>, m: real): real {
    if xs == [] then 0.0 else Sq(xs[0] - m) + SumSquares(xs[1..], m)
  }

  /** Sample variance with `ddof=1`; undefined below two values. */
  function SampleVar(xs: seq<real>): (r: Option<real>)
    ensures r.Some? <==> |xs| >= 2
  {
    if |xs| < 2 then None else Some(Div(SumSquares(xs, Mean(xs)), (|xs| - 1) as real))
  }

  function Scaled(c: real, xs: seq<real>): (r: seq<real>)
    ensures |r| == |xs| && forall i :: 0 <= i < |xs| ==> r[i] == c * xs[i]
  {
    if xs == [] then [] else [c * xs[0]] + Scaled(c, xs[1..])
  }

  predicate Between(lo: real, xs: seq<real>, hi: real) {
    forall i :: 0 <= i < |xs| ==> lo <= xs[i] <= hi
  }

  lemma {:induction false} SumBounds(lo: real, xs: seq<real>, hi: real)
    requires Between(lo, xs, hi)
    ensures lo * |xs| as real <= Sum(xs) <= hi * |xs| as real
  {
    if xs != [] {
      SumBounds(lo, xs[1..], hi);
      assert lo * |xs| as real == lo + lo * |xs[1..]| as real;
      assert hi * |xs| as real == hi + hi * |xs[1..]| as real;
    }
  }

  /** A mean never leaves the range of the values it averages. */
  lemma MeanBounds(lo: real, xs: seq<real>, hi: real)
    requires xs != [] && Between(lo, xs, hi)
    ensures lo <= Mean(xs) <= hi
  {
    SumBounds(lo, xs, hi);
    DivBetween(lo, Sum(xs), hi, |xs| as real);
  }

  lemma DivBetween(lo: real, a: real, hi: real, n: real)
    requires n > 0.0 && lo * n <= a <= hi * n
    ensures lo <= Div(a, n) <= hi
  {
    var q := a / n;
    assert a == q * n;
    if q < lo { assert q * n < lo * n; }
    if q > hi { assert q * n > hi * n; }
  }

  lemma DivSign(a: real, n: real)
    requires n > 0.0
    ensures a >= 0.0 ==> Div(a, n) >= 0.0
    ensures a > 0.0 ==> Div(a, n) > 0.0
  {
  }

  /** A mean that skips missing values stays within the range of the present ones. */
  lemma MeanSkipNaBounds(lo: real, xs: seq<Option<real>>, hi: real)
    requires forall i :: 0 <= i < |xs| && xs[i].Some? ==> lo <= xs[i].value <= hi
    ensures MeanSkipNa(xs).Some? ==> lo <= MeanSkipNa(xs).value <= hi
  {
    var p := Present(xs);
    if p != [] {
      assert Between(lo, p, hi) by {
        forall k | 0 <= k < |p|
          ensures lo <= p[k] <= hi
        {
          assert p[k] in p;
          assert Some(p[k]) in xs;
        }
      }
      MeanBounds(lo, p, hi);
    }
  }

  /** Averaging copies of one value gives that value back. */
  lemma MeanOfConstant(xs: seq<real>, v: real)
    requires xs != [] && forall i :: 0 <= i < |xs| ==> xs[i] == v
    ensures Mean(xs) == v
  {
    MeanBounds(v, xs, v);
  }

  lemma {:induction false} SumScaled(c: real, xs: seq<real>)
    ensures Sum(Scaled(c, xs)) == c * Sum(xs)
  {
    if xs != [] {
      SumScaled(c, xs[1..]);
    }
  }

  lemma {:induction false} SumSquaresDoubled(xs: seq<real>, m: real)
    ensures SumSquares(Scaled(2.0, xs), 2.0 * m) == 4.0 * SumSquares(xs, m)
  {
    if xs != [] {
      SumSquaresDoubled(xs[1..], m);
      assert 2.0 * xs[0] - 2.0 * m == 2.0 * (xs[0] - m);
      SqDoubled(xs[0] - m);
    }
  }

  lemma SqDoubled(d: real)
    ensures Sq(2.0 * d) == 4.0 * Sq(d)
  {
  }

  lemma MeanDoubled(xs: seq<real>)
    requires xs != []
    ensures Mean(Scaled(2.0, xs)) == 2.0 * Mean(xs)
  {
    var n := |xs| as real;
    SumScaled(2.0, xs);
    ScaleDiv(Sum(xs), n);
  }

  lemma SumSquaresDoubledAtMean(xs: seq<real>)
    requires xs != []
    ensures SumSquares(Scaled(2.0, xs), Mean(Scaled(2.0, xs))) == 4.0 * SumSquares(xs, Mean(xs))
  {
    MeanDoubled(xs);
    SumSquaresDoubled(xs, Mean(xs));
  }

  /** Doubling every value multiplies the sample variance by four. */
  lemma SampleVarDoubled(xs: seq<real>)
    requires |xs| >= 2
    ensures SampleVar(Scaled(2.0, xs)).value == 4.0 * SampleVar(xs).value
  {
    var ys := Scaled(2.0, xs);
    SumSquaresDoubledAtMean(xs);
    QuadrupleDiv(SumSquares(ys, Mean(ys)), SumSquares(xs, Mean(xs)), (|xs| - 1) as real);
  }

  lemma QuadrupleDiv(a: real, b: real, n: real)
    requires n != 0.0 && a == 4.0 * b
    ensures Div(a, n) == 4.0 * Div(b, n)
  {
  }

  lemma ScaleDiv(b: real, n: real)
    requires n != 0.0
    ensures Div(2.0 * b, n) == 2.0 * Div(b, n)
  {
  }

  lemma SqSign(d: real)
    ensures Sq(d) >= 0.0
    ensures d != 0.0 ==> Sq(d) > 0.0
  {
    if d > 0.0 {
      calc {
        Sq(d);
      == d * d;
      >  { PositiveProduct(d, d); }
        0.0;
      }
    } else if d < 0.0 {
      calc {
        Sq(d);
      == (-d) * (-d);
      >  { PositiveProduct(-d, -d); }
        0.0;
      }
    }
  }

  lemma PositiveProduct(a: real, b: real)
    requires a > 0.0 && b > 0.0
    ensures a * b > 0.0
  {
  }

  lemma {:induction false} SumSquaresNonNegative(xs: seq<real>, m: real)
    ensures SumSquares(xs, m) >= 0.0
    ensures (exists i :: 0 <= i < |xs| && xs[i] != m) ==> SumSquares(xs, m) > 0.0
  {
    if xs != [] {
      SumSquaresNonNegative(xs[1..], m);
      SqSign(xs[0] - m);
      if xs[0] == m && exists i :: 0 <= i < |xs| && xs[i] != m {
        var i :| 0 <= i < |xs| && xs[i] != m;
        assert xs[1..][i - 1] != m;
      }
    }
  }

  /** A sample variance is never negative, and is zero only for a constant column. */
  lemma SampleVarSign(xs: seq<real>)
    requires |xs| >= 2
    ensures SampleVar(xs).value >= 0.0
    ensures (exists i, j :: 0 <= i < |xs| && 0 <= j < |xs| && xs[i] != xs[j]) ==> SampleVar(xs).value > 0.0
  {
    var m := Mean(xs);
    SumSquaresNonNegative(xs, m);
    if exists i, j :: 0 <= i < |xs| && 0 <= j < |xs| && xs[i] != xs[j] {
      var i, j :| 0 <= i < |xs| && 0 <= j < |xs| && xs[i] != xs[j];
      assert xs[i] != m || xs[j] != m;
    }
    DivSign(SumSquares(xs, m), (|xs| - 1) as real);
  }

  lemma {:induction false} SumSquaresAtConstant(xs: seq<real>, v: real)
    requires forall i :: 0 <= i < |xs| ==> xs[i] == v
    ensures SumSquares(xs, v) == 0.0
  {
    if xs != [] {
      SumSquaresAtConstant(xs[1..], v);
    }
  }

  /** A sample variance is zero exactly when every value is the first one. */
  lemma SampleVarZero(xs: seq<real>)
    requires |xs| >= 2
    ensures SampleVar(xs).value == 0.0 <==> forall i :: 0 <= i < |xs| ==> xs[i] == xs[0]
  {
    SampleVarSign(xs);
    if forall i :: 0 <= i < |xs| ==> xs[i] == xs[0] {
      MeanOfConstant(xs, xs[0]);
      SumSquaresAtConstant(xs, xs[0]);
    } else {
      var i :| 0 <= i < |xs| && xs[i] != xs[0];
      assert xs[i] != xs[0];
    }
  }

  /** Appending a cell appends its value when it is present. */
  lemma {:induction false} PresentSnoc(xs: seq<Option<real>>, x: Option<real>)
    ensures Present(xs + [x]) == Present(xs) + (if x.Some? then [x.value] else [])
  {
    if xs != [] {
      assert (xs + [x])[1..] == xs[1..] + [x];
      PresentSnoc(xs[1..], x);
    }
  }

  /** With nothing missing, the present values are the cells' values, one for one. */
  lemma {:induction false} PresentAllSome(xs: seq<Option<real>>)
    requires forall i :: 0 <= i < |xs| ==> xs[i].Some?
    ensures |Present(xs)| == |xs|
    ensures forall i :: 0 <= i < |xs| ==> Present(xs)[i] == xs[i].value
  {
    if xs != [] {
      PresentAllSome(xs[1..]);
      forall i | 0 <= i < |xs|
        ensures Present(xs)[i] == xs[i].value
      {
        if i > 0 {
          assert Present(xs)[i] == Present(xs[1..])[i - 1];
        }
      }
    }
  }

  function MinOf(xs: seq<real>): (r: real)
    requires xs != []
    ensures r in xs && forall i :: 0 <= i < |xs| ==> r <= xs[i]
  {
    if |xs| == 1 then xs[0]
    else var m := MinOf(xs[1..]); if xs[0] <= m then xs[0] else m
  }

  function MaxOf(xs: seq<real>): (r: real)
    requires xs != []
    ensures r in xs && forall i :: 0 <= i < |xs| ==> xs[i] <= r
  {
    if |xs| == 1 then xs[0]
    else var m := MaxOf(xs[1..]); if xs[0] >= m then xs[0] else m
  }

  predicate Sorted(xs: seq<real>) {
    forall i, j :: 0 <= i < j < |xs| ==> xs[i] <= xs[j]
  }

  function InsertSorted(s: seq<real>, x: real): (r: seq<real>)
    requires Sorted(s)
    ensures Sorted(r) && multiset(r) == multiset(s) + multiset{x} && |r| == |s| + 1
    ensures r[0] == x || (s != [] && r[0] == s[0])
  {
    if s == [] then [x]
    else if x <= s[0] then SortedCons(x, s); [x] + s
    else
      var t := InsertSorted(s[1..], x);
      SortedCons(s[0], t);
      assert s == [s[0]] + s[1..];
      [s[0]] + t
  }

  lemma SortedCons(h: real, t: seq<real>)
    requires Sorted(t) && (t != [] ==> h <= t[0])
    ensures Sorted([h] + t)
  {
    var r := [h] + t;
    forall i, j | 0 <= i < j < |r|
      ensures r[i] <= r[j]
    {
      if i == 0 {
        assert r[j] == t[j - 1] && t[0] <= t[j - 1];
      } else {
        assert r[i] == t[i - 1] && r[j] == t[j - 1];
      }
    }
  }

  /** The values in ascending order (a permutation of the input). */
  function Sort(xs: seq<real>): (r: seq<real>)
    ensures Sorted(r) && multiset(r) == multiset(xs) && |r| == |xs|
  {
    if xs == [] then []
    else
      assert xs == xs[..|xs| - 1] + [xs[|xs| - 1]];
      InsertSorted(Sort(xs[..|xs| - 1]), xs[|xs| - 1])
  }

  /** numpy's median: the middle value, or the mean of the two middle values. */
  function Median(xs: seq<real>): real
    requires xs != []
  {
    var s := Sort(xs);
    var n := |s|;
    if n % 2 == 1 then s[n / 2] else (s[n / 2 - 1] + s[n / 2]) / 2.0
  }

  /** The median lies between the smallest and the largest value. */
  lemma MedianBounds(xs: seq<real>)
    requires xs != []
    ensures MinOf(xs) <= Median(xs) <= MaxOf(xs)
  {
    var s := Sort(xs);
    forall k | 0 <= k < |s| ensures MinOf(xs) <= s[k] <= MaxOf(xs) {
      assert s[k] in multiset(xs);
    }
  }

  /** Python's `int(x)` on a float: truncation toward zero. */
  function Trunc(x: real): (r: int)
    ensures x >= 0.0 ==> r as real <= x < r as real + 1.0
    ensures x < 0.0 ==> r as real - 1.0 < x <= r as real
  {
    if x >= 0.0 then x.Floor else -((-x).Floor)
  }

  lemma TruncMonotone(x: real, y: real)
    requires x <= y
    ensures Trunc(x) <= Trunc(y)
  {
  }

  /** One bar of a histogram: a distinct value and how often it occurs. */
  datatype Bin = Bin(key: real, count: nat)

  predicate Ascending(h: seq<Bin>) {
    forall i, j :: 0 <= i < j < |h| ==> h[i].key < h[j].key
  }

  function TotalCount(h: seq<Bin>): nat {
    if h == [] then 0 else h[0].count + TotalCount(h[1..])
  }

  /** The count recorded for `x`, or 0 when `x` is not a key. */
  function CountOf(h: seq<Bin>, x: real): nat {
    if h == [] then 0 else if h[0].key == x then h[0].count else CountOf(h[1..], x)
  }

  predicate Positive(h: seq<Bin>) {
    forall i :: 0 <= i < |h| ==> h[i].count > 0
  }

  /** Records one more occurrence of `x`, keeping the keys ascending. */
  function AddOne(h: seq<Bin>, x: real): (r: seq<Bin>)
    requires Ascending(h) && Positive(h)
    ensures Ascending(r) && Positive(r) && r != []
    ensures r[0].key == x || (h != [] && r[0].key == h[0].key)
  {
    if h == [] then [Bin(x, 1)]
    else if x < h[0].key then [Bin(x, 1)] + h
    else if x == h[0].key then [Bin(x, h[0].count + 1)] + h[1..]
    else
      var t := AddOne(h[1..], x);
      assert forall i :: 0 <= i < |t| ==> h[0].key < t[i].key by {
        forall i | 0 <= i < |t| ensures h[0].key < t[i].key {
          assert h[0].key < t[0].key;
          if i > 0 { assert t[0].key < t[i].key; }
        }
      }
      [h[0]] + t
  }

  lemma {:induction false} AddOneCounts(h: seq<Bin>, x: real)
    requires Ascending(h) && Positive(h)
    ensures TotalCount(AddOne(h, x)) == TotalCount(h) + 1
    ensures forall y :: CountOf(AddOne(h, x), y) == CountOf(h, y) + (if y == x then 1 else 0)
  {
    if h != [] {
      if x < h[0].key {
        CountAbsentBelow(h, x);
      } else if x > h[0].key {
        AddOneCounts(h[1..], x);
      }
    }
  }

  lemma {:induction false} CountAbsentBelow(h: seq<Bin>, x: real)
    requires Ascending(h) && h != [] && x < h[0].key
    ensures CountOf(h, x) == 0
  {
    if |h| > 1 { CountAbsentBelow(h[1..], x); }
  }

  /** pandas `value_counts().sort_index()`: distinct values ascending with their counts. */
  function Histogram(xs: seq<real>): (h: seq<Bin>)
    ensures Ascending(h) && Positive(h)
    ensures TotalCount(h) == |xs|
    ensures forall y :: CountOf(h, y) == multiset(xs)[y]
  {
    if xs == [] then []
    else
      var init := xs[..|xs| - 1];
      assert xs == init + [xs[|xs| - 1]];
      AddOneCounts(Histogram(init), xs[|xs| - 1]);
      AddOne(Histogram(init), xs[|xs| - 1])
  }

  /** The keys of a histogram, in its order. */
  function Keys(h: seq<Bin>): (r: seq<real>)
    ensures |r| == |h| && forall i :: 0 <= i < |h| ==> r[i] == h[i].key
  {
    seq(|h|, i requires 0 <= i < |h| => h[i].key)
  }

  /** In a histogram of positive counts, a value has a count exactly when it is a key. */
  lemma {:induction false} CountOfKey(h: seq<Bin>, y: real)
    requires Positive(h)
    ensures CountOf(h, y) > 0 <==> y in Keys(h)
  {
    if h != [] {
      CountOfKey(h[1..], y);
      assert Keys(h) == [h[0].key] + Keys(h[1..]);
    }
  }

  /** `sorted(xs.unique())`: each distinct value once, ascending. */
  function SortedUnique(xs: seq<real>): (r: seq<real>)
    ensures forall i, j :: 0 <= i < j < |r| ==> r[i] < r[j]
    ensures forall y :: y in r <==> y in xs
  {
    var h := Histogram(xs);
    forall y ensures y in Keys(h) <==> y in xs {
      CountOfKey(h, y);
    }
    Keys(h)
  }
}
