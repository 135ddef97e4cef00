/**
 * The analysis script correlation.py: construct scores as row means over
 * named item lists, Cronbach's alpha per construct, the p-value matrix of
 * the pairwise correlation tests, and the age bands of research question 1.
 */
module Correlation {
  import opened Wrappers
  import opened Text
  import Stats
  import opened Frame
  import opened Questionnaire

  // ---------------------------------------------------------------------------
  // Required columns

  /** The `ValueError` of `require_columns`: the label, the absent columns and the first existing ones. */
  datatype ColumnsError = MissingColumns(scaleLabel: string, missing: seq<string>, shown: seq<string>)

  /** The first (at most) fifteen column names, as the error message shows them. */
  function Shown(t: Table): (r: seq<string>)
    ensures |r| <= 15 && |r| <= |t.names| && r == t.names[..|r|]
    ensures |t.names| >= 15 ==> |r| == 15
  {
    if |t.names| <= 15 then t.names else t.names[..15]
  }

  /** `require_columns`: fails exactly when a listed column is absent, naming all absent ones in list order. */
  function RequireColumns(t: Table, cols: seq<string>, name: string): (r: Outcome<ColumnsError>)
    ensures r.Pass? <==> forall k :: 0 <= k < |cols| ==> cols[k] in t.cols
    ensures r.Fail? ==> r.error.scaleLabel == name && r.error.shown == Shown(t)
    ensures r.Fail? ==> r.error.missing != [] && forall c :: c in r.error.missing <==> c in cols && c !in t.cols
    ensures r.Fail? ==> r.error.missing == Filter(cols, AbsentMask(t, cols))
  {
    var missing := AbsentColumns(t, cols);
    if missing != [] then Fail(MissingColumns(name, missing, Shown(t))) else Pass
  }

  // ---------------------------------------------------------------------------
  // Construct scores

  /**
   * `row_mean`: after the column check, the per-row mean of the listed items
   * coerced to numbers, skipping missing cells.
   */
  function RowMean(t: Table, cols: seq<string>, name: string): (r: Result<seq<Option<real>>, ColumnsError>)
    requires t.Valid()
    ensures r.Err? <==> RequireColumns(t, cols, name).Fail?
    ensures r.Err? ==> r.error == RequireColumns(t, cols, name).error
    ensures r.Ok? ==> |r.value| == t.height
    ensures r.Ok? ==> forall i :: 0 <= i < t.height ==>
      r.value[i] == Stats.MeanSkipNa(NumericColumn(RowCells(t, cols, i)))
  {
    var check := RequireColumns(t, cols, name);
    if check.Fail? then Err(check.error) else Ok(RowMeans(t, cols))
  }

  /** A row's score is missing exactly when none of its items reads as a number. */
  lemma RowMeanMissing(t: Table, cols: seq<string>, name: string, i: nat)
    requires t.Valid() && RowMean(t, cols, name).Ok? && i < t.height
    ensures RowMean(t, cols, name).value[i].None? <==>
      forall k :: 0 <= k < |cols| ==> ToNumeric(t.cols[cols[k]][i]).None?
  {
    var cells := RowCells(t, cols, i);
    assert forall k :: 0 <= k < |cols| ==> NumericColumn(cells)[k] == ToNumeric(t.cols[cols[k]][i]);
  }

  /** A row's score lies within the range of the item answers it averages. */
  lemma RowMeanBounds(t: Table, cols: seq<string>, name: string, i: nat, lo: real, hi: real)
    requires t.Valid() && RowMean(t, cols, name).Ok? && i < t.height
    requires forall k :: 0 <= k < |cols| && ToNumeric(t.cols[cols[k]][i]).Some? ==>
      lo <= ToNumeric(t.cols[cols[k]][i]).value <= hi
    ensures RowMean(t, cols, name).value[i].Some? ==> lo <= RowMean(t, cols, name).value[i].value <= hi
  {
    var xs := NumericColumn(RowCells(t, cols, i));
    assert forall k :: 0 <= k < |cols| ==> xs[k] == ToNumeric(t.cols[cols[k]][i]);
    Stats.MeanSkipNaBounds(lo, xs, hi);
  }

  // ---------------------------------------------------------------------------
  // Cronbach's alpha, on the item columns coerced to numbers

  /** Item columns of one common height. */
  predicate Rectangular(x: seq<seq<Option<real>>>, h: nat) {
    forall k :: 0 <= k < |x| ==> |x[k]| == h
  }

  /** `data[cols].apply(pd.to_numeric, errors="coerce")`, column by column. */
  function NumericItems(t: Table, cols: seq<string>): (x: seq<seq<Option<real>>>)
    requires t.Valid() && forall k :: 0 <= k < |cols| ==> cols[k] in t.cols
    ensures |x| == |cols| && Rectangular(x, t.height)
    ensures forall k, i :: 0 <= k < |cols| && 0 <= i < t.height ==> x[k][i] == ToNumeric(t.cols[cols[k]][i])
  {
    seq(|cols|, k requires 0 <= k < |cols| => NumericColumn(t.cols[cols[k]]))
  }

  /** The values of row `i` across the items. */
  function RowOf(x: seq<seq<Option<real>>>, h: nat, i: nat): (r: seq<Option<real>>)
    requires Rectangular(x, h) && i < h
    ensures |r| == |x| && forall k :: 0 <= k < |x| ==> r[k] == x[k][i]
  {
    seq(|x|, k requires 0 <= k < |x| => x[k][i])
  }

  /** Per row: whether any item is present (the rows `dropna(how="all")` keeps). */
  function AnyPresentMask(x: seq<seq<Option<real>>>, h: nat): (r: seq<bool>)
    requires Rectangular(x, h)
    ensures |r| == h
    ensures forall i :: 0 <= i < h ==> (r[i] <==> exists k :: 0 <= k < |x| && x[k][i].Some?)
  {
    seq(h, i requires 0 <= i < h => Stats.Present(RowOf(x, h, i)) != [])
  }

  /** The number of rows left after dropping the rows with every item missing. */
  function Retained(x: seq<seq<Option<real>>>, h: nat): nat
    requires Rectangular(x, h)
  {
    |Kept(AnyPresentMask(x, h))|
  }

  /** `X.dropna(how="all")`: each item column keeps the rows with some item present. */
  function DropAllMissing(x: seq<seq<Option<real>>>, h: nat): (y: seq<seq<Option<real>>>)
    requires Rectangular(x, h)
    ensures |y| == |x| && Rectangular(y, Retained(x, h))
    ensures forall k :: 0 <= k < |x| ==> y[k] == Filter(x[k], AnyPresentMask(x, h))
  {
    seq(|x|, k requires 0 <= k < |x| => Filter(x[k], AnyPresentMask(x, h)))
  }

  /** `Series.var(ddof=1)` of one item: over its present values, undefined below two. */
  function ItemVariance(c: seq<Option<real>>): Option<real> {
    Stats.SampleVar(Stats.Present(c))
  }

  /** `item_vars.sum()`: undefined item variances are skipped. */
  function ItemVarSum(x: seq<seq<Option<real>>>): real {
    if x == [] then 0.0
    else (if ItemVariance(x[0]).Some? then ItemVariance(x[0]).value else 0.0) + ItemVarSum(x[1..])
  }

  /** `X.sum(axis=1)`: per row, the sum of the present items (missing items add nothing). */
  function RowSums(x: seq<seq<Option<real>>>, h: nat): (r: seq<real>)
    requires Rectangular(x, h)
    ensures |r| == h && forall i :: 0 <= i < h ==> r[i] == Stats.Sum(Stats.Present(RowOf(x, h, i)))
  {
    seq(h, i requires 0 <= i < h => Stats.Sum(Stats.Present(RowOf(x, h, i))))
  }

  /** `X.sum(axis=1).var(ddof=1)` on the rows left by `dropna(how="all")`. */
  function TotalVariance(x: seq<seq<Option<real>>>, h: nat): Option<real>
    requires Rectangular(x, h)
  {
    Stats.SampleVar(RowSums(DropAllMissing(x, h), Retained(x, h)))
  }

  /** The alpha formula `(k / (k - 1)) * (1 - itemVarSum / totalVar)`. */
  function Alpha(k: nat, itemVarSum: real, totalVar: real): real
    requires k >= 2 && totalVar != 0.0
  {
    Stats.Div(k as real, (k - 1) as real) * (1.0 - Stats.Div(itemVarSum, totalVar))
  }

  /**
   * `cronbach_alpha` after the column check: undefined (NaN) for fewer than
   * two items, for fewer than three rows with any answer, and for a zero or
   * undefined variance of the row sums.
   */
  function AlphaOf(x: seq<seq<Option<real>>>, h: nat): (r: Option<real>)
    requires Rectangular(x, h)
    ensures r.Some? ==> |x| >= 2 && Retained(x, h) >= 3
  {
    if |x| < 2 then None
    else if Retained(x, h) < 3 then None
    else
      var totalVar := TotalVariance(x, h);
      if totalVar.None? || totalVar.value == 0.0 then None
      else Some(Alpha(|x|, ItemVarSum(DropAllMissing(x, h)), totalVar.value))
  }

  /** `cronbach_alpha(data, cols, name)`: the column check, then alpha on the coerced items. */
  function CronbachAlpha(t: Table, cols: seq<string>, name: string): (r: Result<Option<real>, ColumnsError>)
    requires t.Valid()
    ensures r.Err? <==> RequireColumns(t, cols, name).Fail?
    ensures r.Err? ==> r.error == RequireColumns(t, cols, name).error
    ensures r.Ok? ==> r.value == AlphaOf(NumericItems(t, cols), t.height)
  {
    var check := RequireColumns(t, cols, name);
    if check.Fail? then Err(check.error) else Ok(AlphaOf(NumericItems(t, cols), t.height))
  }

  predicate Constant(xs: seq<real>) {
    forall i :: 0 <= i < |xs| ==> xs[i] == xs[0]
  }

  /**
   * Alpha is undefined exactly for fewer than two items, fewer than three
   * answered rows, or row sums that are all equal; the guard against an
   * undefined total variance never fires, since three rows always have one.
   */
  lemma AlphaUndefined(x: seq<seq<Option<real>>>, h: nat)
    requires Rectangular(x, h)
    ensures AlphaOf(x, h).None? <==>
      |x| < 2 || Retained(x, h) < 3 || Constant(RowSums(DropAllMissing(x, h), Retained(x, h)))
  {
    if |x| >= 2 && Retained(x, h) >= 3 {
      Stats.SampleVarZero(RowSums(DropAllMissing(x, h), Retained(x, h)));
    }
  }

  lemma {:induction false} ItemVarSumNonNegative(x: seq<seq<Option<real>>>)
    ensures ItemVarSum(x) >= 0.0
  {
    if x != [] {
      ItemVarSumNonNegative(x[1..]);
      if ItemVariance(x[0]).Some? {
        Stats.SampleVarSign(Stats.Present(x[0]));
      }
    }
  }

  /** With `c > 0` and `d >= 0`, `c * (1 - d)` does not exceed `c`. */
  lemma ShrinkFactor(c: real, d: real)
    requires c > 0.0 && d >= 0.0
    ensures c * (1.0 - d) <= c
  {
    assert c * (1.0 - d) == c - c * d;
    if d > 0.0 {
      Stats.PositiveProduct(c, d);
    }
  }

  /** The formula never exceeds `k / (k - 1)` when the variances are non-negative and the total one positive. */
  lemma AlphaFormulaAtMost(k: nat, itemVarSum: real, totalVar: real)
    requires k >= 2 && itemVarSum >= 0.0 && totalVar > 0.0
    ensures Alpha(k, itemVarSum, totalVar) <= Stats.Div(k as real, (k - 1) as real)
  {
    Stats.DivSign(itemVarSum, totalVar);
    Stats.DivSign(k as real, (k - 1) as real);
    ShrinkFactor(Stats.Div(k as real, (k - 1) as real), Stats.Div(itemVarSum, totalVar));
  }

  /** Alpha never exceeds `k / (k - 1)`. */
  lemma AlphaAtMost(x: seq<seq<Option<real>>>, h: nat)
    requires Rectangular(x, h) && AlphaOf(x, h).Some?
    ensures |x| >= 2
    ensures AlphaOf(x, h).value <= Stats.Div(|x| as real, (|x| - 1) as real)
  {
    var y := DropAllMissing(x, h);
    var tv := TotalVariance(x, h).value;
    assert AlphaOf(x, h).value == Alpha(|x|, ItemVarSum(y), tv);
    Stats.SampleVarSign(RowSums(y, Retained(x, h)));
    ItemVarSumNonNegative(y);
    AlphaFormulaAtMost(|x|, ItemVarSum(y), tv);
  }

  /** Dropping the all-missing rows leaves every item's variance as it was. */
  lemma DropKeepsItemVariance(x: seq<seq<Option<real>>>, h: nat, k: nat)
    requires Rectangular(x, h) && k < |x|
    ensures ItemVariance(DropAllMissing(x, h)[k]) == ItemVariance(x[k])
  {
    var mask := AnyPresentMask(x, h);
    assert forall i :: 0 <= i < h && !mask[i] ==> x[k][i].None?;
    PresentFilter(x[k], mask);
  }

  /** An item column taken twice. */
  function Twice(c: seq<Option<real>>): (x: seq<seq<Option<real>>>)
    ensures |x| == 2 && x[0] == c && x[1] == c && Rectangular(x, |c|)
  {
    [c, c]
  }

  /** On an item taken twice, `dropna(how="all")` keeps the rows where the item is present. */
  lemma TwinMask(c: seq<Option<real>>)
    ensures forall i :: 0 <= i < |c| ==> (AnyPresentMask(Twice(c), |c|)[i] <==> c[i].Some?)
  {
    var x := Twice(c);
    assert x[0] == c && x[1] == c;
  }

  /**
   * Both copies of an item taken twice become `y` after `dropna(how="all")`;
   * its cells are the item's present values, in order.
   */
  lemma TwinDrop(c: seq<Option<real>>) returns (y: seq<Option<real>>)
    ensures DropAllMissing(Twice(c), |c|) == Twice(y)
    ensures Retained(Twice(c), |c|) == |y| == |Stats.Present(c)|
    ensures Stats.Present(y) == Stats.Present(c)
    ensures forall i :: 0 <= i < |y| ==> y[i].Some?
  {
    var mask := AnyPresentMask(Twice(c), |c|);
    TwinMask(c);
    y := Filter(c, mask);
    var d := DropAllMissing(Twice(c), |c|);
    assert d[0] == y && d[1] == y;
    assert d == Twice(y);
    PresentFilter(c, mask);
    Stats.PresentAllSome(y);
  }

  lemma PairSum(v: real)
    ensures Stats.Sum(Stats.Present([Some(v), Some(v)])) == 2.0 * v
  {
    var two := [Some(v), Some(v)];
    assert two[1..] == [Some(v)];
    assert [Some(v)][1..] == [];
    assert Stats.Present([Some(v)]) == [v];
    assert Stats.Present(two) == [v, v];
    assert [v, v][1..] == [v];
    assert [v][1..] == [];
    assert Stats.Sum([v]) == v;
  }

  lemma TwinRowSum(y: seq<Option<real>>, p: seq<real>, i: nat)
    requires |p| == |y| && i < |y| && y[i] == Some(p[i])
    ensures RowSums(Twice(y), |y|)[i] == 2.0 * p[i]
  {
    var row := RowOf(Twice(y), |y|, i);
    assert row[0] == Some(p[i]) && row[1] == Some(p[i]);
    assert row == [Some(p[i]), Some(p[i])];
    PairSum(p[i]);
  }

  /** The row sums of an item taken twice are its values doubled. */
  lemma TwinRowSums(y: seq<Option<real>>, p: seq<real>)
    requires |p| == |y| && forall i :: 0 <= i < |y| ==> y[i].Some? && y[i].value == p[i]
    ensures RowSums(Twice(y), |y|) == Stats.Scaled(2.0, p)
  {
    var r := RowSums(Twice(y), |y|);
    var d := Stats.Scaled(2.0, p);
    forall i | 0 <= i < |y|
      ensures r[i] == d[i]
    {
      TwinRowSum(y, p, i);
    }
  }

  lemma TwinItemVarSum(y: seq<Option<real>>)
    ensures ItemVarSum(Twice(y)) == 2.0 * (if ItemVariance(y).Some? then ItemVariance(y).value else 0.0)
  {
    var one := if ItemVariance(y).Some? then ItemVariance(y).value else 0.0;
    assert Twice(y)[1..] == [y];
    assert [y][1..] == [];
    assert ItemVarSum([y]) == one + ItemVarSum([]);
    assert ItemVarSum(Twice(y)) == one + ItemVarSum([y]);
  }

  lemma HalfQuotient(v: real)
    requires v > 0.0
    ensures Stats.Div(2.0 * v, 4.0 * v) == 0.5
  {
    assert 2.0 * v == 0.5 * (4.0 * v);
  }

  lemma ConstantDoubled(p: seq<real>)
    ensures Constant(Stats.Scaled(2.0, p)) <==> Constant(p)
  {
  }

  /** For an item taken twice, the total variance is that of its doubled values. */
  lemma TwinVariances(c: seq<Option<real>>, y: seq<Option<real>>)
    requires DropAllMissing(Twice(c), |c|) == Twice(y) && Retained(Twice(c), |c|) == |y|
    requires Stats.Present(y) == Stats.Present(c) && forall i :: 0 <= i < |y| ==> y[i].Some?
    ensures TotalVariance(Twice(c), |c|) == Stats.SampleVar(Stats.Scaled(2.0, Stats.Present(c)))
    ensures ItemVarSum(Twice(y)) == 2.0 * (if ItemVariance(y).Some? then ItemVariance(y).value else 0.0)
    ensures ItemVariance(y) == Stats.SampleVar(Stats.Present(c))
  {
    Stats.PresentAllSome(y);
    TwinRowSums(y, Stats.Present(c));
    TwinItemVarSum(y);
  }

  /**
   * Two identical item columns: alpha is 1 when the item has at least three
   * present values that are not all equal, and undefined otherwise.
   */
  lemma IdenticalItems(c: seq<Option<real>>)
    ensures var p := Stats.Present(c);
      AlphaOf([c, c], |c|) == if |p| < 3 || Constant(p) then None else Some(1.0)
  {
    var p := Stats.Present(c);
    assert [c, c] == Twice(c);
    if |p| < 3 {
      IdenticalFew(c);
    } else if Constant(p) {
      IdenticalConstant(c);
    } else {
      IdenticalVarying(c);
    }
  }

  /** The three quantities alpha reads, for an item taken twice. */
  lemma TwinFacts(c: seq<Option<real>>)
    ensures Retained(Twice(c), |c|) == |Stats.Present(c)|
    ensures TotalVariance(Twice(c), |c|) == Stats.SampleVar(Stats.Scaled(2.0, Stats.Present(c)))
    ensures |Stats.Present(c)| >= 2 ==>
      ItemVarSum(DropAllMissing(Twice(c), |c|)) == 2.0 * Stats.SampleVar(Stats.Present(c)).value
  {
    var y := TwinDrop(c);
    TwinVariances(c, y);
  }

  lemma IdenticalFew(c: seq<Option<real>>)
    requires |Stats.Present(c)| < 3
    ensures AlphaOf(Twice(c), |c|) == None
  {
    TwinFacts(c);
  }

  lemma IdenticalConstant(c: seq<Option<real>>)
    requires |Stats.Present(c)| >= 3 && Constant(Stats.Present(c))
    ensures AlphaOf(Twice(c), |c|) == None
  {
    var p := Stats.Present(c);
    TwinFacts(c);
    ConstantDoubled(p);
    Stats.SampleVarZero(Stats.Scaled(2.0, p));
  }

  lemma IdenticalVarying(c: seq<Option<real>>)
    requires |Stats.Present(c)| >= 3 && !Constant(Stats.Present(c))
    ensures AlphaOf(Twice(c), |c|) == Some(1.0)
  {
    var p := Stats.Present(c);
    TwinFacts(c);
    var v := Stats.SampleVar(p).value;
    var s := 2.0 * v;
    var tv := Stats.SampleVar(Stats.Scaled(2.0, p)).value;
    TwinVarianceValues(p);
    AlphaTwoItems(v, s, tv);
    AlphaArguments(Twice(c), |c|, 2, s, tv, 1.0);
  }

  /** A non-constant item has a positive variance, and doubling it quadruples the variance. */
  lemma TwinVarianceValues(p: seq<real>)
    requires |p| >= 3 && !Constant(p)
    ensures Stats.SampleVar(p).value > 0.0
    ensures Stats.SampleVar(Stats.Scaled(2.0, p)).value == 4.0 * Stats.SampleVar(p).value
  {
    Stats.SampleVarZero(p);
    Stats.SampleVarSign(p);
    Stats.SampleVarDoubled(p);
  }

  /** Two items of variance `v` whose sums have variance `4 v` have alpha 1. */
  lemma AlphaTwoItems(v: real, s: real, tv: real)
    requires v > 0.0 && s == 2.0 * v && tv == 4.0 * v
    ensures tv != 0.0 && Alpha(2, s, tv) == 1.0
  {
    calc {
      Alpha(2, s, tv);
    == { AlphaOfTwo(s, tv); }
      2.0 * (1.0 - Stats.Div(2.0 * v, 4.0 * v));
    == { HalfQuotient(v); }
      2.0 * (1.0 - 0.5);
    }
  }

  /** Alpha of a table depends only on the item count, the summed item variances and the total variance. */
  lemma AlphaArguments(x: seq<seq<Option<real>>>, h: nat, k: nat, s: real, tv: real, a: real)
    requires Rectangular(x, h) && |x| == k >= 2 && Retained(x, h) >= 3
    requires ItemVarSum(DropAllMissing(x, h)) == s
    requires TotalVariance(x, h) == Some(tv) && tv != 0.0 && Alpha(k, s, tv) == a
    ensures AlphaOf(x, h) == Some(a)
  {
  }

  lemma AlphaOfTwo(s: real, tv: real)
    requires tv != 0.0
    ensures Alpha(2, s, tv) == 2.0 * (1.0 - Stats.Div(s, tv))
  {
    assert Stats.Div(2.0, 1.0) == 2.0;
  }

  // ---------------------------------------------------------------------------
  // The p-value matrix of `corr_pvalues`

  /** Per row: whether items `a` and `b` are both present (`x.notna() & y.notna()`). */
  function PairMask(x: seq<seq<Option<real>>>, h: nat, a: nat, b: nat): (r: seq<bool>)
    requires Rectangular(x, h) && a < |x| && b < |x|
    ensures |r| == h && forall i :: 0 <= i < h ==> (r[i] <==> x[a][i].Some? && x[b][i].Some?)
  {
    seq(h, i requires 0 <= i < h => x[a][i].Some? && x[b][i].Some?)
  }

  /** The rows on which items `a` and `b` are both answered, ascending. */
  function PairedRows(x: seq<seq<Option<real>>>, h: nat, a: nat, b: nat): seq<nat>
    requires Rectangular(x, h) && a < |x| && b < |x|
  {
    Kept(PairMask(x, h, a, b))
  }

  /** `x[valid]`: item `a`'s values on the paired rows, in row order. */
  function PairedValues(x: seq<seq<Option<real>>>, h: nat, a: nat, b: nat): (r: seq<real>)
    requires Rectangular(x, h) && a < |x| && b < |x|
    ensures |r| == |PairedRows(x, h, a, b)|
    ensures forall q :: 0 <= q < |r| ==> x[a][PairedRows(x, h, a, b)[q]] == Some(r[q])
  {
    var rows := PairedRows(x, h, a, b);
    seq(|rows|, q requires 0 <= q < |rows| => x[a][rows[q]].value)
  }

  /** Both items of a pair are paired on the same rows, whichever comes first. */
  lemma PairedRowsSymmetric(x: seq<seq<Option<real>>>, h: nat, a: nat, b: nat)
    requires Rectangular(x, h) && a < |x| && b < |x|
    ensures PairedRows(x, h, a, b) == PairedRows(x, h, b, a)
  {
    assert PairMask(x, h, a, b) == PairMask(x, h, b, a);
  }

  /**
   * A cell of the p-value matrix. `pearsonr` is not modelled: a tested cell
   * records the two paired vectors the test receives. `One` is the value
   * `np.ones_like` starts every cell with.
   */
  datatype PCell = One | Undefined | Pearson(x: seq<real>, y: seq<real>)

  /**
   * One cell as the loops of `corr_pvalues` fill it: undefined on the
   * diagonal and for fewer than three paired rows, tested otherwise.
   */
  function PValueCell(x: seq<seq<Option<real>>>, h: nat, a: nat, b: nat): PCell
    requires Rectangular(x, h) && a < |x| && b < |x|
  {
    if a == b then Undefined
    else if |PairedRows(x, h, a, b)| < 3 then Undefined
    else Pearson(PairedValues(x, h, a, b), PairedValues(x, h, b, a))
  }

  /**
   * The diagonal is undefined; an off-diagonal cell is undefined exactly when
   * fewer than three rows pair up, and otherwise tests two equally long
   * vectors read from the same rows, which are the rows of the mirrored cell.
   */
  lemma PValueCellShape(x: seq<seq<Option<real>>>, h: nat, a: nat, b: nat)
    requires Rectangular(x, h) && a < |x| && b < |x|
    ensures PValueCell(x, h, a, a) == Undefined
    ensures a != b ==> (PValueCell(x, h, a, b) == Undefined <==> |PairedRows(x, h, a, b)| < 3)
    ensures PairedRows(x, h, a, b) == PairedRows(x, h, b, a)
    ensures PValueCell(x, h, a, b) != One
    ensures PValueCell(x, h, a, b).Pearson? ==>
      |PValueCell(x, h, a, b).x| == |PValueCell(x, h, a, b).y| == |PairedRows(x, h, a, b)| >= 3
  {
    PairedRowsSymmetric(x, h, a, b);
  }

  /**
   * The body of `corr_pvalues`' inner loop: the diagonal is skipped, a pair
   * with fewer than three jointly answered rows is undefined, any other is tested.
   */
  method PairCell(x: seq<seq<Option<real>>>, h: nat, i: nat, j: nat) returns (cell: PCell)
    requires Rectangular(x, h) && i < |x| && j < |x|
    ensures cell == PValueCell(x, h, i, j)
    ensures cell.Pearson? ==> |cell.x| == |cell.y| >= 3
  {
    if i == j {
      return Undefined;
    }
    var valid := PairMask(x, h, i, j);
    if |Kept(valid)| < 3 {
      cell := Undefined;
    } else {
      PairedRowsSymmetric(x, h, i, j);
      cell := Pearson(PairedValues(x, h, i, j), PairedValues(x, h, j, i));
    }
  }

  /** Every cell of the p-value matrix, row by row. */
  function PValueTable(x: seq<seq<Option<real>>>, h: nat): (r: seq<seq<PCell>>)
    requires Rectangular(x, h)
    ensures |r| == |x| && forall a :: 0 <= a < |x| ==> |r[a]| == |x|
  {
    seq(|x|, a requires 0 <= a < |x| => seq(|x|, b requires 0 <= b < |x| => PValueCell(x, h, a, b)))
  }

  lemma PValueTableCell(x: seq<seq<Option<real>>>, h: nat, a: nat, b: nat)
    requires Rectangular(x, h) && a < |x| && b < |x|
    ensures PValueTable(x, h)[a][b] == PValueCell(x, h, a, b)
  {
  }

  /** `corr_pvalues`' inner loop: row `i` of the matrix is filled, the other rows are left alone. */
  method FillRow(p: array2<PCell>, x: seq<seq<Option<real>>>, h: nat, i: nat, ghost want: seq<seq<PCell>>)
    requires Rectangular(x, h) && i < |x| && i < |want| && |want[i]| == |x|
    requires forall b :: 0 <= b < |x| ==> want[i][b] == PValueCell(x, h, i, b)
    requires p.Length0 == |x| && p.Length1 == |x| && i < |x|
    modifies p
    ensures forall b :: 0 <= b < |x| ==> p[i, b] == want[i][b]
    ensures forall a, b :: 0 <= a < |x| && a != i && 0 <= b < |x| ==> p[a, b] == old(p[a, b])
  {
    for j := 0 to |x|
      invariant forall b :: 0 <= b < j ==> p[i, b] == want[i][b]
      invariant forall a, b :: 0 <= a < |x| && a != i && 0 <= b < |x| ==> p[a, b] == old(p[a, b])
    {
      var cell := PairCell(x, h, i, j);
      p[i, j] := cell;
    }
  }

  /**
   * `corr_pvalues`' loops: every cell starts at one and is overwritten with
   * the diagonal marker, the too-few-rows marker or the test of the pair.
   */
  method PValueMatrix(x: seq<seq<Option<real>>>, h: nat) returns (p: array2<PCell>)
    requires Rectangular(x, h)
    ensures p.Length0 == |x| && p.Length1 == |x|
    ensures forall a, b :: 0 <= a < |x| && 0 <= b < |x| ==> p[a, b] == PValueCell(x, h, a, b)
  {
    ghost var want := PValueTable(x, h);
    p := new PCell[|x|, |x|]((_, _) => One);
    for i := 0 to |x|
      invariant forall a, b :: 0 <= a < i && 0 <= b < |x| ==> p[a, b] == want[a][b]
    {
      forall b | 0 <= b < |x|
        ensures want[i][b] == PValueCell(x, h, i, b)
      {
        PValueTableCell(x, h, i, b);
      }
      FillRow(p, x, h, i, want);
    }
    forall a, b | 0 <= a < |x| && 0 <= b < |x|
      ensures p[a, b] == PValueCell(x, h, a, b)
    {
      PValueTableCell(x, h, a, b);
    }
  }

  /** `corr_pvalues(df_in, cols)`: selecting an absent column raises pandas' `KeyError`. */
  method CorrPValues(t: Table, cols: seq<string>) returns (r: Result<array2<PCell>, KeyError>)
    requires t.Valid()
    ensures r.Err? <==> exists k :: 0 <= k < |cols| && cols[k] !in t.cols
    ensures r.Err? ==> r.error == KeyError(AbsentColumns(t, cols))
    ensures r.Ok? ==> r.value.Length0 == |cols| && r.value.Length1 == |cols|
    ensures r.Ok? ==> forall a, b :: 0 <= a < |cols| && 0 <= b < |cols| ==>
      r.value[a, b] == PValueCell(NumericItems(t, cols), t.height, a, b)
  {
    var absent := AbsentColumns(t, cols);
    if absent != [] {
      return Err(KeyError(absent));
    }
    var p := PValueMatrix(NumericItems(t, cols), t.height);
    return Ok(p);
  }

  // ---------------------------------------------------------------------------
  // Construct item lists

  /** The motivation items counted as autonomous (identified and intrinsic). */
  const AutonomousIdx: seq<nat> := [1, 3, 7, 8, 14, 15]
  /** The motivation items counted as controlled (external and introjected). */
  const ControlledIdx: seq<nat> := [2, 5, 6, 10, 12, 13, 16, 18, 19, 20]

  const AutonomousItems: seq<string> := Items("G04Q16", AutonomousIdx)
  const ControlledItems: seq<string> := Items("G04Q16", ControlledIdx)
  const UpskillingItems: seq<string> := Items("G05Q18", Range(1, 6))
  const ReskillingItems: seq<string> := Items("G05Q19", Range(1, 7))
  const UsefulnessItems: seq<string> := Items("G03Q14", Range(1, 11))

  /** The autonomous and controlled lists share no item; they hold 6 and 10 items. */
  lemma MotivationItemsDisjoint()
    ensures forall n :: n in AutonomousItems ==> n !in ControlledItems
    ensures |AutonomousItems| == 6 && |ControlledItems| == 10
  {
    ItemsDisjoint("G04Q16", AutonomousIdx, ControlledIdx);
  }

  /**
   * Neither list holds the attention check G04Q16[9] or the amotivation
   * items G04Q16[4], [11] and [17].
   */
  lemma MotivationItemsOmit(i: nat)
    requires i == 4 || i == 9 || i == 11 || i == 17
    ensures ItemName("G04Q16", i) !in AutonomousItems && ItemName("G04Q16", i) !in ControlledItems
  {
    ItemsMember("G04Q16", AutonomousIdx, i);
    ItemsMember("G04Q16", ControlledIdx, i);
  }

  /** The skilling and usefulness lists are the sub-questions 1..5, 1..6 and 1..10. */
  lemma RangeItemLists(i: nat)
    ensures ItemName("G05Q18", i) in UpskillingItems <==> 1 <= i <= 5
    ensures ItemName("G05Q19", i) in ReskillingItems <==> 1 <= i <= 6
    ensures ItemName("G03Q14", i) in UsefulnessItems <==> 1 <= i <= 10
  {
    ItemsMember("G05Q18", Range(1, 6), i);
    ItemsMember("G05Q19", Range(1, 7), i);
    ItemsMember("G03Q14", Range(1, 11), i);
    assert 1 <= i <= 5 ==> Range(1, 6)[i - 1] == i;
    assert 1 <= i <= 6 ==> Range(1, 7)[i - 1] == i;
    assert 1 <= i <= 10 ==> Range(1, 11)[i - 1] == i;
  }

  // ---------------------------------------------------------------------------
  // Age bands of research question 1

  const Younger: string := "younger_18_35"
  const Older: string := "older_45plus"
  /** What `np.where` makes of its `np.nan` branch beside text labels: the text "nan". */
  const NanText: string := "nan"

  /** The `age_group_rq1` label of one numeric age (missing ages compare false). */
  function AgeBand(age: Option<real>): (r: string)
    ensures r == Younger <==> age.Some? && 18.0 <= age.value <= 35.0
    ensures r == Older <==> age.Some? && age.value >= 45.0
    ensures r == Younger || r == Older || r == NanText
  {
    if age.Some? && 18.0 <= age.value <= 35.0 then Younger
    else if age.Some? && age.value >= 45.0 then Older
    else NanText
  }

  /**
   * The research-question-1 subset `isin([younger, older])` keeps a row
   * exactly when its age is in 18..35 or at least 45: ages strictly between
   * 35 and 45 and missing ages fall out.
   */
  lemma AgeBandSelected(age: Option<real>)
    ensures AgeBand(age) in [Younger, Older] <==>
      age.Some? && ((18.0 <= age.value <= 35.0) || age.value >= 45.0)
  {
  }
}
