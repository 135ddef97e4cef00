/**
 * Descriptive statistics per group (`descriptives_by_group`): for the
 * whole table and then for each value of the group column, one row per
 * target variable with its count, mean, median, spread and a confidence
 * interval of the mean.
 */
module Descriptives {
  import opened Wrappers
  import opened Text
  import opened Frame
  import Stats

  // ---------------------------------------------------------------------------
  // Confidence interval of the mean

  /** A confidence interval; both ends are missing (NaN) when it is undefined. */
  datatype Interval = Interval(low: Option<real>, high: Option<real>)

  /** The numeric, non-missing values of a column (`to_numeric(coerce).dropna()`). */
  function Values(c: Column): (r: seq<real>)
    ensures |r| <= |c|
    ensures forall v :: v in r <==> exists i :: 0 <= i < |c| && ToNumeric(c[i]) == Some(v)
  {
    var xs := NumericColumn(c);
    assert forall v :: Some(v) in xs <==> exists i :: 0 <= i < |c| && ToNumeric(c[i]) == Some(v) by {
      forall v ensures Some(v) in xs <==> exists i :: 0 <= i < |c| && ToNumeric(c[i]) == Some(v) {
        if Some(v) in xs {
          var i :| 0 <= i < |xs| && xs[i] == Some(v);
          assert ToNumeric(c[i]) == Some(v);
        }
      }
    }
    Stats.Present(xs)
  }

  /**
   * `mean_ci(series)`: undefined with fewer than two values, otherwise the
   * mean minus and plus the half-width. `halfWidth` stands for the critical
   * value of Student's t distribution times the standard error, which SciPy
   * computes from the values.
   */
  function MeanCI(series: Column, halfWidth: seq<real> -> real): (r: Interval)
    ensures r.low.None? <==> |Values(series)| < 2
    ensures r.high.None? <==> |Values(series)| < 2
    ensures |Values(series)| >= 2 ==>
      && r.high.value - r.low.value == 2.0 * halfWidth(Values(series))
      && Stats.Mean(Values(series)) - r.low.value == r.high.value - Stats.Mean(Values(series))
  {
    var x := Values(series);
    if |x| < 2 then Interval(None, None)
    else
      var m, half := Stats.Mean(x), halfWidth(x);
      Interval(Some(m - half), Some(m + half))
  }

  /** With a non-negative half-width the interval contains the mean. */
  lemma MeanCIContainsMean(series: Column, halfWidth: seq<real> -> real)
    requires |Values(series)| >= 2 && halfWidth(Values(series)) >= 0.0
    ensures var r := MeanCI(series, halfWidth);
      r.low.value <= Stats.Mean(Values(series)) <= r.high.value
  {
  }

  // ---------------------------------------------------------------------------
  // One row per variable

  /**
   * One row of the result. `variance` is the sample variance whose square
   * root is reported as `std`.
   */
  datatype SummaryRow = SummaryRow(group: string, variable: string, n: nat, mean: Option<real>,
                                   median: Option<real>, variance: Option<real>, ci: Interval)

  /**
   * The row of variable `v` in `sub`: `n` counts its numeric values; mean
   * and median need one of them, the spread two.
   */
  function Describe(sub: Table, group: string, v: string, halfWidth: seq<real> -> real): (r: SummaryRow)
    requires sub.Valid() && v in sub.cols
    ensures var x := Values(sub.cols[v]);
      && r.group == group && r.variable == v && r.n == |x| <= sub.height
      && (r.mean.None? <==> r.n == 0) && (r.median.None? <==> r.n == 0)
      && (r.variance.None? <==> r.n <= 1)
      && (r.n > 0 ==>
            && Stats.MinOf(x) <= r.mean.value <= Stats.MaxOf(x)
            && Stats.MinOf(x) <= r.median.value <= Stats.MaxOf(x))
      && (r.n > 0 ==> r.mean == Some(Stats.Mean(x)) && r.median == Some(Stats.Median(x)))
      && r.variance == Stats.SampleVar(x)
      && (r.n > 1 ==> r.variance.value >= 0.0)
      && r.ci == MeanCI(sub.cols[v], halfWidth)
  {
    var x := Values(sub.cols[v]);
    var n := |x|;
    if n == 0 then
      SummaryRow(group, v, n, None, None, None, MeanCI(sub.cols[v], halfWidth))
    else
      var lo, hi := Stats.MinOf(x), Stats.MaxOf(x);
      Stats.MeanBounds(lo, x, hi);
      Stats.MedianBounds(x);
      assert n > 1 ==> Stats.SampleVar(x).value >= 0.0 by {
        if n > 1 { Stats.SampleVarSign(x); }
      }
      SummaryRow(group, v, n, Some(Stats.Mean(x)), Some(Stats.Median(x)), Stats.SampleVar(x),
                 MeanCI(sub.cols[v], halfWidth))
  }

  /** The rows of one block: one per target, in target order, all with the block's label. */
  function Block(sub: Table, group: string, targets: seq<string>, halfWidth: seq<real> -> real): (r: seq<SummaryRow>)
    requires sub.Valid() && forall k :: 0 <= k < |targets| ==> targets[k] in sub.cols
    ensures |r| == |targets|
    ensures forall k :: 0 <= k < |targets| ==> r[k].group == group && r[k].variable == targets[k]
    ensures forall k :: 0 <= k < |targets| ==> r[k] == Describe(sub, group, targets[k], halfWidth)
  {
    seq(|targets|, k requires 0 <= k < |targets| => Describe(sub, group, targets[k], halfWidth))
  }

  /** `summarize(sub, group)`: appends one row per target. */
  method Summarize(sub: Table, group: string, targets: seq<string>, halfWidth: seq<real> -> real)
    returns (rows: seq<SummaryRow>)
    requires sub.Valid() && forall k :: 0 <= k < |targets| ==> targets[k] in sub.cols
    ensures rows == Block(sub, group, targets, halfWidth)
  {
    rows := [];
    for k := 0 to |targets|
      invariant rows == Block(sub, group, targets[..k], halfWidth)
    {
      rows := rows + [Describe(sub, group, targets[k], halfWidth)];
      assert targets[..k + 1][..k] == targets[..k];
    }
    assert targets[..|targets|] == targets;
  }

  // ---------------------------------------------------------------------------
  // Groups

  /** The group values: the distinct numbers of the group column, ascending (missing dropped). */
  function Groups(c: Column): (r: seq<real>)
    ensures forall i, j :: 0 <= i < j < |r| ==> r[i] < r[j]
    ensures forall g :: g in r <==> Num(g) in c
  {
    var xs := seq(|c|, i requires 0 <= i < |c| => if c[i].Num? then Some(c[i].x) else None);
    assert forall g :: Some(g) in xs <==> Num(g) in c by {
      forall g ensures Some(g) in xs <==> Num(g) in c {
        if Num(g) in c {
          var i :| 0 <= i < |c| && c[i] == Num(g);
          assert xs[i] == Some(g);
        }
      }
    }
    Stats.SortedUnique(Stats.Present(xs))
  }

  /** The rows whose group cell is the number `g`. */
  function GroupMask(t: Table, groupCol: string, g: real): (r: seq<bool>)
    requires t.Valid() && groupCol in t.cols
    ensures |r| == t.height && forall i :: 0 <= i < t.height ==> (r[i] <==> t.cols[groupCol][i] == Num(g))
  {
    seq(t.height, i requires 0 <= i < t.height => t.cols[groupCol][i] == Num(g))
  }

  /** `df[df[group_col] == g]`: the matching rows of every column, in order. */
  function GroupRows(t: Table, groupCol: string, g: real): (r: Table)
    requires t.Valid() && groupCol in t.cols
    ensures r.Valid() && r.names == t.names
    ensures forall n :: n in t.cols ==> n in r.cols
    ensures r.height == |Kept(GroupMask(t, groupCol, g))|
    ensures forall n :: n in t.cols ==> r.cols[n] == Filter(t.cols[n], GroupMask(t, groupCol, g))
    ensures forall i :: 0 <= i < r.height ==> r.cols[groupCol][i] == Num(g)
  {
    var keep := GroupMask(t, groupCol, g);
    var r := SelectRows(t, keep);
    assert forall i :: 0 <= i < r.height ==> r.cols[groupCol][i] == t.cols[groupCol][Kept(keep)[i]];
    r
  }

  /** The label of a group block, `f"{group_col}={int(g)}"`. */
  function GroupLabel(groupCol: string, g: real): (r: string)
    ensures |r| == |groupCol| + 1 + |IntToString(Stats.Trunc(g))|
    ensures r[..|groupCol|] == groupCol && r[|groupCol|] == '='
    ensures r[|groupCol| + 1..] == IntToString(Stats.Trunc(g))
  {
    groupCol + "=" + IntToString(Stats.Trunc(g))
  }

  /** The block of each listed group value, in list order. */
  function GroupBlockList(t: Table, groupCol: string, gs: seq<real>, targets: seq<string>,
                          halfWidth: seq<real> -> real): (r: seq<seq<SummaryRow>>)
    requires t.Valid() && groupCol in t.cols && forall k :: 0 <= k < |targets| ==> targets[k] in t.cols
    ensures |r| == |gs|
    ensures forall b :: 0 <= b < |gs| ==>
      r[b] == Block(GroupRows(t, groupCol, gs[b]), GroupLabel(groupCol, gs[b]), targets, halfWidth)
    ensures forall b :: 0 <= b < |gs| ==> |r[b]| == |targets|
  {
    seq(|gs|, b requires 0 <= b < |gs| =>
      Block(GroupRows(t, groupCol, gs[b]), GroupLabel(groupCol, gs[b]), targets, halfWidth))
  }

  /** Blocks one after another (`pd.concat`). */
  function Flatten<X>(bs: seq<seq<X>>): seq<X> {
    if bs == [] then [] else Flatten(bs[..|bs| - 1]) + bs[|bs| - 1]
  }

  // ---------------------------------------------------------------------------
  // The table

  /** The label of the block over all rows. */
  const Overall: string := "overall"

  /** What stops `descriptives_by_group`. */
  datatype DescError =
    | MissingColumn(name: string)  // KeyError: a target or the group column is absent
    | TextGroup                    // a text group value, which `sorted`/`int` reject

  /** The position of the first target the table lacks, if any. */
  function FirstAbsent(t: Table, targets: seq<string>): (r: Option<nat>)
    ensures r.None? <==> forall k :: 0 <= k < |targets| ==> targets[k] in t.cols
    ensures r.Some? ==> r.value < |targets| && targets[r.value] !in t.cols
    ensures r.Some? ==> forall j :: 0 <= j < r.value ==> targets[j] in t.cols
  {
    if targets == [] then None
    else if targets[0] !in t.cols then Some(0)
    else
      var r := FirstAbsent(t, targets[1..]);
      if r.Some? then Some(r.value + 1) else None
  }

  predicate HasTextCell(c: Column) {
    exists i :: 0 <= i < |c| && c[i].Str?
  }

  /**
   * `descriptives_by_group`: the first absent target raises `KeyError`
   * before anything is computed; then the "overall" block, then one block
   * per group value in ascending order.
   */
  function DescriptivesOf(t: Table, groupCol: string, targets: seq<string>,
                          halfWidth: seq<real> -> real): (r: Result<seq<SummaryRow>, DescError>)
    requires t.Valid()
    ensures FirstAbsent(t, targets).Some? ==> r == Err(MissingColumn(targets[FirstAbsent(t, targets).value]))
    ensures r.Ok? <==>
      (forall k :: 0 <= k < |targets| ==> targets[k] in t.cols)
      && groupCol in t.cols && !HasTextCell(t.cols[groupCol])
  {
    var absent := FirstAbsent(t, targets);
    if absent.Some? then Err(MissingColumn(targets[absent.value]))
    else if groupCol !in t.cols then Err(MissingColumn(groupCol))
    else if HasTextCell(t.cols[groupCol]) then Err(TextGroup)
    else
      Ok(Block(t, Overall, targets, halfWidth)
         + Flatten(GroupBlockList(t, groupCol, Groups(t.cols[groupCol]), targets, halfWidth)))
  }

  /** `descriptives_by_group(df, group_col, vars_usefulness, vars_motivation)`. */
  method DescriptivesByGroup(t: Table, groupCol: string, usefulness: seq<string>, motivation: seq<string>,
                             halfWidth: seq<real> -> real)
    returns (r: Result<seq<SummaryRow>, DescError>)
    requires t.Valid()
    ensures r == DescriptivesOf(t, groupCol, usefulness + motivation, halfWidth)
  {
    var targets := usefulness + motivation;
    for k := 0 to |targets|
      invariant forall j :: 0 <= j < k ==> targets[j] in t.cols
    {
      if targets[k] !in t.cols {
        FirstAbsentAt(t, targets, k);
        return Err(MissingColumn(targets[k]));
      }
    }
    var out := Summarize(t, Overall, targets, halfWidth);
    if groupCol !in t.cols {
      return Err(MissingColumn(groupCol));
    }
    var c := t.cols[groupCol];
    if HasTextCell(c) {
      return Err(TextGroup);
    }
    var blocks := SummarizeGroups(t, groupCol, Groups(c), targets, halfWidth);
    return Ok(out + Flatten(blocks));
  }

  /** The per-group loop: one summary block per group value, in the given order. */
  method SummarizeGroups(t: Table, groupCol: string, groups: seq<real>, targets: seq<string>,
                         halfWidth: seq<real> -> real)
    returns (blocks: seq<seq<SummaryRow>>)
    requires t.Valid() && groupCol in t.cols && forall k :: 0 <= k < |targets| ==> targets[k] in t.cols
    ensures blocks == GroupBlockList(t, groupCol, groups, targets, halfWidth)
  {
    blocks := [];
    for i := 0 to |groups|
      invariant blocks == GroupBlockList(t, groupCol, groups[..i], targets, halfWidth)
    {
      var g := groups[i];
      var block := Summarize(GroupRows(t, groupCol, g), GroupLabel(groupCol, g), targets, halfWidth);
      assert groups[..i + 1] == groups[..i] + [g];
      GroupBlockListSnoc(t, groupCol, groups[..i], g, targets, halfWidth);
      blocks := blocks + [block];
    }
    assert groups[..|groups|] == groups;
  }

  /** The block list of one more group value ends with that value's block. */
  lemma GroupBlockListSnoc(t: Table, groupCol: string, gs: seq<real>, g: real, targets: seq<string>,
                           halfWidth: seq<real> -> real)
    requires t.Valid() && groupCol in t.cols && forall k :: 0 <= k < |targets| ==> targets[k] in t.cols
    ensures GroupBlockList(t, groupCol, gs + [g], targets, halfWidth) ==
      GroupBlockList(t, groupCol, gs, targets, halfWidth)
        + [Block(GroupRows(t, groupCol, g), GroupLabel(groupCol, g), targets, halfWidth)]
  {
    var longer := GroupBlockList(t, groupCol, gs + [g], targets, halfWidth);
    var shorter := GroupBlockList(t, groupCol, gs, targets, halfWidth);
    assert forall b :: 0 <= b < |gs| ==> (gs + [g])[b] == gs[b];
    assert (gs + [g])[|gs|] == g;
  }

  /** When target `k` is the first absent one, it is what `FirstAbsent` reports. */
  lemma {:induction false} FirstAbsentAt(t: Table, targets: seq<string>, k: nat)
    requires k < |targets| && targets[k] !in t.cols && forall j :: 0 <= j < k ==> targets[j] in t.cols
    ensures FirstAbsent(t, targets) == Some(k)
  {
    if k > 0 {
      FirstAbsentAt(t, targets[1..], k - 1);
    }
  }

  // ---------------------------------------------------------------------------
  // Shape of the table

  /** Where block `b` starts when every block has `n` rows: `b * n`, counted block by block. */
  function Offset(b: nat, n: nat): nat {
    if b == 0 then 0 else Offset(b - 1, n) + n
  }

  lemma {:induction false} OffsetIsProduct(b: nat, n: nat)
    ensures Offset(b, n) == b * n
  {
    if b > 0 {
      OffsetIsProduct(b - 1, n);
      assert (b - 1) * n + n == b * n;
    }
  }

  lemma {:induction false} OffsetMono(a: nat, c: nat, n: nat)
    requires a <= c
    ensures Offset(a, n) <= Offset(c, n)
  {
    if a < c {
      OffsetMono(a, c - 1, n);
    }
  }

  /** Skipping one leading block. */
  lemma {:induction false} OffsetShift(b: nat, n: nat)
    ensures Offset(b + 1, n) == n + Offset(b, n)
  {
    if b > 0 {
      OffsetShift(b - 1, n);
    }
  }

  predicate AllOfLength<X>(bs: seq<seq<X>>, n: nat) {
    forall b :: 0 <= b < |bs| ==> |bs[b]| == n
  }

  /** Blocks of `n` rows each flatten to `|bs|` × `n` rows. */
  lemma {:induction false} FlattenLength<X>(bs: seq<seq<X>>, n: nat)
    requires AllOfLength(bs, n)
    ensures |Flatten(bs)| == Offset(|bs|, n)
  {
    if bs != [] {
      FlattenLength(bs[..|bs| - 1], n);
    }
  }

  /** Block `b` occupies rows `b` × `n` up to `(b + 1)` × `n` of the flattened blocks. */
  lemma {:induction false} FlattenAt<X>(bs: seq<seq<X>>, n: nat, b: nat)
    requires AllOfLength(bs, n) && b < |bs|
    ensures Offset(b, n) + n <= |Flatten(bs)|
    ensures Flatten(bs)[Offset(b, n)..Offset(b, n) + n] == bs[b]
  {
    var init := bs[..|bs| - 1];
    var head := Flatten(init);
    var last := bs[|bs| - 1];
    FlattenLength(init, n);
    assert Flatten(bs) == head + last;
    if b == |bs| - 1 {
      assert (head + last)[Offset(b, n)..Offset(b, n) + n] == last;
    } else {
      FlattenAt(init, n, b);
      OffsetMono(b + 1, |init|, n);
      assert (head + last)[Offset(b, n)..Offset(b, n) + n] == head[Offset(b, n)..Offset(b, n) + n];
    }
  }

  /** A slice of the second part of a concatenation, shifted by the first part's length. */
  lemma SliceAfter<X>(a: seq<X>, c: seq<X>, i: nat, j: nat)
    requires i <= j <= |c|
    ensures (a + c)[|a| + i..|a| + j] == c[i..j]
  {
    assert forall k :: 0 <= k < j - i ==> (a + c)[|a| + i..|a| + j][k] == c[i..j][k];
  }

  /**
   * `s` is a leading block `head` of `n` rows followed by the blocks `bs`
   * of `n` rows each: block `b` fills rows `n + b * n` up to `n + (b + 1) * n`.
   */
  ghost predicate LaidOut<X>(s: seq<X>, head: seq<X>, bs: seq<seq<X>>, n: nat) {
    && |s| == Offset(1 + |bs|, n)
    && n <= |s| && s[..n] == head
    && forall b :: 0 <= b < |bs| ==>
         && n + Offset(b, n) + n <= |s|
         && s[n + Offset(b, n)..n + Offset(b, n) + n] == bs[b]
  }

  /** A leading block of `n` rows followed by flattened blocks of `n` rows each is laid out block by block. */
  lemma Layout<X>(s: seq<X>, head: seq<X>, bs: seq<seq<X>>, n: nat)
    requires s == head + Flatten(bs) && |head| == n && AllOfLength(bs, n)
    ensures LaidOut(s, head, bs, n)
  {
    FlattenLength(bs, n);
    OffsetShift(|bs|, n);
    assert s[..n] == head;
    forall b | 0 <= b < |bs|
      ensures n + Offset(b, n) + n <= |s|
      ensures s[n + Offset(b, n)..n + Offset(b, n) + n] == bs[b]
    {
      FlattenAt(bs, n, b);
      SliceAfter(head, Flatten(bs), Offset(b, n), Offset(b, n) + n);
    }
  }

  /**
   * The table has (1 + number of groups) × number of targets rows: the
   * overall block first, then, for the `b`-th group value in ascending
   * order, the block after the overall block and `b` group blocks, each
   * block listing the targets in order under its label.
   */
  lemma DescriptivesShape(t: Table, groupCol: string, targets: seq<string>, halfWidth: seq<real> -> real,
                          rows: seq<SummaryRow>)
    requires t.Valid() && DescriptivesOf(t, groupCol, targets, halfWidth) == Ok(rows)
    ensures groupCol in t.cols && forall k :: 0 <= k < |targets| ==> targets[k] in t.cols
    ensures LaidOut(rows, Block(t, Overall, targets, halfWidth),
                    GroupBlockList(t, groupCol, Groups(t.cols[groupCol]), targets, halfWidth), |targets|)
  {
    var bs := GroupBlockList(t, groupCol, Groups(t.cols[groupCol]), targets, halfWidth);
    Layout(rows, Block(t, Overall, targets, halfWidth), bs, |targets|);
  }
}
