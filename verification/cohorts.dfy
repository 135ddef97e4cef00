/**
 * The preparation steps of the analysis script: each survey export is cut
 * to its age band, the two cohorts are stacked and tagged, unfinished
 * responses are dropped, and so are the columns too few respondents answered.
 */
module Cohorts {
  import opened Wrappers
  import opened Frame

  /** The survey's age question. */
  const AgeColumn: string := "G02Q04"
  /** Set when a respondent finished the survey. */
  const SubmitColumn: string := "submitdate"
  /** 1 for the young cohort, 0 for the old one. */
  const CohortColumn: string := "young_group"

  /** What stops the preparation. */
  datatype PrepError =
    | MissingColumn(name: string)  // KeyError
    | TextAge                      // TypeError: a text age compared with a number

  // ---------------------------------------------------------------------------
  // Age bands

  /**
   * An age band `low <= age <= high`, both ends inclusive; `high` is `None`
   * for `np.inf`. A missing age (NaN) compares false and is outside every band.
   */
  predicate InBand(c: Cell, low: real, high: Option<real>) {
    c.Num? && low <= c.x && (high.None? || c.x <= high.value)
  }

  function BandMask(c: Column, low: real, high: Option<real>): (r: seq<bool>)
    ensures |r| == |c| && forall i :: 0 <= i < |c| ==> (r[i] <==> InBand(c[i], low, high))
  {
    seq(|c|, i requires 0 <= i < |c| => InBand(c[i], low, high))
  }

  predicate HasText(c: Column) {
    exists i :: 0 <= i < |c| && c[i].Str?
  }

  /**
   * `check_age(df, low, high)`: the rows whose age lies in the band, in their
   * original order, every column kept.
   */
  function CheckAge(t: Table, low: real, high: Option<real>): (r: Result<Table, PrepError>)
    requires t.Valid()
    ensures AgeColumn !in t.cols ==> r == Err(MissingColumn(AgeColumn))
    ensures r.Ok? <==> AgeColumn in t.cols && !HasText(t.cols[AgeColumn])
    ensures r.Ok? ==>
      && r.value.Valid() && r.value.names == t.names
      && r.value.height == |Kept(BandMask(t.cols[AgeColumn], low, high))|
      && forall i :: 0 <= i < r.value.height ==> InBand(r.value.cols[AgeColumn][i], low, high)
  {
    if AgeColumn !in t.cols then Err(MissingColumn(AgeColumn))
    else if HasText(t.cols[AgeColumn]) then Err(TextAge)
    else
      var mask := BandMask(t.cols[AgeColumn], low, high);
      var r := SelectRows(t, mask);
      assert forall i :: 0 <= i < r.height ==> r.cols[AgeColumn][i] == t.cols[AgeColumn][Kept(mask)[i]];
      Ok(r)
  }

  /**
   * No row in the band is lost and none is invented: row `i` of the input
   * survives exactly when its age lies in the band, and the survivors keep
   * their order and their cells.
   */
  lemma CheckAgeKeepsBand(t: Table, low: real, high: Option<real>, i: nat)
    requires t.Valid() && CheckAge(t, low, high).Ok? && i < t.height
    ensures var mask := BandMask(t.cols[AgeColumn], low, high);
      i in Kept(mask) <==> InBand(t.cols[AgeColumn][i], low, high)
    ensures var r := CheckAge(t, low, high).value;
      var mask := BandMask(t.cols[AgeColumn], low, high);
      forall n :: n in t.cols ==> r.cols[n] == Filter(t.cols[n], mask)
  {
    var mask := BandMask(t.cols[AgeColumn], low, high);
    if InBand(t.cols[AgeColumn][i], low, high) {
      KeptComplete(mask, i);
    }
    if i in Kept(mask) {
      var k :| 0 <= k < |Kept(mask)| && Kept(mask)[k] == i;
    }
  }

  const YoungLow: real := 18.0
  const YoungHigh: real := 35.0
  const OldLow: real := 35.0

  /** The two bands share exactly the age 35: a 35-year-old of either export stays in. */
  lemma BandsShareOnlyThirtyFive(c: Cell)
    ensures InBand(c, YoungLow, Some(YoungHigh)) && InBand(c, OldLow, None) <==> c == Num(35.0)
  {
  }

  // ---------------------------------------------------------------------------
  // The prepared table

  /**
   * `int(0.8 * n)`: the least number of answers a column needs, taken as
   * four fifths of `n` rounded down.
   */
  function MinCount(n: nat): (r: nat)
    ensures 5 * r <= 4 * n < 5 * r + 5
    ensures r <= n
  {
    (4 * n) / 5
  }

  /** Per row: whether the response was submitted. */
  function SubmittedMask(t: Table): (r: seq<bool>)
    requires t.Valid() && SubmitColumn in t.cols
    ensures |r| == t.height && forall i :: 0 <= i < t.height ==> (r[i] <==> NotMissing(t.cols[SubmitColumn][i]))
  {
    seq(t.height, i requires 0 <= i < t.height => NotMissing(t.cols[SubmitColumn][i]))
  }

  /** `df[df["submitdate"].notna()]`. */
  function FinishedRows(t: Table): (r: Result<Table, PrepError>)
    requires t.Valid()
    ensures r.Err? <==> SubmitColumn !in t.cols
    ensures r.Err? ==> r.error == MissingColumn(SubmitColumn)
    ensures r.Ok? ==>
      && r.value.Valid() && r.value.names == t.names
      && r.value.height == |Kept(SubmittedMask(t))|
      && (forall n :: n in t.cols ==> r.value.cols[n] == Filter(t.cols[n], SubmittedMask(t)))
      && forall i :: 0 <= i < r.value.height ==> NotMissing(r.value.cols[SubmitColumn][i])
  {
    if SubmitColumn !in t.cols then Err(MissingColumn(SubmitColumn))
    else
      var c := t.cols[SubmitColumn];
      var mask := SubmittedMask(t);
      var r := SelectRows(t, mask);
      assert forall i :: 0 <= i < r.height ==> r.cols[SubmitColumn][i] == c[Kept(mask)[i]];
      Ok(r)
  }

  /** The two cohorts in their bands, stacked young first and tagged (lines 45-53). */
  function Stacked(young: Table, older: Table): (r: Result<Table, PrepError>)
    requires young.Valid() && older.Valid()
    ensures r.Ok? <==> CheckAge(young, YoungLow, Some(YoungHigh)).Ok? && CheckAge(older, OldLow, None).Ok?
    ensures r.Ok? ==>
      && r.value.Valid()
      && r.value.height == CheckAge(young, YoungLow, Some(YoungHigh)).value.height
                           + CheckAge(older, OldLow, None).value.height
  {
    var y := CheckAge(young, YoungLow, Some(YoungHigh));
    if y.Err? then Err(y.error)
    else
      var o := CheckAge(older, OldLow, None);
      if o.Err? then Err(o.error)
      else Ok(Concat(Assign(y.value, CohortColumn, Num(1.0)), Assign(o.value, CohortColumn, Num(0.0))))
  }

  /**
   * The stacked table holds the young cohort's band first, tagged 1, and
   * then the old cohort's band, tagged 0; every other cell is as read.
   */
  lemma StackedOrder(young: Table, older: Table)
    requires young.Valid() && older.Valid() && Stacked(young, older).Ok?
    ensures var r := Stacked(young, older).value;
      var y := CheckAge(young, YoungLow, Some(YoungHigh)).value;
      var o := CheckAge(older, OldLow, None).value;
      && (forall i :: 0 <= i < y.height ==> r.cols[CohortColumn][i] == Num(1.0))
      && (forall i :: y.height <= i < r.height ==> r.cols[CohortColumn][i] == Num(0.0))
      && (forall n :: n in y.cols && n != CohortColumn ==> r.cols[n][..y.height] == y.cols[n])
      && (forall n :: n in o.cols && n != CohortColumn ==> r.cols[n][y.height..] == o.cols[n])
  {
    var y := CheckAge(young, YoungLow, Some(YoungHigh)).value;
    var o := CheckAge(older, OldLow, None).value;
    TaggedConcatFirst(y, o, CohortColumn, Num(1.0), Num(0.0));
    TaggedConcatSecond(y, o, CohortColumn, Num(1.0), Num(0.0));
  }

  /**
   * The prepared table: the finished responses of the stacked cohorts,
   * keeping the columns with at least `MinCount` answers, where `MinCount`
   * is taken from the row count before unfinished responses were dropped.
   */
  function Prepared(young: Table, older: Table): (r: Result<Table, PrepError>)
    requires young.Valid() && older.Valid()
    ensures r.Ok? <==> Stacked(young, older).Ok? && FinishedRows(Stacked(young, older).value).Ok?
    ensures r.Ok? ==>
      var s := Stacked(young, older).value;
      var f := FinishedRows(s).value;
      && r.value.Valid() && r.value.height == f.height
      && (forall n :: n in r.value.cols <==> n in f.cols && CountPresent(f.cols[n]) >= MinCount(s.height))
      && (forall n :: n in r.value.cols ==> r.value.cols[n] == f.cols[n])
  {
    var s := Stacked(young, older);
    if s.Err? then Err(s.error)
    else
      var f := FinishedRows(s.value);
      if f.Err? then Err(f.error)
      else Ok(DropSparseColumns(f.value, MinCount(s.value.height)))
  }

  /** A column answered in every row, such as the cohort tag. */
  predicate Full(c: Column) {
    forall i :: 0 <= i < |c| ==> NotMissing(c[i])
  }

  /** A column without a missing cell has as many answers as rows. */
  lemma {:induction false} CountPresentFull(c: Column)
    requires Full(c)
    ensures CountPresent(c) == |c|
  {
    if c != [] {
      CountPresentFull(c[1..]);
    }
  }

  /** Selecting rows keeps a column full. */
  lemma FilterFull(c: Column, keep: seq<bool>)
    requires |c| == |keep| && Full(c)
    ensures Full(Filter(c, keep))
  {
    var r := Filter(c, keep);
    forall i | 0 <= i < |r|
      ensures NotMissing(r[i])
    {
      assert r[i] == c[Kept(keep)[i]];
    }
  }

  /** Every stacked row carries a cohort tag. */
  lemma StackedTagFull(young: Table, older: Table)
    requires young.Valid() && older.Valid() && Stacked(young, older).Ok?
    ensures CohortColumn in Stacked(young, older).value.cols
    ensures Full(Stacked(young, older).value.cols[CohortColumn])
  {
    var s := Stacked(young, older).value;
    var y := CheckAge(young, YoungLow, Some(YoungHigh)).value;
    StackedOrder(young, older);
    forall i | 0 <= i < s.height
      ensures NotMissing(s.cols[CohortColumn][i])
    {
      if i >= y.height {
        assert s.cols[CohortColumn][i] == Num(0.0);
      }
    }
  }

  /** Every finished row carries a cohort tag and a submission date. */
  lemma FinishedFull(young: Table, older: Table)
    requires young.Valid() && older.Valid() && Prepared(young, older).Ok?
    ensures var f := FinishedRows(Stacked(young, older).value).value;
      && CohortColumn in f.cols && Full(f.cols[CohortColumn])
      && SubmitColumn in f.cols && Full(f.cols[SubmitColumn])
  {
    var s := Stacked(young, older).value;
    var f := FinishedRows(s).value;
    StackedTagFull(young, older);
    FilterFull(s.cols[CohortColumn], SubmittedMask(s));
  }

  /**
   * The cohort tag and the submission date survive the column filter exactly
   * when at least four fifths (rounded down) of the stacked rows were finished.
   */
  lemma FullColumnsKeptIff(young: Table, older: Table)
    requires young.Valid() && older.Valid() && Prepared(young, older).Ok?
    ensures var s := Stacked(young, older).value;
      var f := FinishedRows(s).value;
      var r := Prepared(young, older).value;
      && (CohortColumn in r.cols <==> f.height >= MinCount(s.height))
      && (SubmitColumn in r.cols <==> f.height >= MinCount(s.height))
  {
    var f := FinishedRows(Stacked(young, older).value).value;
    FinishedFull(young, older);
    CountPresentFull(f.cols[CohortColumn]);
    CountPresentFull(f.cols[SubmitColumn]);
  }

  /**
   * The `__main__` block up to the column filter: each step rebinds the
   * table; a failing step stops the script.
   */
  method Prepare(young: Table, older: Table) returns (r: Result<Table, PrepError>)
    requires young.Valid() && older.Valid()
    ensures r == Prepared(young, older)
  {
    var youngBand := CheckAge(young, YoungLow, Some(YoungHigh));
    if youngBand.Err? {
      return Err(youngBand.error);
    }
    var y := Assign(youngBand.value, CohortColumn, Num(1.0));
    var oldBand := CheckAge(older, OldLow, None);
    if oldBand.Err? {
      return Err(oldBand.error);
    }
    var o := Assign(oldBand.value, CohortColumn, Num(0.0));
    var df := Concat(y, o);
    var minCount := MinCount(df.height);
    var finished := FinishedRows(df);
    if finished.Err? {
      return Err(finished.error);
    }
    df := finished.value;
    df := DropSparseColumns(df, minCount);
    return Ok(df);
  }
}
