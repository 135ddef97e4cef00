/**
 * The body of the correlation.py script after the item lists: it adds the
 * construct scores, the numeric controls and the age band to the survey
 * table, one column after another. A failing column check raises and stops
 * the script, leaving the columns added so far in place.
 */
module CorrelationScript {
  import opened Wrappers
  import opened Frame
  import opened Questionnaire
  import opened Correlation

  const AutonomousName: string := "autonomous_motivation"
  const ControlledName: string := "controlled_motivation"
  const UpskillingName: string := "upskilling"
  const ReskillingName: string := "reskilling"
  const UsefulnessName: string := "perceived_usefulness"
  const AgeName: string := "age"
  const FreqWorkName: string := "llm_use_freq_work"
  const AgeGroupName: string := "age_group_rq1"

  /** The control questions: age and frequency of use at work. */
  const AgeItem: string := "G02Q04"
  const FreqWorkItem: string := "G03Q12"

  /** The table as the script left it, and whether it got through. */
  datatype Run = Run(table: Table, outcome: Outcome<ColumnsError>)

  /** A score column: each row's mean, missing where the row has none. */
  function ScoreCells(m: seq<Option<real>>): (r: Column)
    ensures |r| == |m| && forall i :: 0 <= i < |m| ==> r[i] == CellOf(m[i])
  {
    seq(|m|, i requires 0 <= i < |m| => CellOf(m[i]))
  }

  /** The `age_group_rq1` column over the numeric ages. */
  function AgeGroups(ages: Column): (r: Column)
    ensures |r| == |ages| && forall i :: 0 <= i < |ages| ==> r[i] == Str(AgeBand(ToNumeric(ages[i])))
  {
    seq(|ages|, i requires 0 <= i < |ages| => Str(AgeBand(ToNumeric(ages[i]))))
  }

  /** `df[name] = row_mean(df, items, caption)`, unless the script has already stopped. */
  function ScoreStep(run: Run, name: string, items: seq<string>, caption: string): (r: Run)
    requires run.table.Valid()
    ensures r.table.Valid()
  {
    if run.outcome.Fail? then run
    else
      var m := RowMean(run.table, items, caption);
      if m.Err? then Run(run.table, Fail(m.error))
      else Run(WithColumn(run.table, name, ScoreCells(m.value)), Pass)
  }

  /**
   * `require_columns(df, [age_col, freq_work_col], "Controls")`, then the
   * two controls as numbers and the age band of every row.
   */
  function ControlsStep(run: Run): (r: Run)
    requires run.table.Valid()
    ensures r.table.Valid()
  {
    if run.outcome.Fail? then run
    else
      var t := run.table;
      var check := RequireColumns(t, [AgeItem, FreqWorkItem], "Controls");
      if check.Fail? then Run(t, check)
      else
        var t1 := WithColumn(t, AgeName, Coerce(t.cols[AgeItem]));
        var t2 := WithColumn(t1, FreqWorkName, Coerce(t1.cols[FreqWorkItem]));
        Run(WithColumn(t2, AgeGroupName, AgeGroups(t2.cols[AgeName])), Pass)
  }

  /** The script body, lines 149-164, applied to the survey table. */
  function Constructs(t: Table): (r: Run)
    requires t.Valid()
    ensures r.table.Valid()
  {
    var a := ScoreStep(Run(t, Pass), AutonomousName, AutonomousItems, "Autonomous Motivation");
    var b := ScoreStep(a, ControlledName, ControlledItems, "Controlled Motivation");
    var c := ScoreStep(b, UpskillingName, UpskillingItems, "Upskilling");
    var d := ScoreStep(c, ReskillingName, ReskillingItems, "Reskilling");
    var e := ScoreStep(d, UsefulnessName, UsefulnessItems, "Perceived Usefulness (IFBL)");
    ControlsStep(e)
  }

  // ---------------------------------------------------------------------------
  // The script, step by step on the table object

  /** One `df[name] = row_mean(...)` line. */
  method SetScore(df: DataFrame, name: string, items: seq<string>, caption: string) returns (r: Outcome<ColumnsError>)
    requires df.table.Valid()
    modifies df
    ensures Run(df.table, r) == ScoreStep(Run(old(df.table), Pass), name, items, caption)
  {
    var m := RowMean(df.table, items, caption);
    if m.Err? {
      return Fail(m.error);
    }
    df.SetColumn(name, ScoreCells(m.value));
    return Pass;
  }

  /** The control lines: the column check, the two numeric controls and the age band. */
  method SetControls(df: DataFrame) returns (r: Outcome<ColumnsError>)
    requires df.table.Valid()
    modifies df
    ensures Run(df.table, r) == ControlsStep(Run(old(df.table), Pass))
  {
    r := RequireColumns(df.table, [AgeItem, FreqWorkItem], "Controls");
    if r.Fail? {
      return;
    }
    RequireTwo(df.table, AgeItem, FreqWorkItem, "Controls");
    df.SetColumn(AgeName, Coerce(df.table.cols[AgeItem]));
    df.SetColumn(FreqWorkName, Coerce(df.table.cols[FreqWorkItem]));
    df.SetColumn(AgeGroupName, AgeGroups(df.table.cols[AgeName]));
  }

  /** Lines 149-164: the construct scores, the numeric controls and the age band. */
  method AddConstructs(df: DataFrame) returns (r: Outcome<ColumnsError>)
    requires df.table.Valid()
    modifies df
    ensures Run(df.table, r) == Constructs(old(df.table))
  {
    ghost var a := ScoreStep(Run(df.table, Pass), AutonomousName, AutonomousItems, "Autonomous Motivation");
    ghost var b := ScoreStep(a, ControlledName, ControlledItems, "Controlled Motivation");
    ghost var c := ScoreStep(b, UpskillingName, UpskillingItems, "Upskilling");
    ghost var d := ScoreStep(c, ReskillingName, ReskillingItems, "Reskilling");
    ghost var e := ScoreStep(d, UsefulnessName, UsefulnessItems, "Perceived Usefulness (IFBL)");
    assert Constructs(df.table) == ControlsStep(e);
    r := SetScore(df, AutonomousName, AutonomousItems, "Autonomous Motivation");
    if r.Fail? { Stopped(a); return; }
    r := SetScore(df, ControlledName, ControlledItems, "Controlled Motivation");
    assert Run(df.table, r) == b;
    if r.Fail? { Stopped(b); return; }
    r := SetScore(df, UpskillingName, UpskillingItems, "Upskilling");
    assert Run(df.table, r) == c;
    if r.Fail? { Stopped(c); return; }
    r := SetScore(df, ReskillingName, ReskillingItems, "Reskilling");
    assert Run(df.table, r) == d;
    if r.Fail? { Stopped(d); return; }
    r := SetScore(df, UsefulnessName, UsefulnessItems, "Perceived Usefulness (IFBL)");
    assert Run(df.table, r) == e;
    if r.Fail? { Stopped(e); return; }
    r := SetControls(df);
  }

  /** Once a check has failed, no later step changes the table or the outcome. */
  lemma Stopped(run: Run)
    requires run.table.Valid() && run.outcome.Fail?
    ensures ControlsStep(run) == run
    ensures forall name, items, caption :: ScoreStep(run, name, items, caption) == run
  {
  }

  // ---------------------------------------------------------------------------
  // What the script computes, in terms of the table it started from

  /** A column of the survey export: its name starts with the question group `G`. */
  predicate SurveyColumn(n: string) {
    |n| > 0 && n[0] == 'G'
  }

  /** Every column of an item list is a survey column. */
  lemma ItemsAreSurveyColumns(q: string, idx: seq<nat>)
    requires SurveyColumn(q)
    ensures forall k :: 0 <= k < |idx| ==> SurveyColumn(Items(q, idx)[k])
  {
    forall k | 0 <= k < |idx|
      ensures SurveyColumn(Items(q, idx)[k])
    {
      var n := Items(q, idx)[k];
      assert n == ItemName(q, idx[k]);
      assert n[..|q|] == q;
      assert n[0] == n[..|q|][0];
    }
  }

  /** `u` holds the survey columns of `t`, unchanged, and no others. */
  ghost predicate SameSurvey(t: Table, u: Table) {
    && u.height == t.height
    && (forall n :: SurveyColumn(n) ==> (n in u.cols <==> n in t.cols))
    && (forall n :: SurveyColumn(n) && n in t.cols ==> u.cols[n] == t.cols[n])
  }

  predicate AllSurvey(items: seq<string>) {
    forall k :: 0 <= k < |items| ==> SurveyColumn(items[k])
  }

  /** Over survey columns only, two tables with the same survey columns give the same row means. */
  lemma SameRowMeans(t: Table, u: Table, items: seq<string>)
    requires t.Valid() && u.Valid() && SameSurvey(t, u) && AllSurvey(items)
    requires forall k :: 0 <= k < |items| ==> items[k] in t.cols
    ensures forall k :: 0 <= k < |items| ==> items[k] in u.cols
    ensures RowMeans(u, items) == RowMeans(t, items)
  {
    forall i | 0 <= i < t.height
      ensures RowCells(u, items, i) == RowCells(t, items, i)
    {
    }
  }

  /**
   * One score step on a table with the survey columns of `t`: it goes through
   * exactly when the items are all there, and then adds the row means of
   * `t`'s items under a name that is not a survey column.
   */
  lemma ScoreStepFacts(t: Table, run: Run, name: string, items: seq<string>, caption: string)
    requires t.Valid() && run.table.Valid() && run.outcome.Pass? && SameSurvey(t, run.table)
    requires !SurveyColumn(name) && AllSurvey(items)
    ensures var r := ScoreStep(run, name, items, caption);
      && (r.outcome.Pass? <==> forall k :: 0 <= k < |items| ==> items[k] in t.cols)
      && (r.outcome.Pass? ==>
            && SameSurvey(t, r.table)
            && r.table.cols == run.table.cols[name := ScoreCells(RowMeans(t, items))])
  {
    var u := run.table;
    if forall k :: 0 <= k < |items| ==> items[k] in t.cols {
      SameRowMeans(t, u, items);
    } else {
      var k :| 0 <= k < |items| && items[k] !in t.cols;
      assert items[k] !in u.cols;
    }
  }

  predicate AutonomousReady(t: Table) { forall k :: 0 <= k < |AutonomousItems| ==> AutonomousItems[k] in t.cols }
  predicate ControlledReady(t: Table) { forall k :: 0 <= k < |ControlledItems| ==> ControlledItems[k] in t.cols }
  predicate UpskillingReady(t: Table) { forall k :: 0 <= k < |UpskillingItems| ==> UpskillingItems[k] in t.cols }
  predicate ReskillingReady(t: Table) { forall k :: 0 <= k < |ReskillingItems| ==> ReskillingItems[k] in t.cols }
  predicate UsefulnessReady(t: Table) { forall k :: 0 <= k < |UsefulnessItems| ==> UsefulnessItems[k] in t.cols }

  /** The five item lists are survey columns. */
  lemma ItemListsAreSurvey()
    ensures AllSurvey(AutonomousItems) && AllSurvey(ControlledItems)
    ensures AllSurvey(UpskillingItems) && AllSurvey(ReskillingItems) && AllSurvey(UsefulnessItems)
  {
    ItemsAreSurveyColumns("G04Q16", AutonomousIdx);
    ItemsAreSurveyColumns("G04Q16", ControlledIdx);
    ItemsAreSurveyColumns("G05Q18", Range(1, 6));
    ItemsAreSurveyColumns("G05Q19", Range(1, 7));
    ItemsAreSurveyColumns("G03Q14", Range(1, 11));
  }

  /** The five score steps, in terms of the table the script started from. */
  lemma ScoresFacts(t: Table)
    requires t.Valid()
    ensures var a := ScoreStep(Run(t, Pass), AutonomousName, AutonomousItems, "Autonomous Motivation");
      var b := ScoreStep(a, ControlledName, ControlledItems, "Controlled Motivation");
      var c := ScoreStep(b, UpskillingName, UpskillingItems, "Upskilling");
      var d := ScoreStep(c, ReskillingName, ReskillingItems, "Reskilling");
      var e := ScoreStep(d, UsefulnessName, UsefulnessItems, "Perceived Usefulness (IFBL)");
      && (e.outcome.Pass? <==>
            AutonomousReady(t) && ControlledReady(t) && UpskillingReady(t) && ReskillingReady(t) && UsefulnessReady(t))
      && (e.outcome.Pass? ==>
            && SameSurvey(t, e.table)
            && e.table.cols == t.cols[AutonomousName := ScoreCells(RowMeans(t, AutonomousItems))]
                                     [ControlledName := ScoreCells(RowMeans(t, ControlledItems))]
                                     [UpskillingName := ScoreCells(RowMeans(t, UpskillingItems))]
                                     [ReskillingName := ScoreCells(RowMeans(t, ReskillingItems))]
                                     [UsefulnessName := ScoreCells(RowMeans(t, UsefulnessItems))])
  {
    ItemListsAreSurvey();
    var a := ScoreStep(Run(t, Pass), AutonomousName, AutonomousItems, "Autonomous Motivation");
    ScoreStepFacts(t, Run(t, Pass), AutonomousName, AutonomousItems, "Autonomous Motivation");
    var b := ScoreStep(a, ControlledName, ControlledItems, "Controlled Motivation");
    if a.outcome.Pass? {
      ScoreStepFacts(t, a, ControlledName, ControlledItems, "Controlled Motivation");
    }
    var c := ScoreStep(b, UpskillingName, UpskillingItems, "Upskilling");
    if b.outcome.Pass? {
      ScoreStepFacts(t, b, UpskillingName, UpskillingItems, "Upskilling");
    }
    var d := ScoreStep(c, ReskillingName, ReskillingItems, "Reskilling");
    if c.outcome.Pass? {
      ScoreStepFacts(t, c, ReskillingName, ReskillingItems, "Reskilling");
    }
    if d.outcome.Pass? {
      ScoreStepFacts(t, d, UsefulnessName, UsefulnessItems, "Perceived Usefulness (IFBL)");
    }
  }

  /**
   * The controls step on a table with the survey columns of `t`: it goes
   * through exactly when both control questions are there, and then adds
   * the numeric age, the numeric frequency and the age band of `t`'s ages.
   */
  lemma ControlsStepFacts(t: Table, run: Run)
    requires t.Valid() && run.table.Valid() && run.outcome.Pass? && SameSurvey(t, run.table)
    ensures var r := ControlsStep(run);
      && (r.outcome.Pass? <==> AgeItem in t.cols && FreqWorkItem in t.cols)
      && (r.outcome.Pass? ==>
            && SameSurvey(t, r.table)
            && r.table.cols == run.table.cols[AgeName := Coerce(t.cols[AgeItem])]
                                             [FreqWorkName := Coerce(t.cols[FreqWorkItem])]
                                             [AgeGroupName := AgeGroups(Coerce(t.cols[AgeItem]))])
  {
    var u := run.table;
    RequireTwo(u, AgeItem, FreqWorkItem, "Controls");
    assert SurveyColumn(AgeItem) && SurveyColumn(FreqWorkItem);
    if AgeItem in t.cols && FreqWorkItem in t.cols {
      ControlsColumns(t, u);
    }
  }

  /** The column check of a pair of columns passes exactly when both are there. */
  lemma RequireTwo(u: Table, a: string, b: string, caption: string)
    ensures RequireColumns(u, [a, b], caption).Pass? <==> a in u.cols && b in u.cols
  {
    if a in u.cols && b in u.cols {
      assert forall k :: 0 <= k < 2 ==> [a, b][k] in u.cols;
    } else {
      assert [a, b][0] !in u.cols || [a, b][1] !in u.cols;
    }
  }

  /** The three control columns, added to a table with the survey columns of `t`. */
  lemma ControlsColumns(t: Table, u: Table)
    requires t.Valid() && u.Valid() && SameSurvey(t, u) && AgeItem in t.cols && FreqWorkItem in t.cols
    ensures var t1 := WithColumn(u, AgeName, Coerce(u.cols[AgeItem]));
      var t2 := WithColumn(t1, FreqWorkName, Coerce(t1.cols[FreqWorkItem]));
      var t3 := WithColumn(t2, AgeGroupName, AgeGroups(t2.cols[AgeName]));
      && SameSurvey(t, t3)
      && t3.cols == u.cols[AgeName := Coerce(t.cols[AgeItem])]
                          [FreqWorkName := Coerce(t.cols[FreqWorkItem])]
                          [AgeGroupName := AgeGroups(Coerce(t.cols[AgeItem]))]
  {
    assert SurveyColumn(AgeItem) && SurveyColumn(FreqWorkItem);
    assert !SurveyColumn(AgeName) && !SurveyColumn(FreqWorkName) && !SurveyColumn(AgeGroupName);
    var t1 := WithColumn(u, AgeName, Coerce(u.cols[AgeItem]));
    AddNonSurvey(t, u, AgeName, Coerce(u.cols[AgeItem]));
    var t2 := WithColumn(t1, FreqWorkName, Coerce(t1.cols[FreqWorkItem]));
    AddNonSurvey(t, t1, FreqWorkName, Coerce(t1.cols[FreqWorkItem]));
    AddNonSurvey(t, t2, AgeGroupName, AgeGroups(t2.cols[AgeName]));
  }

  /** Setting a column that is not a survey column keeps the survey columns. */
  lemma AddNonSurvey(t: Table, u: Table, name: string, c: Column)
    requires u.Valid() && SameSurvey(t, u) && !SurveyColumn(name) && |c| == u.height
    ensures SameSurvey(t, WithColumn(u, name, c))
  {
  }

  /** The script body runs through on `t`: the five item lists and the two control questions are there. */
  ghost predicate Ready(t: Table) {
    && AutonomousReady(t) && ControlledReady(t) && UpskillingReady(t)
    && ReskillingReady(t) && UsefulnessReady(t)
    && AgeItem in t.cols && FreqWorkItem in t.cols
  }

  /** The columns of `t` with the eight computed columns set, each from `t`'s own survey columns. */
  ghost function Added(t: Table): (m: map<string, Column>)
    requires t.Valid() && Ready(t)
  {
    t.cols[AutonomousName := ScoreCells(RowMeans(t, AutonomousItems))]
          [ControlledName := ScoreCells(RowMeans(t, ControlledItems))]
          [UpskillingName := ScoreCells(RowMeans(t, UpskillingItems))]
          [ReskillingName := ScoreCells(RowMeans(t, ReskillingItems))]
          [UsefulnessName := ScoreCells(RowMeans(t, UsefulnessItems))]
          [AgeName := Coerce(t.cols[AgeItem])]
          [FreqWorkName := Coerce(t.cols[FreqWorkItem])]
          [AgeGroupName := AgeGroups(Coerce(t.cols[AgeItem]))]
  }

  /**
   * The script body gets through exactly when the five item lists and the
   * two control questions are all in the table; it then holds the computed
   * columns of `Added`, and the survey's own columns as they were.
   */
  lemma ConstructsOutcome(t: Table)
    requires t.Valid()
    ensures Constructs(t).outcome.Pass? <==> Ready(t)
    ensures Ready(t) ==> SameSurvey(t, Constructs(t).table) && Constructs(t).table.cols == Added(t)
  {
    ScoresFacts(t);
    var a := ScoreStep(Run(t, Pass), AutonomousName, AutonomousItems, "Autonomous Motivation");
    var b := ScoreStep(a, ControlledName, ControlledItems, "Controlled Motivation");
    var c := ScoreStep(b, UpskillingName, UpskillingItems, "Upskilling");
    var d := ScoreStep(c, ReskillingName, ReskillingItems, "Reskilling");
    var e := ScoreStep(d, UsefulnessName, UsefulnessItems, "Perceived Usefulness (IFBL)");
    if e.outcome.Pass? {
      ControlsStepFacts(t, e);
    }
  }

  /** Row by row: each construct score is the mean of that row's answers to the construct's items. */
  lemma AddedScores(t: Table, i: nat)
    requires t.Valid() && Ready(t) && i < t.height
    ensures var m := Added(t);
      && m[AutonomousName][i] == CellOf(RowMeans(t, AutonomousItems)[i])
      && m[ControlledName][i] == CellOf(RowMeans(t, ControlledItems)[i])
      && m[UpskillingName][i] == CellOf(RowMeans(t, UpskillingItems)[i])
      && m[ReskillingName][i] == CellOf(RowMeans(t, ReskillingItems)[i])
      && m[UsefulnessName][i] == CellOf(RowMeans(t, UsefulnessItems)[i])
  {
    AddedAutonomous(t, i);
    AddedControlled(t, i);
    AddedUpskilling(t, i);
    AddedReskilling(t, i);
    AddedUsefulness(t, i);
  }

  // One score column at a time, each past the later updates of `Added`.

  lemma AddedAutonomous(t: Table, i: nat)
    requires t.Valid() && Ready(t) && i < t.height
    ensures Added(t)[AutonomousName][i] == CellOf(RowMeans(t, AutonomousItems)[i])
  {
  }

  lemma AddedControlled(t: Table, i: nat)
    requires t.Valid() && Ready(t) && i < t.height
    ensures Added(t)[ControlledName][i] == CellOf(RowMeans(t, ControlledItems)[i])
  {
  }

  lemma AddedUpskilling(t: Table, i: nat)
    requires t.Valid() && Ready(t) && i < t.height
    ensures Added(t)[UpskillingName][i] == CellOf(RowMeans(t, UpskillingItems)[i])
  {
  }

  lemma AddedReskilling(t: Table, i: nat)
    requires t.Valid() && Ready(t) && i < t.height
    ensures Added(t)[ReskillingName][i] == CellOf(RowMeans(t, ReskillingItems)[i])
  {
  }

  lemma AddedUsefulness(t: Table, i: nat)
    requires t.Valid() && Ready(t) && i < t.height
    ensures Added(t)[UsefulnessName][i] == CellOf(RowMeans(t, UsefulnessItems)[i])
  {
  }

  /** Row by row: the controls are the answers as numbers, and the age band is that of the numeric age. */
  lemma AddedControls(t: Table, i: nat)
    requires t.Valid() && Ready(t) && i < t.height
    ensures var m := Added(t);
      && m[AgeName][i] == CellOf(ToNumeric(t.cols[AgeItem][i]))
      && m[FreqWorkName][i] == CellOf(ToNumeric(t.cols[FreqWorkItem][i]))
      && m[AgeGroupName][i] == Str(AgeBand(ToNumeric(t.cols[AgeItem][i])))
  {
    var ages := Coerce(t.cols[AgeItem]);
    var freq := Coerce(t.cols[FreqWorkItem]);
    assert ages[i] == CellOf(ToNumeric(t.cols[AgeItem][i])) by {
      if !ages[i].Missing? {
        assert ages[i].Num?;
      }
    }
    assert freq[i] == CellOf(ToNumeric(t.cols[FreqWorkItem][i])) by {
      if !freq[i].Missing? {
        assert freq[i].Num?;
      }
    }
  }
}
