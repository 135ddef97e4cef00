/**
 * The standalone `SurveyStatistics` script at the top of the repository.
 * It reads the survey export itself and reports raw figures: ages as
 * floats (no conversion to whole years) and answer counts keyed by the
 * raw answers, without category names, together with the columns used.
 */
module SurveyStatisticsCsv {
  import opened Wrappers
  import opened Frame
  import opened Tally
  import SurveyStatistics
  import Stats

  // ---------------------------------------------------------------------------
  // Ages

  /**
   * The result of `age_statistics`. A statistic of an empty series is NaN
   * in pandas, here `None`; `variance` is the sample variance whose square
   * root is reported as `std`.
   */
  datatype AgeReport =
    | AgeColumnMissing(message: string)
    | AgeSummary(mean: Option<real>, median: Option<real>, variance: Option<real>,
                 min: Option<real>, max: Option<real>, count: nat, perAge: seq<Stats.Bin>)

  /**
   * `age_statistics()`: the not-found message without the age column,
   * otherwise the statistics of the numeric ages; `value_counts().sort_index()`
   * gives one ascending bin per distinct age.
   */
  function AgeStatistics(t: Table): (r: AgeReport)
    requires t.Valid()
    ensures r.AgeColumnMissing? <==> SurveyStatistics.AgeColumn !in t.cols
    ensures r.AgeColumnMissing? ==> r.message == SurveyStatistics.AgeMissingMessage
    ensures r.AgeSummary? ==>
      var ages := SurveyStatistics.Ages(t);
      && r.count == |ages|
      && (r.mean.Some? <==> ages != []) && (r.median.Some? <==> ages != [])
      && (r.min.Some? <==> ages != []) && (r.max.Some? <==> ages != [])
      && (r.variance.Some? <==> |ages| >= 2)
      && (ages != [] ==>
            && r.min.value == Stats.MinOf(ages) && r.max.value == Stats.MaxOf(ages)
            && r.min.value <= r.mean.value <= r.max.value
            && r.min.value <= r.median.value <= r.max.value
            && r.mean == Some(Stats.Mean(ages)) && r.median == Some(Stats.Median(ages)))
      && r.variance == Stats.SampleVar(ages)
      && Stats.Ascending(r.perAge) && Stats.TotalCount(r.perAge) == r.count
      && forall y :: Stats.CountOf(r.perAge, y) == multiset(ages)[y]
  {
    if SurveyStatistics.AgeColumn !in t.cols then AgeColumnMissing(SurveyStatistics.AgeMissingMessage)
    else
      var ages := SurveyStatistics.Ages(t);
      if ages == [] then AgeSummary(None, None, None, None, None, 0, Stats.Histogram(ages))
      else
        var lo, hi := Stats.MinOf(ages), Stats.MaxOf(ages);
        Stats.MeanBounds(lo, ages, hi);
        Stats.MedianBounds(ages);
        AgeSummary(Some(Stats.Mean(ages)), Some(Stats.Median(ages)), Stats.SampleVar(ages),
                   Some(lo), Some(hi), |ages|, Stats.Histogram(ages))
  }

  /**
   * Where both report a summary, the analysis package's age summary is this
   * one with the extremes truncated and the ages grouped by whole year.
   */
  lemma AgeReportsAgree(t: Table)
    requires t.Valid()
    ensures var raw, whole := AgeStatistics(t), SurveyStatistics.AgeStatistics(t);
      whole.Ok? && whole.value.AgeSummary? ==>
        && raw.AgeSummary? && raw.min.Some? && raw.max.Some?
        && whole.value.min == Stats.Trunc(raw.min.value)
        && whole.value.max == Stats.Trunc(raw.max.value)
        && whole.value.count == raw.count
        && whole.value.perAge == SurveyStatistics.PerAge(raw.perAge)
  {
  }

  // ---------------------------------------------------------------------------
  // Coded questions

  /** The result of a coded-question method: a message, or raw counts, the total and the columns used. */
  datatype CategoryCounts =
    | NoColumns(message: string)
    | Counts(counts: seq<Entry<Cell>>, total: nat, columnsUsed: seq<string>)

  /**
   * The shared body of the three coded-question methods: the message when
   * neither column exists; otherwise `value_counts()` of the coalesced
   * answers, the number of answers and the found columns in listed order.
   */
  function CategoryStatistics(t: Table, cols: seq<string>, message: string): (r: CategoryCounts)
    requires t.Valid() && |cols| == 2
    ensures r.NoColumns? <==> cols[0] !in t.cols && cols[1] !in t.cols
    ensures r.NoColumns? ==> r.message == message
    ensures r.Counts? ==>
      && r.columnsUsed == (if cols[0] in t.cols then [cols[0]] else []) + (if cols[1] in t.cols then [cols[1]] else [])
      && r.total == t.height && SumCounts(r.counts) == r.total && DistinctKeys(r.counts)
      && forall v: Cell :: !v.Missing? ==> Get(r.counts, v) == Occurrences(Combined(t, r.columnsUsed), v)
  {
    var found := Found(t, cols);
    FoundPair(t, cols);
    if found == [] then NoColumns(message)
    else
      var combined := Combined(t, found);
      Counts(ValueCounts(combined), PresentCount(combined), found)
  }

  const GenderMessage: string := "No gender columns found (expected G02Q05, G02Q05[other])."
  const SchoolMessage: string := "No school education columns found (expected G02Q06, G02Q06[other])."
  const VocationalMessage: string :=
    "No vocational/academic education columns found (expected G02Q07, G02Q07[other])."

  /** `gender_statistics()`. */
  function GenderStatistics(t: Table): (r: CategoryCounts)
    requires t.Valid()
    ensures r.NoColumns? <==> GenderColumns[0] !in t.cols && GenderColumns[1] !in t.cols
    ensures r.NoColumns? ==> r.message == GenderMessage
    ensures r.Counts? ==> r.total == t.height && SumCounts(r.counts) == t.height
  {
    CategoryStatistics(t, GenderColumns, GenderMessage)
  }

  /** `school_education_statistics()`. */
  function SchoolEducationStatistics(t: Table): (r: CategoryCounts)
    requires t.Valid()
    ensures r.NoColumns? <==> SchoolColumns[0] !in t.cols && SchoolColumns[1] !in t.cols
    ensures r.NoColumns? ==> r.message == SchoolMessage
    ensures r.Counts? ==> r.total == t.height && SumCounts(r.counts) == t.height
  {
    CategoryStatistics(t, SchoolColumns, SchoolMessage)
  }

  /** `vocational_education_statistics()`. */
  function VocationalEducationStatistics(t: Table): (r: CategoryCounts)
    requires t.Valid()
    ensures r.NoColumns? <==> VocationalColumns[0] !in t.cols && VocationalColumns[1] !in t.cols
    ensures r.NoColumns? ==> r.message == VocationalMessage
    ensures r.Counts? ==> r.total == t.height && SumCounts(r.counts) == t.height
  {
    CategoryStatistics(t, VocationalColumns, VocationalMessage)
  }

  /**
   * The analysis package's gender, school and vocational counts are these
   * raw counts under their category names.
   */
  lemma NamedCountsAreRawCounts(t: Table)
    requires t.Valid()
    ensures var raw := GenderStatistics(t);
      raw.Counts? ==> SurveyStatistics.GenderStatistics(t) == SurveyStatistics.PerCategory(MapLabels(GenderNames, raw.counts), raw.total)
    ensures var raw := SchoolEducationStatistics(t);
      raw.Counts? ==> SurveyStatistics.SchoolEducationStatistics(t) == SurveyStatistics.PerCategory(MapLabels(SchoolNames, raw.counts), raw.total)
    ensures var raw := VocationalEducationStatistics(t);
      raw.Counts? ==> SurveyStatistics.VocationalEducationStatistics(t) == SurveyStatistics.PerCategory(MapLabels(VocationalNames, raw.counts), raw.total)
  {
  }

  /** The four results `summary()` bundles. */
  datatype Summary = Summary(age: AgeReport, gender: CategoryCounts, school: CategoryCounts,
                             vocational: CategoryCounts)

  /** `summary()`: the four results, each computed as its own method computes it. */
  function SummaryOf(t: Table): (r: Summary)
    requires t.Valid()
    ensures r.age.AgeColumnMissing? <==> SurveyStatistics.AgeColumn !in t.cols
    ensures r.gender == GenderStatistics(t) && r.school == SchoolEducationStatistics(t)
    ensures r.vocational == VocationalEducationStatistics(t) && r.age == AgeStatistics(t)
  {
    Summary(AgeStatistics(t), GenderStatistics(t), SchoolEducationStatistics(t), VocationalEducationStatistics(t))
  }
}
