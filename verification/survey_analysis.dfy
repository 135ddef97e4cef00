/**
 * `SurveyAnalyzer` from src/survey_analysis.py: Likert answers are normalised
 * to numbers, prefix-selected item columns are averaged into scale columns,
 * and the two age cohorts are tagged, stacked and reduced to complete rows.
 */
module SurveyAnalysis {
  import opened Wrappers
  import opened Text
  import Stats
  import opened Frame

  /** The seven verbal answers of the Likert items and their scores. */
  const WordMap: map<string, real> := map[
    "not at all" := 1.0, "very little" := 2.0, "a little" := 3.0, "moderately" := 4.0,
    "strongly" := 5.0, "very strongly" := 6.0, "completely" := 7.0]

  /** The score of an already lower-cased answer phrase; only the seven exact phrases score. */
  function WordScore(w: string): (r: Option<real>)
    ensures w == "not at all" <==> r == Some(1.0)
    ensures w == "very little" <==> r == Some(2.0)
    ensures w == "a little" <==> r == Some(3.0)
    ensures w == "moderately" <==> r == Some(4.0)
    ensures w == "strongly" <==> r == Some(5.0)
    ensures w == "very strongly" <==> r == Some(6.0)
    ensures w == "completely" <==> r == Some(7.0)
    ensures r.Some? ==> 1.0 <= r.value <= 7.0
  {
    if w in WordMap then Some(WordMap[w]) else None
  }

  /**
   * `to_numeric_likert` on one answer text: the integer its stripped text
   * starts with, else the score of the lower-cased phrase, else missing.
   */
  function LikertText(s: string): (r: Option<real>)
    ensures r.Some? ==> r.value >= 0.0
  {
    var t := Strip(s);
    var digits := LeadingDigits(t);
    if digits != [] then Some(DigitsValue(digits) as real) else WordScore(Lower(t))
  }

  /**
   * `to_numeric_likert` on one cell, which is first rendered as text: an
   * empty cell becomes "nan" and a non-negative number is read by its
   * integer part; a negative one starts with '-' and scores nothing.
   */
  function LikertCell(c: Cell): (r: Option<real>)
    ensures c.Missing? ==> r.None?
    ensures c.Str? ==> r == LikertText(c.s)
    ensures c.Num? ==> (r.Some? <==> c.x >= 0.0)
    ensures c.Num? && r.Some? ==> r.value <= c.x < r.value + 1.0
  {
    match c
    case Missing => None  // the text "nan" scores nothing, see LikertNan
    case Str(s) => LikertText(s)
    case Num(x) => if x >= 0.0 then Some(x.Floor as real) else None
  }

  /**
   * A cell whose stripped text starts with the decimal rendering of `n`
   * scores `n`, whatever non-digit text follows.
   */
  lemma LikertLeadingInteger(s: string, n: nat, rest: string)
    requires Strip(s) == NatToString(n) + rest
    requires rest == [] || !IsDigit(rest[0])
    ensures LikertText(s) == Some(n as real)
  {
    NatToStringLeading(n, rest);
    NatToStringRoundTrip(n);
  }

  /** A padded whole number scores that number. */
  lemma LikertPaddedInteger(pre: string, n: nat, post: string)
    requires AllSpace(pre) && AllSpace(post)
    ensures LikertText(pre + NatToString(n) + post) == Some(n as real)
  {
    var d := NatToString(n);
    assert !IsSpace(d[0]) && !IsSpace(d[|d| - 1]);
    StripPadded(pre, d, post);
    assert d + [] == d;
    LikertLeadingInteger(pre + d + post, n, []);
  }

  /**
   * An answer that does not start with a digit is scored by its phrase alone,
   * case-insensitively: the word map is consulted only when no digit leads.
   */
  lemma LikertPhrase(pre: string, w: string, post: string)
    requires AllSpace(pre) && AllSpace(post)
    requires w != [] && !IsSpace(w[0]) && !IsSpace(w[|w| - 1]) && !IsDigit(w[0])
    ensures LikertText(pre + w + post) == WordScore(Lower(w))
  {
    StripPadded(pre, w, post);
    assert LeadingDigits(w) == [];
  }

  /** The text "nan", which an empty cell becomes, scores nothing. */
  lemma LikertNan()
    ensures LikertText("nan") == None
    ensures LikertCell(Missing) == None
  {
    NanIsNoAnswer();
  }

  lemma NanIsNoAnswer()
    ensures Strip("nan") == "nan" && LeadingDigits("nan") == []
    ensures Lower("nan") == "nan" && "nan" !in WordMap
  {
    NanIsStripped();
    NanHasNoDigits();
    NanIsLower();
    NanIsNoPhrase();
  }

  lemma NanIsStripped()
    ensures Strip("nan") == "nan"
  {
    var w := "nan";
    assert !IsSpace(w[0]) && !IsSpace(w[2]);
    assert [] + w == w && w + [] == w;
    TrimStartPadded([], w);
    TrimEndPadded(w, []);
  }

  lemma NanHasNoDigits()
    ensures LeadingDigits("nan") == []
  {
    assert !IsDigit("nan"[0]);
  }

  lemma NanIsLower()
    ensures Lower("nan") == "nan"
  {
    var w := "nan";
    assert forall i :: 0 <= i < |w| ==> LowerChar(w[i]) == w[i];
  }

  lemma NanIsNoPhrase()
    ensures "nan" !in WordMap
  {
    assert |"nan"| == 3;
  }

  /** Per row, the normalised answers of the given items. */
  function LikertRow(t: Table, items: seq<string>, i: nat): (r: seq<Option<real>>)
    requires t.Valid() && i < t.height && forall k :: 0 <= k < |items| ==> items[k] in t.cols
    ensures |r| == |items| && forall k :: 0 <= k < |items| ==> r[k] == LikertCell(t.cols[items[k]][i])
  {
    seq(|items|, k requires 0 <= k < |items| => LikertCell(t.cols[items[k]][i]))
  }

  /**
   * `df[cols].apply(to_numeric_likert).mean(axis=1)`: one cell per row; see
   * LikertScaleRow for what each holds.
   */
  function LikertScale(t: Table, items: seq<string>): (r: Column)
    requires t.Valid() && forall k :: 0 <= k < |items| ==> items[k] in t.cols
    ensures |r| == t.height
  {
    seq(t.height, i requires 0 <= i < t.height => CellOf(Stats.MeanSkipNa(LikertRow(t, items, i))))
  }

  /**
   * Row `i` of a scale is the mean of the normalised answers present in that
   * row, and it is missing exactly when no item of the row has an answer.
   */
  lemma LikertScaleRow(t: Table, items: seq<string>, i: nat)
    requires t.Valid() && forall k :: 0 <= k < |items| ==> items[k] in t.cols
    requires i < t.height
    ensures var v := Stats.MeanSkipNa(LikertRow(t, items, i));
      LikertScale(t, items)[i] == (if v.Some? then Num(v.value) else Missing)
    ensures LikertScale(t, items)[i].Missing? <==>
      forall k :: 0 <= k < |items| ==> LikertCell(t.cols[items[k]][i]).None?
  {
    var row := LikertRow(t, items, i);
    assert Stats.MeanSkipNa(row).None? <==> forall k :: 0 <= k < |row| ==> row[k].None?;
  }

  /** A scale score lies between the smallest and largest answer it averages. */
  lemma LikertScaleBounds(t: Table, items: seq<string>, i: nat, lo: real, hi: real)
    requires t.Valid() && forall k :: 0 <= k < |items| ==> items[k] in t.cols
    requires i < t.height
    requires forall k :: 0 <= k < |items| && LikertCell(t.cols[items[k]][i]).Some? ==>
      lo <= LikertCell(t.cols[items[k]][i]).value <= hi
    ensures LikertScale(t, items)[i].Num? ==> lo <= LikertScale(t, items)[i].x <= hi
  {
    Stats.MeanSkipNaBounds(lo, LikertRow(t, items, i), hi);
  }

  function PrefixMask(names: seq<string>, prefix: string): (r: seq<bool>)
    ensures |r| == |names| && forall k :: 0 <= k < |names| ==> (r[k] <==> StartsWith(names[k], prefix))
  {
    seq(|names|, k requires 0 <= k < |names| => StartsWith(names[k], prefix))
  }

  /** The column names that start with `prefix`, in frame order. */
  function PrefixColumns(names: seq<string>, prefix: string): (r: seq<string>)
    ensures forall n :: n in r <==> n in names && StartsWith(n, prefix)
  {
    FilterMembers(names, PrefixMask(names, prefix));
    Filter(names, PrefixMask(names, prefix))
  }

  /** The message of the `ValueError` that `compute_scale` raises. */
  function NoColumnsMessage(prefix: string): string {
    "No columns found for prefix: " + prefix
  }

  /**
   * `compute_scale` on a table: an error when no column starts with `prefix`,
   * otherwise the table with the scale of exactly those columns written
   * under `newName` and every other column unchanged.
   */
  function WithScale(t: Table, prefix: string, newName: string): (r: Result<Table, string>)
    requires t.Valid()
    ensures r.Err? <==> PrefixColumns(t.names, prefix) == []
    ensures r.Err? ==> r.error == NoColumnsMessage(prefix)
    ensures r.Ok? ==> r.value.Valid() && r.value.height == t.height && newName in r.value.cols
    ensures r.Ok? ==> r.value.cols == t.cols[newName := LikertScale(t, PrefixColumns(t.names, prefix))]
  {
    var cols := PrefixColumns(t.names, prefix);
    if cols == [] then Err(NoColumnsMessage(prefix))
    else Ok(WithColumn(t, newName, LikertScale(t, cols)))
  }

  /** The scale columns `prepare_clean_dataset` writes, in the order it keeps them. */
  const ScaleNames: seq<string> := ["autonomous_use", "upskill_orientation", "reskill_orientation"]

  /** `df["upskill_orientation"] = df["autonomous_use"]`. */
  function CopyAutonomous(t: Table): (r: Table)
    requires t.Valid() && "autonomous_use" in t.cols
    ensures r.Valid() && r.height == t.height
    ensures r.cols == t.cols["upskill_orientation" := t.cols["autonomous_use"]]
  {
    WithColumn(t, "upskill_orientation", t.cols["autonomous_use"])
  }

  /** The analyser's configuration, fixed at construction. */
  class SurveyAnalyzer {
    const groupCol: string
    const youngValue: int
    const oldValue: int

    /** The configuration the scripts use. */
    constructor Default()
      ensures groupCol == "young_group" && youngValue == 1 && oldValue == 0
    {
      groupCol := "young_group";
      youngValue := 1;
      oldValue := 0;
    }

    constructor (groupCol: string, youngValue: int, oldValue: int)
      ensures this.groupCol == groupCol && this.youngValue == youngValue && this.oldValue == oldValue
    {
      this.groupCol := groupCol;
      this.youngValue := youngValue;
      this.oldValue := oldValue;
    }

    /**
     * `compute_scale`: writes the scale into the caller's frame, or fails and
     * leaves the frame as it was.
     */
    method ComputeScale(df: DataFrame, prefix: string, newName: string) returns (r: Outcome<string>)
      requires df.table.Valid()
      modifies df
      ensures df.table.Valid()
      ensures WithScale(old(df.table), prefix, newName).Err? ==>
        r == Fail(WithScale(old(df.table), prefix, newName).error) && df.table == old(df.table)
      ensures WithScale(old(df.table), prefix, newName).Ok? ==>
        r == Pass && df.table == WithScale(old(df.table), prefix, newName).value
    {
      var cols := PrefixColumns(df.table.names, prefix);
      if cols == [] {
        return Fail(NoColumnsMessage(prefix));
      }
      df.SetColumn(newName, LikertScale(df.table, cols));
      r := Pass;
    }

    /** `load_two_groups` on the two loaded exports: both tagged, young rows first. */
    function LoadTwoGroups(young: Table, older: Table): (r: Table)
      requires young.Valid() && older.Valid()
      ensures r.Valid() && r.height == young.height + older.height
      ensures forall n :: n in r.cols <==> n == groupCol || n in young.cols || n in older.cols
    {
      Concat(Assign(young, groupCol, Num(youngValue as real)), Assign(older, groupCol, Num(oldValue as real)))
    }

    /** The first rows are the young cohort's, unchanged, tagged with `youngValue`. */
    lemma YoungRowsFirst(young: Table, older: Table)
      requires young.Valid() && older.Valid()
      ensures var r := LoadTwoGroups(young, older);
        && (forall i :: 0 <= i < young.height ==> r.cols[groupCol][i] == Num(youngValue as real))
        && (forall n :: n in young.cols && n != groupCol ==> r.cols[n][..young.height] == young.cols[n])
    {
      TaggedConcatFirst(young, older, groupCol, Num(youngValue as real), Num(oldValue as real));
    }

    /** The remaining rows are the old cohort's, unchanged, tagged with `oldValue`. */
    lemma OlderRowsLast(young: Table, older: Table)
      requires young.Valid() && older.Valid()
      ensures var r := LoadTwoGroups(young, older);
        && (forall i :: young.height <= i < r.height ==> r.cols[groupCol][i] == Num(oldValue as real))
        && (forall n :: n in older.cols && n != groupCol ==> r.cols[n][young.height..] == older.cols[n])
    {
      TaggedConcatSecond(young, older, groupCol, Num(youngValue as real), Num(oldValue as real));
    }

    /** The columns `prepare_clean_dataset` keeps, in order. */
    function CleanNames(): seq<string> {
      [groupCol, "autonomous_use", "upskill_orientation", "reskill_orientation"]
    }

    /** The kept columns, which are distinct when the group column is not a scale. */
    function CleanColumns(): (r: seq<string>)
      requires groupCol !in ScaleNames
      ensures r == CleanNames()
      ensures forall i, j :: 0 <= i < j < |r| ==> r[i] != r[j]
    {
      assert |ScaleNames[0]| == 14 && |ScaleNames[1]| == 19 && |ScaleNames[2]| == 19;
      assert ScaleNames[1][0] != ScaleNames[2][0];
      CleanNames()
    }

    /**
     * The three scale columns `prepare_clean_dataset` writes into the stacked
     * cohorts, or the error of the first scale with no items.
     */
    function Scored(young: Table, older: Table): (r: Result<Table, string>)
      requires young.Valid() && older.Valid()
      ensures r.Ok? ==> r.value.Valid() && r.value.height == young.height + older.height
      ensures r.Ok? ==> HasCleanColumns(r.value)
    {
      var t1 := WithScale(LoadTwoGroups(young, older), "G05Q18[", "autonomous_use");
      if t1.Err? then t1 else
      var t3 := WithScale(CopyAutonomous(t1.value), "G05Q19[", "reskill_orientation");
      t3
    }

    predicate HasCleanColumns(t: Table) {
      && groupCol in t.cols && "autonomous_use" in t.cols
      && "upskill_orientation" in t.cols && "reskill_orientation" in t.cols
    }

    /**
     * `df[[groupCol, ...scales]].dropna()`: exactly the four kept columns,
     * restricted to the rows where none of them is missing.
     */
    function KeepClean(t: Table): (c: Table)
      requires t.Valid() && HasCleanColumns(t) && groupCol !in ScaleNames
      ensures c.Valid() && c.names == CleanNames()
      ensures var mask := CompleteMask(Project(t, CleanColumns()));
        && c.height == |Kept(mask)|
        && forall n :: n in c.cols ==> c.cols[n] == Filter(t.cols[n], mask)
      ensures forall n, i :: n in c.cols && 0 <= i < c.height ==> NotMissing(c.cols[n][i])
      ensures t.cols["upskill_orientation"] == t.cols["autonomous_use"] ==>
        c.cols["upskill_orientation"] == c.cols["autonomous_use"]
    {
      var names := CleanColumns();
      assert names[0] in t.cols && names[1] in t.cols && names[2] in t.cols && names[3] in t.cols;
      var p := Project(t, names);
      assert p.cols["upskill_orientation"] == t.cols["upskill_orientation"];
      assert p.cols["autonomous_use"] == t.cols["autonomous_use"];
      DropIncomplete(p)
    }

    /**
     * `prepare_clean_dataset` on the two loaded exports: the clean part of the
     * scored table, or the error of the first scale with no items.
     */
    method PrepareCleanDataset(young: Table, older: Table) returns (r: Result<Table, string>)
      requires young.Valid() && older.Valid()
      requires groupCol !in ScaleNames
      ensures Scored(young, older).Err? ==> r == Err(Scored(young, older).error)
      ensures Scored(young, older).Ok? ==> r == Ok(KeepClean(Scored(young, older).value))
    {
      var df := new DataFrame(LoadTwoGroups(young, older));
      ghost var t1 := WithScale(LoadTwoGroups(young, older), "G05Q18[", "autonomous_use");
      var e := ComputeScale(df, "G05Q18[", "autonomous_use");
      if e.Fail? {
        return Err(e.error);
      }
      assert df.table == t1.value;
      df.SetColumn("upskill_orientation", df.table.cols["autonomous_use"]);
      assert df.table == CopyAutonomous(t1.value);
      ghost var t3 := WithScale(CopyAutonomous(t1.value), "G05Q19[", "reskill_orientation");
      e := ComputeScale(df, "G05Q19[", "reskill_orientation");
      if e.Fail? {
        return Err(e.error);
      }
      assert df.table == t3.value == Scored(young, older).value;
      r := Ok(KeepClean(df.table));
    }

    /** In the scored table the upskill orientation is a copy of autonomous use. */
    lemma UpskillCopiesAutonomous(young: Table, older: Table)
      requires young.Valid() && older.Valid()
      requires Scored(young, older).Ok?
      ensures Scored(young, older).value.cols["upskill_orientation"] ==
        Scored(young, older).value.cols["autonomous_use"]
    {
      var t1 := WithScale(LoadTwoGroups(young, older), "G05Q18[", "autonomous_use").value;
      var t2 := CopyAutonomous(t1);
      assert t2.cols["upskill_orientation"] == t2.cols["autonomous_use"];
    }
  }
}
