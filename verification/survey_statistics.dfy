/**
 * `SurveyStatistics` of the analysis package: demographic summaries of a
 * table that is handed over already loaded. The age summary, and one
 * per-category count for each of the gender, school-education and
 * vocational-education questions.
 */
module SurveyStatistics {
  import opened Wrappers
  import opened Frame
  import opened Tally
  import Stats

  const AgeColumn: string := "G02Q04"
  const AgeMissingMessage: string := "Column \"G02Q04\" not found."

  // ---------------------------------------------------------------------------
  // Ages

  predicate StrictlyAscending(d: seq<Entry<int>>) {
    forall i, j :: 0 <= i < j < |d| ==> d[i].key < d[j].key
  }

  /**
   * `{int(k): int(v) for k, v in age_counts.items()}` as written: two ages
   * with the same whole part share a key, and the later count replaces the
   * earlier one.
   */
  function PerAgeAsWritten(h: seq<Stats.Bin>): (r: seq<Entry<int>>)
    ensures DistinctKeys(r)
  {
    if h == [] then []
    else
      var e := h[|h| - 1];
      Put(PerAgeAsWritten(h[..|h| - 1]), Stats.Trunc(e.key), e.count)
  }

  /**
   * The intended count per whole age: ages with the same whole part add
   * their counts (`d[k] = d.get(k, 0) + v`), so the counts add up to the
   * number of ages and the keys stay ascending.
   */
  function PerAge(h: seq<Stats.Bin>): (r: seq<Entry<int>>)
    requires Stats.Ascending(h)
    ensures StrictlyAscending(r) && SumCounts(r) == Stats.TotalCount(h)
    ensures h != [] ==> r != [] && r[|r| - 1].key == Stats.Trunc(h[|h| - 1].key)
    ensures h == [] ==> r == []
  {
    if h == [] then []
    else
      var init, e := h[..|h| - 1], h[|h| - 1];
      SplitLast(h);
      assert h == init + [e];
      var p := PerAge(init);
      LastKeyBelow(init, e, p);
      TotalCountSnoc(init, e);
      AddAtEnd(p, Stats.Trunc(e.key), e.count)
  }

  lemma SplitLast(h: seq<Stats.Bin>)
    requires Stats.Ascending(h) && h != []
    ensures Stats.Ascending(h[..|h| - 1])
    ensures |h| > 1 ==> h[..|h| - 1][|h| - 2].key < h[|h| - 1].key
  {
  }

  lemma LastKeyBelow(init: seq<Stats.Bin>, e: Stats.Bin, p: seq<Entry<int>>)
    requires init != [] ==> init[|init| - 1].key < e.key
    requires init != [] ==> p != [] && p[|p| - 1].key == Stats.Trunc(init[|init| - 1].key)
    ensures p != [] && init != [] ==> p[|p| - 1].key <= Stats.Trunc(e.key)
  {
    if init != [] {
      Stats.TruncMonotone(init[|init| - 1].key, e.key);
    }
  }

  /**
   * `d[k] = d.get(k, 0) + v` on a dictionary with ascending keys, none
   * larger than `k`: the last entry grows, or a new last entry appears.
   */
  function AddAtEnd(p: seq<Entry<int>>, k: int, v: nat): (r: seq<Entry<int>>)
    requires StrictlyAscending(p) && (p != [] ==> p[|p| - 1].key <= k)
    ensures StrictlyAscending(r) && r != [] && r[|r| - 1].key == k
    ensures SumCounts(r) == SumCounts(p) + v
  {
    if p != [] && p[|p| - 1].key == k then
      var q, last := p[..|p| - 1], p[|p| - 1];
      var merged := Entry(k, last.count + v);
      assert p == q + [last];
      assert q != [] ==> q[|q| - 1] == p[|p| - 2];
      AscendingSnoc(q, merged);
      SumCountsSnoc(q, last);
      SumCountsSnoc(q, merged);
      q + [merged]
    else
      AscendingSnoc(p, Entry(k, v));
      SumCountsSnoc(p, Entry(k, v));
      p + [Entry(k, v)]
  }

  lemma AscendingSnoc(q: seq<Entry<int>>, e: Entry<int>)
    requires StrictlyAscending(q) && (q != [] ==> q[|q| - 1].key < e.key)
    ensures StrictlyAscending(q + [e]) && (q + [e])[|q|] == e
  {
    var r := q + [e];
    forall i, j | 0 <= i < j < |r|
      ensures r[i].key < r[j].key
    {
      if j == |q| {
        assert r[i] == q[i];
        if i < |q| - 1 {
          assert q[i].key < q[|q| - 1].key;
        }
      } else {
        assert r[i] == q[i] && r[j] == q[j];
      }
    }
  }

  /**
   * Each step of `PerAge` is the dictionary update `d[k] = d.get(k, 0) + v`
   * with the truncated age of the next bin.
   */
  lemma PerAgeAccumulates(h: seq<Stats.Bin>)
    requires Stats.Ascending(h) && h != []
    ensures Stats.Ascending(h[..|h| - 1])
    ensures PerAge(h) == Add(PerAge(h[..|h| - 1]), Stats.Trunc(h[|h| - 1].key), h[|h| - 1].count)
  {
    var init, e := h[..|h| - 1], h[|h| - 1];
    SplitLast(h);
    var p := PerAge(init);
    LastKeyBelow(init, e, p);
    assert init == [] ==> p == [];
    AddAtEndIsAdd(p, Stats.Trunc(e.key), e.count);
  }

  lemma AddAtEndIsAdd(p: seq<Entry<int>>, k: int, v: nat)
    requires StrictlyAscending(p) && (p != [] ==> p[|p| - 1].key <= k)
    ensures Add(p, k, v) == AddAtEnd(p, k, v)
  {
    if p != [] && p[|p| - 1].key == k {
      AddMergesLast(p, k, v);
    } else {
      AddAppends(p, k, v);
    }
  }

  /** Adding to the last key of an ascending dictionary changes only the last entry. */
  lemma {:induction false} AddMergesLast(p: seq<Entry<int>>, k: int, v: nat)
    requires StrictlyAscending(p) && p != [] && p[|p| - 1].key == k
    ensures Add(p, k, v) == p[..|p| - 1] + [Entry(k, p[|p| - 1].count + v)]
  {
    if |p| == 1 {
      assert p[..0] == [];
    } else {
      var t := p[1..];
      assert p[0].key < p[|p| - 1].key;
      assert t[|t| - 1] == p[|p| - 1];
      AddMergesLast(t, k, v);
      assert Add(t, k, v) == t[..|t| - 1] + [Entry(k, p[|p| - 1].count + v)];
      AddPassesHead(p, k, v);
      FrontOfCons(p);
      ConcatAssoc([p[0]], t[..|t| - 1], [Entry(k, p[|p| - 1].count + v)]);
    }
  }

  /** Adding a key above every key of an ascending dictionary appends it. */
  lemma {:induction false} AddAppends(p: seq<Entry<int>>, k: int, v: nat)
    requires StrictlyAscending(p) && (p != [] ==> p[|p| - 1].key < k)
    ensures Add(p, k, v) == p + [Entry(k, v)]
  {
    if p != [] {
      var t := p[1..];
      assert p[0].key < k;
      if t != [] {
        assert t[|t| - 1] == p[|p| - 1];
      }
      AddAppends(t, k, v);
      AddPassesHead(p, k, v);
      SnocOfCons(p, Entry(k, v));
    }
  }

  /**
   * When no two ages share a whole part, the comprehension as written and
   * the intended summing give the same per-age counts.
   */
  lemma {:induction false} PerAgeAgrees(h: seq<Stats.Bin>)
    requires Stats.Ascending(h)
    requires forall i :: 0 < i < |h| ==> Stats.Trunc(h[i - 1].key) < Stats.Trunc(h[i].key)
    ensures PerAgeAsWritten(h) == PerAge(h)
  {
    if h != [] {
      var init := h[..|h| - 1];
      SplitLast(h);
      assert forall i :: 0 < i < |init| ==> Stats.Trunc(init[i - 1].key) < Stats.Trunc(init[i].key) by {
        forall i | 0 < i < |init|
          ensures Stats.Trunc(init[i - 1].key) < Stats.Trunc(init[i].key)
        {
          assert init[i - 1] == h[i - 1] && init[i] == h[i];
        }
      }
      PerAgeAgrees(init);
      PerAgeAgreesStep(h);
    }
  }

  /** One step of `PerAgeAgrees`: a bin with a new whole age is appended by both rules. */
  lemma PerAgeAgreesStep(h: seq<Stats.Bin>)
    requires Stats.Ascending(h) && h != [] && Stats.Ascending(h[..|h| - 1])
    requires |h| > 1 ==> Stats.Trunc(h[|h| - 2].key) < Stats.Trunc(h[|h| - 1].key)
    requires PerAgeAsWritten(h[..|h| - 1]) == PerAge(h[..|h| - 1])
    ensures PerAgeAsWritten(h) == PerAge(h)
  {
    var init, e := h[..|h| - 1], h[|h| - 1];
    var p, k := PerAge(init), Stats.Trunc(e.key);
    if init != [] {
      assert init[|init| - 1] == h[|h| - 2];
    }
    assert p != [] ==> p[|p| - 1].key < k;
    assert PerAge(h) == AddAtEnd(p, k, e.count);
    assert AddAtEnd(p, k, e.count) == p + [Entry(k, e.count)];
    assert PerAgeAsWritten(h) == Put(p, k, e.count);
    PutAppends(p, k, e.count);
  }

  /** Writing a key above every key of an ascending dictionary appends it. */
  lemma {:induction false} PutAppends(p: seq<Entry<int>>, k: int, v: nat)
    requires StrictlyAscending(p) && (p != [] ==> p[|p| - 1].key < k)
    ensures Put(p, k, v) == p + [Entry(k, v)]
  {
    if p != [] {
      var t := p[1..];
      assert p[0].key < k;
      if t != [] {
        assert t[|t| - 1] == p[|p| - 1];
      }
      PutAppends(t, k, v);
      assert Put(p, k, v) == [p[0]] + Put(t, k, v);
      SnocOfCons(p, Entry(k, v));
    }
  }

  /** Dropping the last element of a sequence of two or more keeps its head in front. */
  lemma FrontOfCons<T>(p: seq<T>)
    requires |p| >= 2
    ensures p[..|p| - 1] == [p[0]] + p[1..][..|p| - 2]
  {
  }

  lemma ConcatAssoc<T>(a: seq<T>, b: seq<T>, c: seq<T>)
    ensures a + (b + c) == (a + b) + c
  {
  }

  /** Appending to a non-empty sequence appends to its tail. */
  lemma SnocOfCons<T>(p: seq<T>, x: T)
    requires p != []
    ensures p + [x] == [p[0]] + (p[1..] + [x])
  {
  }

  lemma AddPassesHead(p: seq<Entry<int>>, k: int, v: nat)
    requires p != [] && p[0].key != k
    ensures Add(p, k, v) == [p[0]] + Add(p[1..], k, v)
  {
  }

  lemma {:induction false} TotalCountSnoc(h: seq<Stats.Bin>, e: Stats.Bin)
    ensures Stats.TotalCount(h + [e]) == Stats.TotalCount(h) + e.count
  {
    if h != [] {
      assert (h + [e])[1..] == h[1..] + [e];
      TotalCountSnoc(h[1..], e);
    } else {
      assert ([] + [e])[1..] == [];
    }
  }

  /**
   * Ages 30.2 and 30.7: two participants, but the dictionary as written
   * reports one participant of age 30.
   */
  lemma PerAgeCollision()
    ensures Stats.Histogram([30.2, 30.7]) == [Stats.Bin(30.2, 1), Stats.Bin(30.7, 1)]
    ensures PerAgeAsWritten([Stats.Bin(30.2, 1), Stats.Bin(30.7, 1)]) == [Entry(30, 1)]
    ensures PerAge([Stats.Bin(30.2, 1), Stats.Bin(30.7, 1)]) == [Entry(30, 2)]
  {
    var h := [Stats.Bin(30.2, 1), Stats.Bin(30.7, 1)];
    assert [30.2, 30.7][..1] == [30.2] && [30.2][..0] == [];
    assert Stats.Histogram([30.2]) == [Stats.Bin(30.2, 1)];
    assert [Stats.Bin(30.2, 1)][1..] == [];
    assert Stats.AddOne([Stats.Bin(30.2, 1)], 30.7) == [Stats.Bin(30.2, 1)] + Stats.AddOne([], 30.7);
    assert h[..1] == [Stats.Bin(30.2, 1)] && h[..1][..0] == [];
    assert Stats.Trunc(30.2) == 30 && Stats.Trunc(30.7) == 30;
  }

  /** The numeric ages: `to_numeric(errors="coerce")` without the missing ones. */
  function Ages(t: Table): (r: seq<real>)
    requires t.Valid() && AgeColumn in t.cols
  {
    Stats.Present(NumericColumn(t.cols[AgeColumn]))
  }

  /**
   * The result of `age_statistics`. `variance` is the sample variance whose
   * square root the source reports as `std`.
   */
  datatype AgeReport =
    | AgeColumnMissing(message: string)
    | AgeSummary(mean: real, median: real, variance: Option<real>, min: int, max: int,
                 count: nat, perAge: seq<Entry<int>>)

  /**
   * `age_statistics()`: the not-found message without the age column;
   * `ValueError` from `int(NaN)` when the column holds no numeric age;
   * otherwise the summary of the numeric ages.
   */
  function AgeStatistics(t: Table): (r: Result<AgeReport, PyError>)
    requires t.Valid()
    ensures AgeColumn !in t.cols <==> r == Ok(AgeColumnMissing(AgeMissingMessage))
    ensures r.Err? <==> AgeColumn in t.cols && Ages(t) == []
    ensures r.Err? ==> r.error == ValueError
    ensures r.Ok? && r.value.AgeSummary? ==>
      var s := r.value;
      && s.count == |Ages(t)| > 0
      && s.min <= s.max
      && s.min == Stats.Trunc(Stats.MinOf(Ages(t))) && s.max == Stats.Trunc(Stats.MaxOf(Ages(t)))
      && Stats.MinOf(Ages(t)) <= s.mean <= Stats.MaxOf(Ages(t))
      && Stats.MinOf(Ages(t)) <= s.median <= Stats.MaxOf(Ages(t))
      && s.mean == Stats.Mean(Ages(t)) && s.median == Stats.Median(Ages(t))
      && s.variance == Stats.SampleVar(Ages(t))
      && StrictlyAscending(s.perAge) && SumCounts(s.perAge) == s.count
      && s.perAge == PerAge(Stats.Histogram(Ages(t)))
  {
    if AgeColumn !in t.cols then Ok(AgeColumnMissing(AgeMissingMessage))
    else
      var ages := Ages(t);
      if ages == [] then Err(ValueError)
      else
        var lo, hi := Stats.MinOf(ages), Stats.MaxOf(ages);
        Stats.MeanBounds(lo, ages, hi);
        Stats.MedianBounds(ages);
        Stats.TruncMonotone(lo, hi);
        Ok(AgeSummary(Stats.Mean(ages), Stats.Median(ages), Stats.SampleVar(ages),
                      Stats.Trunc(lo), Stats.Trunc(hi), |ages|, PerAge(Stats.Histogram(ages))))
  }

  // ---------------------------------------------------------------------------
  // Coded questions

  /** The result of a coded-question method: a message, or counts per category and the total. */
  datatype CategoryReport = NoColumns(message: string) | PerCategory(counts: seq<Entry<Label>>, total: nat)

  /**
   * The shared body of the three coded-question methods: the message when
   * neither column exists, otherwise the counts of the coalesced answers
   * under their category names. Blanks become '' and are counted, so the
   * total is the number of rows.
   */
  function CategoryStatistics(t: Table, cols: seq<string>, names: seq<string>, message: string): (r: CategoryReport)
    requires t.Valid() && |cols| == 2
    ensures r.NoColumns? <==> cols[0] !in t.cols && cols[1] !in t.cols
    ensures r.NoColumns? ==> r.message == message
    ensures r.PerCategory? ==> r.total == t.height && SumCounts(r.counts) == r.total && DistinctKeys(r.counts)
  {
    var found := Found(t, cols);
    assert found != [] <==> cols[0] in t.cols || cols[1] in t.cols by {
      assert cols[0] in cols && cols[1] in cols;
      assert found != [] ==> found[0] in found;
    }
    if found == [] then NoColumns(message)
    else
      var combined := Combined(t, found);
      PerCategory(MapLabels(names, ValueCounts(combined)), PresentCount(combined))
  }

  /** `gender_statistics()`: codes 1, 2, 3 are Male, Female, Other. */
  function GenderStatistics(t: Table): (r: CategoryReport)
    requires t.Valid()
    ensures r.NoColumns? <==> "G02Q05" !in t.cols && "G02Q05[other]" !in t.cols
    ensures r.PerCategory? ==> r.total == t.height && SumCounts(r.counts) == t.height
  {
    CategoryStatistics(t, GenderColumns, GenderNames, "No gender columns found.")
  }

  /** `school_education_statistics()`: codes 1 to 4 are Primary to University. */
  function SchoolEducationStatistics(t: Table): (r: CategoryReport)
    requires t.Valid()
    ensures r.NoColumns? <==> "G02Q06" !in t.cols && "G02Q06[other]" !in t.cols
    ensures r.PerCategory? ==> r.total == t.height && SumCounts(r.counts) == t.height
  {
    CategoryStatistics(t, SchoolColumns, SchoolNames, "No school education columns found.")
  }

  /** `vocational_education_statistics()`: codes 1 to 5 are No Training to Specialized. */
  function VocationalEducationStatistics(t: Table): (r: CategoryReport)
    requires t.Valid()
    ensures r.NoColumns? <==> "G02Q07" !in t.cols && "G02Q07[other]" !in t.cols
    ensures r.PerCategory? ==> r.total == t.height && SumCounts(r.counts) == t.height
  {
    CategoryStatistics(t, VocationalColumns, VocationalNames, "No vocational education columns found.")
  }

  /** The four results `summary()` bundles. */
  datatype Summary = Summary(age: AgeReport, gender: CategoryReport, school: CategoryReport,
                             vocational: CategoryReport)

  /**
   * `summary()`: builds the four results in order, so it raises exactly when
   * the age summary raises.
   */
  function SummaryOf(t: Table): (r: Result<Summary, PyError>)
    requires t.Valid()
    ensures r.Err? <==> AgeStatistics(t).Err?
    ensures r.Err? ==> r.error == AgeStatistics(t).error
    ensures r.Ok? ==>
      && r.value.age == AgeStatistics(t).value && r.value.gender == GenderStatistics(t)
      && r.value.school == SchoolEducationStatistics(t) && r.value.vocational == VocationalEducationStatistics(t)
  {
    var age := AgeStatistics(t);
    if age.Err? then Err(age.error)
    else Ok(Summary(age.value, GenderStatistics(t), SchoolEducationStatistics(t), VocationalEducationStatistics(t)))
  }
}
