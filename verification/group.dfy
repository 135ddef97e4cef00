/**
 * `group_data`: the construct registry of the questionnaire, one row-mean
 * column per construct, and the two motivation composites built from the
 * five regulation scales.
 */
module Group {
  import opened Wrappers
  import opened Frame
  import opened Questionnaire
  import Stats
  import Correlation

  // ---------------------------------------------------------------------------
  // The registry `SCALES`, as two parallel lists: its keys and their items

  const ExtMaterial: string := "external_regulation_material"
  const ExtSocial: string := "external_regulation_social"
  const Introjected: string := "introjected_regulation"
  const Intrinsic: string := "intrinsic_regulation"
  const Identified: string := "identified_regulation"
  const ControlledName: string := "controlled_motivation"
  const AutonomousName: string := "autonomous_motivation"

  /** The G04Q16 sub-questions of each regulation scale, in registry order. */
  const ExtMaterialIdx: seq<nat> := [13, 6, 19]
  const ExtSocialIdx: seq<nat> := [10, 16, 2]
  const IntrojectedIdx: seq<nat> := [12, 5, 18, 20]
  const IntrinsicIdx: seq<nat> := [8, 3, 14]
  const IdentifiedIdx: seq<nat> := [1, 15, 7]

  /** The construct names, in declaration order. */
  const ScaleKeys: seq<string> := [
    "usage", "age", "usefulness_work", "usefulness_learning",
    ExtMaterial, ExtSocial, Introjected, Intrinsic, Identified,
    "upskilling", "reskilling", "young_group"
  ]

  /** The item columns of each construct, in the same order as ScaleKeys. */
  const ScaleItems: seq<seq<string>> := [
    ["G03Q12"],
    ["G02Q04"],
    Items("G03Q13", [1, 2, 3, 4, 5, 6, 8, 9, 10, 11]),
    Items("G03Q14", [1, 2, 3, 4, 5, 6, 7, 8, 9, 10]),
    Items("G04Q16", ExtMaterialIdx),
    Items("G04Q16", ExtSocialIdx),
    Items("G04Q16", IntrojectedIdx),
    Items("G04Q16", IntrinsicIdx),
    Items("G04Q16", IdentifiedIdx),
    Items("G05Q18", [1, 2, 3, 4, 5]),
    Items("G05Q19", [1, 2, 3, 4, 5, 6]),
    ["young_group"]
  ]

  /** `[item for items in SCALES.values() for item in items]`. */
  function Flatten(lists: seq<seq<string>>): (r: seq<string>)
    ensures forall k, m :: 0 <= k < |lists| && 0 <= m < |lists[k]| ==> lists[k][m] in r
    ensures forall n :: n in r ==> exists k :: 0 <= k < |lists| && n in lists[k]
  {
    if lists == [] then []
    else
      var rest := Flatten(lists[1..]);
      assert forall k :: 1 <= k < |lists| ==> lists[k] == lists[1..][k - 1];
      lists[0] + rest
  }

  const AllItems: seq<string> := Flatten(ScaleItems)

  /** No construct name occurs twice, and neither composite name is a construct name. */
  lemma ScaleKeysDistinct()
    ensures |ScaleKeys| == |ScaleItems| == 12
    ensures Distinct(ScaleKeys)
    ensures ControlledName !in ScaleKeys && AutonomousName !in ScaleKeys && ControlledName != AutonomousName
  {
  }

  // ---------------------------------------------------------------------------
  // Composites

  /**
   * `((external_material + external_social) / 2 + introjected) / 2`: missing
   * when any part is, otherwise weights 1/4, 1/4 and 1/2.
   */
  function ControlledScore(em: Option<real>, es: Option<real>, intro: Option<real>): (r: Option<real>)
    ensures r.Some? <==> em.Some? && es.Some? && intro.Some?
    ensures r.Some? ==> r.value == em.value / 4.0 + es.value / 4.0 + intro.value / 2.0
  {
    if em.Some? && es.Some? && intro.Some? then Some(((em.value + es.value) / 2.0 + intro.value) / 2.0)
    else None
  }

  /** `(intrinsic + identified) / 2`: missing when either part is, otherwise their mean. */
  function AutonomousScore(intr: Option<real>, ident: Option<real>): (r: Option<real>)
    ensures r.Some? <==> intr.Some? && ident.Some?
    ensures r.Some? ==> r.value == Stats.Mean([intr.value, ident.value])
  {
    if intr.Some? && ident.Some? then
      assert [intr.value, ident.value][1..] == [ident.value] && [ident.value][1..] == [];
      assert Stats.Sum([ident.value]) == ident.value;
      assert Stats.Sum([intr.value, ident.value]) == intr.value + ident.value;
      Some((intr.value + ident.value) / 2.0)
    else None
  }

  /** A controlled score lies between the smallest and the largest of its three parts. */
  lemma ControlledBetween(em: real, es: real, intro: real, lo: real, hi: real)
    requires lo <= em <= hi && lo <= es <= hi && lo <= intro <= hi
    ensures var r := ControlledScore(Some(em), Some(es), Some(intro));
      r.Some? && lo <= r.value <= hi
  {
  }

  /** An autonomous score lies between its two parts. */
  lemma AutonomousBetween(intr: real, ident: real, lo: real, hi: real)
    requires lo <= intr <= hi && lo <= ident <= hi
    ensures var r := AutonomousScore(Some(intr), Some(ident));
      r.Some? && lo <= r.value <= hi
  {
  }

  /**
   * The controlled score is not the plain mean of the three parts: with
   * parts 1, 1 and 4 it is 2.5, where the mean would be 2.
   */
  lemma ControlledIsWeighted()
    ensures ControlledScore(Some(1.0), Some(1.0), Some(4.0)) == Some(2.5)
    ensures Stats.Mean([1.0, 1.0, 4.0]) == 2.0
  {
    assert Stats.Sum([1.0, 1.0, 4.0]) == 6.0;
  }

  /** The numeric value of a score cell. */
  function Score(c: Cell): Option<real> {
    ToNumeric(c)
  }

  function ControlledColumn(em: Column, es: Column, intro: Column): (r: Column)
    requires |em| == |es| == |intro|
    ensures |r| == |em|
  {
    seq(|em|, i requires 0 <= i < |em| => CellOf(ControlledScore(Score(em[i]), Score(es[i]), Score(intro[i]))))
  }

  function AutonomousColumn(intr: Column, ident: Column): (r: Column)
    requires |intr| == |ident|
    ensures |r| == |intr|
  {
    seq(|intr|, i requires 0 <= i < |intr| => CellOf(AutonomousScore(Score(intr[i]), Score(ident[i]))))
  }

  // ---------------------------------------------------------------------------
  // Scale columns

  /** `input_df[items].mean(axis=1)` as a column. */
  function MeanColumn(t: Table, items: seq<string>): (r: Column)
    requires t.Valid() && forall k :: 0 <= k < |items| ==> items[k] in t.cols
    ensures |r| == t.height
  {
    var means := RowMeans(t, items);
    seq(t.height, i requires 0 <= i < t.height => CellOf(means[i]))
  }

  /**
   * Row `i` of a scale column is missing exactly when every item of the row
   * is missing or not numeric, and lies between the smallest and the
   * largest numeric item of the row otherwise.
   */
  lemma MeanColumnRow(t: Table, items: seq<string>, i: nat, lo: real, hi: real)
    requires t.Valid() && forall k :: 0 <= k < |items| ==> items[k] in t.cols
    requires i < t.height
    requires forall k :: 0 <= k < |items| && ToNumeric(t.cols[items[k]][i]).Some? ==>
      lo <= ToNumeric(t.cols[items[k]][i]).value <= hi
    ensures MeanColumn(t, items)[i].Missing? <==>
      forall k :: 0 <= k < |items| ==> ToNumeric(t.cols[items[k]][i]).None?
    ensures MeanColumn(t, items)[i].Num? ==> lo <= MeanColumn(t, items)[i].x <= hi
  {
    var row := NumericColumn(RowCells(t, items, i));
    assert Stats.MeanSkipNa(row).None? <==> forall k :: 0 <= k < |row| ==> row[k].None?;
    Stats.MeanSkipNaBounds(lo, row, hi);
  }

  /** A one-item scale such as `age` is that item's numeric value. */
  lemma SingleItemScale(t: Table, n: string, i: nat)
    requires t.Valid() && n in t.cols && i < t.height
    ensures Score(MeanColumn(t, [n])[i]) == ToNumeric(t.cols[n][i])
  {
    var row := NumericColumn(RowCells(t, [n], i));
    assert Stats.Present(row) == Stats.Present([]) + (if row[0].Some? then [row[0].value] else []) by {
      Stats.PresentSnoc([], row[0]);
      assert [] + [row[0]] == row;
    }
    if row[0].Some? {
      assert Stats.Sum([row[0].value]) == row[0].value;
    }
  }

  // ---------------------------------------------------------------------------
  // group_data

  /** Every item of every listed scale is a column of `t`. */
  ghost predicate ItemsPresent(t: Table, lists: seq<seq<string>>) {
    t.Valid() && forall k, m :: 0 <= k < |lists| && 0 <= m < |lists[k]| ==> lists[k][m] in t.cols
  }

  /** If none of the flattened items is absent, every scale's items are present. */
  lemma FlattenPresent(t: Table, lists: seq<seq<string>>)
    requires t.Valid() && AbsentColumns(t, Flatten(lists)) == []
    ensures ItemsPresent(t, lists)
  {
  }

  /**
   * `df` holds one column per key, in key order, each the row mean of that
   * key's items in `t`.
   */
  ghost predicate ScalesBuilt(t: Table, keys: seq<string>, lists: seq<seq<string>>, df: Table) {
    && ItemsPresent(t, lists) && |keys| == |lists|
    && df.Valid() && df.height == t.height && df.names == keys
    && forall k :: 0 <= k < |keys| ==> df.cols[keys[k]] == MeanColumn(t, lists[k])
  }

  /** The first `k` keys are built: their columns, in key order, and no others. */
  ghost predicate PartlyBuilt(t: Table, keys: seq<string>, lists: seq<seq<string>>, k: nat, df: Table) {
    && ItemsPresent(t, lists) && k <= |keys| == |lists|
    && df.Valid() && df.height == t.height && df.names == keys[..k]
    && forall j :: 0 <= j < k ==> df.cols[keys[j]] == MeanColumn(t, lists[j])
  }

  /** Adding the next key's column builds one more key. */
  lemma BuildStep(t: Table, keys: seq<string>, lists: seq<seq<string>>, k: nat, df: Table)
    requires Distinct(keys) && k < |keys| && PartlyBuilt(t, keys, lists, k, df)
    ensures PartlyBuilt(t, keys, lists, k + 1, WithColumn(df, keys[k], MeanColumn(t, lists[k])))
  {
    assert keys[..k + 1] == keys[..k] + [keys[k]];
    assert keys[k] !in df.cols;
  }

  /**
   * The loop over `SCALES.items()`: a new frame gains the row-mean column of
   * each scale in turn.
   */
  method BuildScales(t: Table, keys: seq<string>, lists: seq<seq<string>>) returns (df: DataFrame)
    requires ItemsPresent(t, lists) && |keys| == |lists| && Distinct(keys)
    ensures fresh(df) && ScalesBuilt(t, keys, lists, df.table)
  {
    df := new DataFrame(Table([], map[], t.height));
    for k := 0 to |keys|
      invariant PartlyBuilt(t, keys, lists, k, df.table)
    {
      BuildStep(t, keys, lists, k, df.table);
      df.SetColumn(keys[k], MeanColumn(t, lists[k]));
    }
    assert keys[..|keys|] == keys;
  }

  /** The regulation names are the registry keys 4 to 8. */
  lemma RegulationKeys()
    ensures |ScaleKeys| == 12
    ensures ScaleKeys[4] == ExtMaterial && ScaleKeys[5] == ExtSocial && ScaleKeys[6] == Introjected
    ensures ScaleKeys[7] == Intrinsic && ScaleKeys[8] == Identified
  {
  }

  /**
   * What `group_data` returns for the coerced input `t`: the construct
   * columns in registry order, each the row mean of its items, then the two
   * composites computed from the regulation columns.
   */
  ghost predicate Grouped(t: Table, g: Table) {
    && ItemsPresent(t, ScaleItems) && |ScaleKeys| == |ScaleItems| == 12
    && g.Valid() && g.height == t.height
    && g.names == ScaleKeys + [ControlledName, AutonomousName]
    && (forall k :: 0 <= k < |ScaleKeys| ==> g.cols[ScaleKeys[k]] == MeanColumn(t, ScaleItems[k]))
    && g.cols[ControlledName] ==
         ControlledColumn(g.cols[ScaleKeys[4]], g.cols[ScaleKeys[5]], g.cols[ScaleKeys[6]])
    && g.cols[AutonomousName] == AutonomousColumn(g.cols[ScaleKeys[7]], g.cols[ScaleKeys[8]])
  }

  /**
   * `group_data(input_df)`: coerces every registry item of the caller's
   * frame to numbers in place, or raises `KeyError` naming the absent items
   * and changes nothing; then builds the construct table.
   */
  method GroupData(input: DataFrame) returns (r: Result<Table, KeyError>)
    requires input.table.Valid()
    modifies input
    ensures AbsentColumns(old(input.table), AllItems) != [] ==>
      r == Err(KeyError(AbsentColumns(old(input.table), AllItems))) && input.table == old(input.table)
    ensures AbsentColumns(old(input.table), AllItems) == [] ==>
      input.table == CoerceItems(old(input.table), AllItems) && r.Ok? && Grouped(input.table, r.value)
  {
    var absent := AbsentColumns(input.table, AllItems);
    if absent != [] {
      return Err(KeyError(absent));
    }
    FlattenPresent(input.table, ScaleItems);
    input.CoerceColumns(AllItems);
    var t := input.table;
    ScaleKeysDistinct();
    var df := BuildScales(t, ScaleKeys, ScaleItems);
    RegulationKeys();
    var s := df.table;
    df.SetColumn(ControlledName, ControlledColumn(s.cols[ExtMaterial], s.cols[ExtSocial], s.cols[Introjected]));
    var c := df.table;
    df.SetColumn(AutonomousName, AutonomousColumn(c.cols[Intrinsic], c.cols[Identified]));
    WithComposites(t, s);
    return Ok(df.table);
  }

  /** Appending the two composites to the built scales gives the `group_data` table. */
  lemma WithComposites(t: Table, s: Table)
    requires ScalesBuilt(t, ScaleKeys, ScaleItems, s)
    ensures var c := WithColumn(s, ControlledName,
                                ControlledColumn(s.cols[ExtMaterial], s.cols[ExtSocial], s.cols[Introjected]));
      Grouped(t, WithColumn(c, AutonomousName, AutonomousColumn(c.cols[Intrinsic], c.cols[Identified])))
  {
    ScaleKeysDistinct();
    RegulationKeys();
  }

  /** The construct columns of `group_data` are means of the original, uncoerced cells. */
  lemma GroupedOfOriginal(t0: Table, g: Table, k: nat)
    requires t0.Valid() && Grouped(CoerceItems(t0, AllItems), g) && k < |ScaleKeys|
    ensures forall m :: 0 <= m < |ScaleItems[k]| ==> ScaleItems[k][m] in t0.cols
    ensures g.cols[ScaleKeys[k]] == MeanColumn(t0, ScaleItems[k])
  {
    CoerceItemsKeepsRowMeans(t0, AllItems, ScaleItems[k]);
  }

  // ---------------------------------------------------------------------------
  // The regulation lists

  /**
   * The five regulation scales share no item and leave out the attention
   * check G04Q16[9] and the amotivation items G04Q16[4], [11] and [17].
   */
  lemma RegulationIndicesDisjoint()
    ensures var lists := [ExtMaterialIdx, ExtSocialIdx, IntrojectedIdx, IntrinsicIdx, IdentifiedIdx];
      forall a, b, i :: 0 <= a < b < 5 && i in lists[a] ==> i !in lists[b]
    ensures var lists := [ExtMaterialIdx, ExtSocialIdx, IntrojectedIdx, IntrinsicIdx, IdentifiedIdx];
      forall a :: 0 <= a < 5 ==> 4 !in lists[a] && 9 !in lists[a] && 11 !in lists[a] && 17 !in lists[a]
  {
  }

  /**
   * The controlled items of the correlation script are exactly the items
   * of the external and introjected scales, and its autonomous items exactly
   * those of the intrinsic and identified scales.
   */
  lemma RegulationMatchesCorrelation(n: string)
    ensures n in Correlation.ControlledItems <==> n in ScaleItems[4] || n in ScaleItems[5] || n in ScaleItems[6]
    ensures n in Correlation.AutonomousItems <==> n in ScaleItems[7] || n in ScaleItems[8]
  {
    if exists i :: n == ItemName("G04Q16", i) {
      var i :| n == ItemName("G04Q16", i);
      ItemsMember("G04Q16", Correlation.ControlledIdx, i);
      ItemsMember("G04Q16", Correlation.AutonomousIdx, i);
      ItemsMember("G04Q16", ExtMaterialIdx, i);
      ItemsMember("G04Q16", ExtSocialIdx, i);
      ItemsMember("G04Q16", IntrojectedIdx, i);
      ItemsMember("G04Q16", IntrinsicIdx, i);
      ItemsMember("G04Q16", IdentifiedIdx, i);
    } else {
      NotAnItem(n, Correlation.ControlledIdx);
      NotAnItem(n, Correlation.AutonomousIdx);
      NotAnItem(n, ExtMaterialIdx);
      NotAnItem(n, ExtSocialIdx);
      NotAnItem(n, IntrojectedIdx);
      NotAnItem(n, IntrinsicIdx);
      NotAnItem(n, IdentifiedIdx);
    }
  }

  lemma NotAnItem(n: string, idx: seq<nat>)
    requires forall i :: n != ItemName("G04Q16", i)
    ensures n !in Items("G04Q16", idx)
  {
    if n in Items("G04Q16", idx) {
      ItemsShape("G04Q16", idx, n);
    }
  }
}
