/**
 * Counting rules of the demographic statistics: Python dictionaries of
 * counts kept as entries in insertion order, pandas' `value_counts`, the
 * coalescing of a coded column with its free-text companion, and the
 * mapping from answer codes to category names.
 */
module Tally {
  import opened Wrappers
  import opened Text
  import opened Frame

  // ---------------------------------------------------------------------------
  // Dictionaries of counts

  /** One `key: count` item of a Python dictionary. */
  datatype Entry<K> = Entry(key: K, count: nat)

  predicate DistinctKeys<K(==)>(d: seq<Entry<K>>) {
    forall i, j :: 0 <= i < j < |d| ==> d[i].key != d[j].key
  }

  predicate HasKey<K(==)>(d: seq<Entry<K>>, k: K) {
    exists i :: 0 <= i < |d| && d[i].key == k
  }

  /** The sum of the counts (`sum(d.values())`). */
  function SumCounts<K>(d: seq<Entry<K>>): nat {
    if d == [] then 0 else d[0].count + SumCounts(d[1..])
  }

  /** `d.get(k, 0)`. */
  function Get<K(==)>(d: seq<Entry<K>>, k: K): nat {
    if d == [] then 0 else if d[0].key == k then d[0].count else Get(d[1..], k)
  }

  /** `d[k] = v`: an existing key keeps its place and takes the new count. */
  function Put<K(==,!new)>(d: seq<Entry<K>>, k: K, v: nat): (r: seq<Entry<K>>)
    ensures HasKey(r, k)
    ensures forall j :: HasKey(r, j) <==> HasKey(d, j) || j == k
    ensures DistinctKeys(d) ==> DistinctKeys(r)
  {
    if d == [] then
      var r := [Entry(k, v)];
      assert r[0].key == k;
      r
    else if d[0].key == k then
      var r := [Entry(k, v)] + d[1..];
      assert r[0].key == k;
      assert forall j :: HasKey(r, j) <==> HasKey(d, j) || j == k by {
        forall j ensures HasKey(r, j) <==> HasKey(d, j) || j == k {
          if HasKey(d, j) {
            var i :| 0 <= i < |d| && d[i].key == j;
            assert r[i].key == j;
          }
          if HasKey(r, j) {
            var i :| 0 <= i < |r| && r[i].key == j;
            assert d[i].key == j || i == 0;
          }
        }
      }
      r
    else
      var t := Put(d[1..], k, v);
      var r := [d[0]] + t;
      HasKeyCons(d[0], t);
      HasKeyCons(d[0], d[1..]);
      assert d == [d[0]] + d[1..];
      ConsKeepsDistinct(d, k, t);
      r
  }

  /** `d[k] = d.get(k, 0) + v`: counts of one key accumulate. */
  function Add<K(==,!new)>(d: seq<Entry<K>>, k: K, v: nat): (r: seq<Entry<K>>)
    ensures HasKey(r, k)
    ensures forall j :: HasKey(r, j) <==> HasKey(d, j) || j == k
    ensures DistinctKeys(d) ==> DistinctKeys(r)
    ensures SumCounts(r) == SumCounts(d) + v
    ensures forall j :: Get(r, j) == Get(d, j) + (if j == k then v else 0)
  {
    if d == [] then
      var r := [Entry(k, v)];
      assert r[0].key == k;
      r
    else if d[0].key == k then
      var r := [Entry(k, d[0].count + v)] + d[1..];
      assert r[0].key == k && r[1..] == d[1..];
      assert forall j :: HasKey(r, j) <==> HasKey(d, j) || j == k by {
        forall j ensures HasKey(r, j) <==> HasKey(d, j) || j == k {
          if HasKey(d, j) {
            var i :| 0 <= i < |d| && d[i].key == j;
            assert r[i].key == j;
          }
          if HasKey(r, j) {
            var i :| 0 <= i < |r| && r[i].key == j;
            assert d[i].key == j;
          }
        }
      }
      r
    else
      var t := Add(d[1..], k, v);
      var r := [d[0]] + t;
      assert r[1..] == t;
      HasKeyCons(d[0], t);
      HasKeyCons(d[0], d[1..]);
      assert d == [d[0]] + d[1..];
      ConsKeepsDistinct(d, k, t);
      r
  }

  lemma HasKeyCons<K>(e: Entry<K>, t: seq<Entry<K>>)
    ensures forall j :: HasKey([e] + t, j) <==> e.key == j || HasKey(t, j)
  {
    var r := [e] + t;
    forall j ensures HasKey(r, j) <==> e.key == j || HasKey(t, j) {
      if HasKey(t, j) {
        var i :| 0 <= i < |t| && t[i].key == j;
        assert r[i + 1].key == j;
      }
      if HasKey(r, j) && e.key != j {
        var i :| 0 <= i < |r| && r[i].key == j;
        assert t[i - 1].key == j;
      }
    }
    assert r[0] == e;
  }

  /** Replacing the tail of `d` by `t`, which has the tail's keys and `k`, keeps the keys distinct. */
  lemma ConsKeepsDistinct<K>(d: seq<Entry<K>>, k: K, t: seq<Entry<K>>)
    requires d != [] && k != d[0].key
    requires forall j :: HasKey(t, j) <==> HasKey(d[1..], j) || j == k
    requires DistinctKeys(d[1..]) ==> DistinctKeys(t)
    ensures DistinctKeys(d) ==> DistinctKeys([d[0]] + t)
  {
    if DistinctKeys(d) {
      assert !HasKey(d[1..], d[0].key);
      DistinctCons(d[0], t);
    }
  }

  lemma DistinctCons<K>(e: Entry<K>, t: seq<Entry<K>>)
    requires DistinctKeys(t) && !HasKey(t, e.key)
    ensures DistinctKeys([e] + t)
  {
    var r := [e] + t;
    forall i, j | 0 <= i < j < |r|
      ensures r[i].key != r[j].key
    {
      if i == 0 {
        assert r[j] == t[j - 1];
      } else {
        assert r[i] == t[i - 1] && r[j] == t[j - 1];
      }
    }
  }

  // ---------------------------------------------------------------------------
  // value_counts

  /** How many entries of `vs` equal `v`. */
  function Occurrences(vs: seq<Cell>, v: Cell): nat {
    if vs == [] then 0 else Occurrences(vs[..|vs| - 1], v) + (if vs[|vs| - 1] == v then 1 else 0)
  }

  /** How many entries of `vs` are not missing (pandas `count`). */
  function PresentCount(vs: seq<Cell>): nat {
    if vs == [] then 0 else PresentCount(vs[..|vs| - 1]) + (if vs[|vs| - 1].Missing? then 0 else 1)
  }

  /**
   * `value_counts()`: each distinct non-missing value once with the number
   * of its occurrences; the counts add up to the number of present values.
   * Keys are kept in order of first appearance.
   */
  function ValueCounts(vs: seq<Cell>): (r: seq<Entry<Cell>>)
    ensures DistinctKeys(r)
    ensures SumCounts(r) == PresentCount(vs)
    ensures forall v: Cell :: !v.Missing? ==> Get(r, v) == Occurrences(vs, v)
    ensures forall v: Cell :: HasKey(r, v) <==> !v.Missing? && Occurrences(vs, v) > 0
  {
    if vs == [] then
      assert forall v: Cell :: !HasKey([], v);
      []
    else
      var d := ValueCounts(vs[..|vs| - 1]);
      var v := vs[|vs| - 1];
      if v.Missing? then d else Add(d, v, 1)
  }

  // ---------------------------------------------------------------------------
  // Coalescing a coded column with its free-text companion

  /** `fillna('')`. */
  function FillBlank(c: Cell): (r: Cell)
    ensures !r.Missing? && (c.Missing? ==> r == Str("")) && (!c.Missing? ==> r == c)
  {
    if c.Missing? then Str("") else c
  }

  /** Python truthiness of a cell: the empty text and the number zero are false. */
  predicate Truthy(c: Cell) {
    match c
    case Missing => true
    case Num(x) => x != 0.0
    case Str(s) => s != []
  }

  /**
   * After `fillna("")` a cell is false exactly when it was missing, empty
   * text or the number zero.
   */
  lemma FilledTruthy(c: Cell)
    ensures Truthy(FillBlank(c)) <==> (c.Num? && c.x != 0.0) || (c.Str? && c.s != [])
  {
  }

  /** The exception a row lambda raises. */
  datatype PyError = IndexError | ValueError

  /**
   * The row lambda `row.iloc[0] if row.iloc[0] else row.iloc[1]` over the
   * found columns after `fillna('')`, exactly as written: with one found
   * column, a blank or zero first cell reaches `row.iloc[1]`, which raises.
   */
  function CoalesceAsWritten(row: seq<Cell>): (r: Result<Cell, PyError>)
    requires 1 <= |row| <= 2
    ensures r.Err? <==> |row| == 1 && !Truthy(FillBlank(row[0]))
    ensures r.Ok? ==> !r.value.Missing?
  {
    var first := FillBlank(row[0]);
    if Truthy(first) then Ok(first)
    else if |row| == 2 then Ok(FillBlank(row[1]))
    else Err(IndexError)
  }

  /**
   * The intended rule: the first found column's value when it is non-empty,
   * otherwise the second's, and with a single found column its own value.
   */
  function Coalesce(row: seq<Cell>): (r: Cell)
    requires 1 <= |row| <= 2
    ensures !r.Missing?
    ensures Truthy(FillBlank(row[0])) ==> r == row[0]
    ensures !Truthy(FillBlank(row[0])) && |row| == 2 ==> r == FillBlank(row[1])
    ensures |row| == 1 ==> r == FillBlank(row[0])
  {
    var first := FillBlank(row[0]);
    if Truthy(first) || |row| == 1 then first else FillBlank(row[1])
  }

  /** Wherever the lambda as written returns a value, it is the intended one. */
  lemma CoalesceAgrees(row: seq<Cell>)
    requires 1 <= |row| <= 2
    ensures CoalesceAsWritten(row).Ok? ==> CoalesceAsWritten(row).value == Coalesce(row)
    ensures |row| == 2 ==> CoalesceAsWritten(row) == Ok(Coalesce(row))
  {
  }

  /** A single found column with an unanswered row: the lambda raises `IndexError`. */
  lemma CoalesceSingleBlank()
    ensures CoalesceAsWritten([Missing]) == Err(IndexError)
    ensures Coalesce([Missing]) == Str("")
  {
  }

  /** The columns of `cols` the table has, in the listed order. */
  function Found(t: Table, cols: seq<string>): (r: seq<string>)
    ensures forall n :: n in r <==> n in cols && n in t.cols
    ensures |r| <= |cols|
  {
    FilterMembers(cols, PresentMask(t, cols));
    Filter(cols, PresentMask(t, cols))
  }

  /** Of two listed columns, the ones the table has, first before second. */
  lemma FoundPair(t: Table, cols: seq<string>)
    requires |cols| == 2
    ensures Found(t, cols) ==
      (if cols[0] in t.cols then [cols[0]] else []) + (if cols[1] in t.cols then [cols[1]] else [])
  {
    var m := PresentMask(t, cols);
    assert cols[..1][..0] == [] && m[..1][..0] == [];
    assert cols[..1] == [cols[0]] && m[..1] == [m[0]];
    assert Filter(cols[..1], m[..1]) == if m[0] then [cols[0]] else [];
  }

  function PresentMask(t: Table, cols: seq<string>): (r: seq<bool>)
    ensures |r| == |cols| && forall k :: 0 <= k < |cols| ==> (r[k] <==> cols[k] in t.cols)
  {
    seq(|cols|, k requires 0 <= k < |cols| => cols[k] in t.cols)
  }

  /** The coalesced column of the found columns (one or two of them). */
  function Combined(t: Table, found: seq<string>): (r: seq<Cell>)
    requires t.Valid() && 1 <= |found| <= 2 && forall k :: 0 <= k < |found| ==> found[k] in t.cols
    ensures |r| == t.height && PresentCount(r) == t.height
  {
    var r := seq(t.height, i requires 0 <= i < t.height => Coalesce(RowCells(t, found, i)));
    AllPresent(r);
    r
  }

  lemma {:induction false} AllPresent(vs: seq<Cell>)
    requires forall i :: 0 <= i < |vs| ==> !vs[i].Missing?
    ensures PresentCount(vs) == |vs|
  {
    if vs != [] {
      AllPresent(vs[..|vs| - 1]);
    }
  }

  // ---------------------------------------------------------------------------
  // Category names

  /** A category: its name for a known code, or the raw key (`Unknown (k)`). */
  datatype Label = Known(name: string) | Unknown(key: Cell)

  /** Cell `k` is answer code `c`, written as text or stored as a number. */
  predicate IsCode(k: Cell, c: nat) {
    k == Str(NatToString(c)) || k == Num(c as real)
  }

  /**
   * `mapping.get(k, f'Unknown ({k})')` for a mapping from the codes 1..n,
   * as text and as integers, to `names`. A float key equal to an integer
   * code finds it, as Python's equal hashing of 1.0 and 1 makes it.
   */
  function CodeLabel(names: seq<string>, k: Cell): (r: Label)
    ensures forall c :: 1 <= c <= |names| && IsCode(k, c) ==> r == Known(names[c - 1])
    ensures r.Known? ==> exists c :: 1 <= c <= |names| && IsCode(k, c)
    ensures r.Unknown? ==> r.key == k
  {
    match k
    case Missing => Unknown(k)
    case Num(x) =>
      if x == x.Floor as real && 1 <= x.Floor <= |names| then
        assert IsCode(k, x.Floor);
        Known(names[x.Floor - 1])
      else Unknown(k)
    case Str(s) =>
      if s != [] && AllDigits(s) && NatToString(DigitsValue(s)) == s && 1 <= DigitsValue(s) <= |names| then
        assert IsCode(k, DigitsValue(s));
        CodeAsText(s);
        Known(names[DigitsValue(s) - 1])
      else
        CodeAsText(s);
        Unknown(k)
  }

  lemma CodeAsText(s: string)
    ensures forall c: nat :: s == NatToString(c) ==> AllDigits(s) && DigitsValue(s) == c
  {
    forall c: nat | s == NatToString(c)
      ensures AllDigits(s) && DigitsValue(s) == c
    {
      NatToStringRoundTrip(c);
    }
  }

  /**
   * `{mapping.get(k, ...): int(v) for k, v in counts.items()}` as written:
   * when two keys get the same name, the later count replaces the earlier.
   */
  function MapLabelsAsWritten(names: seq<string>, d: seq<Entry<Cell>>): (r: seq<Entry<Label>>)
    ensures DistinctKeys(r)
  {
    if d == [] then []
    else
      var e := d[|d| - 1];
      Put(MapLabelsAsWritten(names, d[..|d| - 1]), CodeLabel(names, e.key), e.count)
  }

  /**
   * The intended per-category counts: keys that get the same name add
   * their counts, so the counts still add up to the same total.
   */
  function MapLabels(names: seq<string>, d: seq<Entry<Cell>>): (r: seq<Entry<Label>>)
    ensures DistinctKeys(r) && SumCounts(r) == SumCounts(d)
  {
    if d == [] then []
    else
      var e := d[|d| - 1];
      SumCountsSnoc(d[..|d| - 1], e);
      assert d == d[..|d| - 1] + [e];
      Add(MapLabels(names, d[..|d| - 1]), CodeLabel(names, e.key), e.count)
  }

  /** `d[k] = v` and `d[k] = d.get(k, 0) + v` agree on a key not yet present. */
  lemma {:induction false} PutNewIsAdd<K(!new)>(d: seq<Entry<K>>, k: K, v: nat)
    requires !HasKey(d, k)
    ensures Put(d, k, v) == Add(d, k, v)
  {
    if d != [] {
      assert d[0].key != k;
      HasKeyCons(d[0], d[1..]);
      assert d == [d[0]] + d[1..];
      PutNewIsAdd(d[1..], k, v);
    }
  }

  /** The labels of the mapped counts are exactly the labels of the raw keys. */
  lemma {:induction false} MapLabelsKeys(names: seq<string>, d: seq<Entry<Cell>>, l: Label)
    ensures HasKey(MapLabels(names, d), l) <==> exists i :: 0 <= i < |d| && CodeLabel(names, d[i].key) == l
  {
    if d != [] {
      var init, e := d[..|d| - 1], d[|d| - 1];
      MapLabelsKeys(names, init, l);
      if exists i :: 0 <= i < |init| && CodeLabel(names, init[i].key) == l {
        var i :| 0 <= i < |init| && CodeLabel(names, init[i].key) == l;
        assert d[i] == init[i];
      }
      if exists i :: 0 <= i < |d| && CodeLabel(names, d[i].key) == l {
        var i :| 0 <= i < |d| && CodeLabel(names, d[i].key) == l;
        if i < |init| {
          assert init[i] == d[i];
        }
      }
    }
  }

  /**
   * When no two raw keys get the same label, the comprehension as written
   * and the intended summing give the same counts.
   */
  lemma {:induction false} MapLabelsAgree(names: seq<string>, d: seq<Entry<Cell>>)
    requires forall i, j :: 0 <= i < j < |d| ==> CodeLabel(names, d[i].key) != CodeLabel(names, d[j].key)
    ensures MapLabelsAsWritten(names, d) == MapLabels(names, d)
  {
    if d != [] {
      var init, e := d[..|d| - 1], d[|d| - 1];
      var l := CodeLabel(names, e.key);
      assert forall i, j :: 0 <= i < j < |init| ==> CodeLabel(names, init[i].key) != CodeLabel(names, init[j].key) by {
        forall i, j | 0 <= i < j < |init|
          ensures CodeLabel(names, init[i].key) != CodeLabel(names, init[j].key)
        {
          assert init[i] == d[i] && init[j] == d[j];
        }
      }
      MapLabelsAgree(names, init);
      MapLabelsKeys(names, init, l);
      assert !HasKey(MapLabels(names, init), l) by {
        forall i | 0 <= i < |init|
          ensures CodeLabel(names, init[i].key) != l
        {
          assert init[i] == d[i];
        }
      }
      PutNewIsAdd(MapLabels(names, init), l, e.count);
    }
  }

  lemma {:induction false} SumCountsSnoc<K>(d: seq<Entry<K>>, e: Entry<K>)
    ensures SumCounts(d + [e]) == SumCounts(d) + e.count
  {
    if d != [] {
      assert (d + [e])[1..] == d[1..] + [e];
      SumCountsSnoc(d[1..], e);
    } else {
      assert ([] + [e])[1..] == [];
    }
  }

  /**
   * The code 1 once as text and once as a number: both are "Male", and the
   * mapping as written reports one participant where there are two.
   */
  lemma MapLabelsCollision()
    ensures var d := ValueCounts([Str("1"), Num(1.0)]);
      SumCounts(d) == 2 &&
      MapLabelsAsWritten(GenderNames, d) == [Entry(Known("Male"), 1)] &&
      MapLabels(GenderNames, d) == [Entry(Known("Male"), 2)]
  {
    var d := ValueCounts([Str("1"), Num(1.0)]);
    assert [Str("1"), Num(1.0)][..1] == [Str("1")];
    assert [Str("1")][..0] == [];
    assert ValueCounts([Str("1")]) == [Entry(Str("1"), 1)];
    assert Add([Entry(Str("1"), 1)], Num(1.0), 1) == [Entry(Str("1"), 1)] + Add([], Num(1.0), 1);
    assert d == [Entry(Str("1"), 1), Entry(Num(1.0), 1)];
    assert NatToString(1) == "1";
    assert d[..1] == [Entry(Str("1"), 1)] && d[..1][..0] == [];
    assert CodeLabel(GenderNames, Str("1")) == Known("Male") by {
      assert IsCode(Str("1"), 1);
    }
    assert CodeLabel(GenderNames, Num(1.0)) == Known("Male") by {
      assert IsCode(Num(1.0), 1);
    }
  }

  // ---------------------------------------------------------------------------
  // The three coded questions

  const GenderNames: seq<string> := ["Male", "Female", "Other"]
  const SchoolNames: seq<string> := ["Primary", "Secondary", "Tertiary", "University"]
  const VocationalNames: seq<string> :=
    ["No Training", "In Training", "Completed", "Advanced", "Specialized"]

  const GenderColumns: seq<string> := ["G02Q05", "G02Q05[other]"]
  const SchoolColumns: seq<string> := ["G02Q06", "G02Q06[other]"]
  const VocationalColumns: seq<string> := ["G02Q07", "G02Q07[other]"]
}
