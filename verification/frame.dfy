/**
 * The in-memory survey table the scripts manipulate through pandas: named
 * columns of heterogeneous cells, one row per respondent. Rows are
 * positional; pandas' index labels are not modelled.
 */
module Frame {
  import opened Wrappers
  import opened Text
  import Stats

  /** One cell as read from a survey export: empty (NaN), a number or free text. */
  datatype Cell = Missing | Num(x: real) | Str(s: string)

  type Column = seq<Cell>

  /** No value occurs twice. */
  predicate Distinct<T(==)>(xs: seq<T>) {
    forall i, j :: 0 <= i < j < |xs| ==> xs[i] != xs[j]
  }

  /** A table: distinct column names in order, their columns, and the row count. */
  datatype Table = Table(names: seq<string>, cols: map<string, Column>, height: nat) {
    ghost predicate Valid() {
      && Distinct(names)
      && (forall n :: n in cols <==> n in names)
      && (forall n :: n in cols ==> |cols[n]| == height)
    }
  }

  function CellOf(v: Option<real>): Cell {
    if v.Some? then Num(v.value) else Missing
  }

  predicate NotMissing(c: Cell) { !c.Missing? }

  function Pow10(k: nat): (r: real)
    ensures r >= 1.0
  {
    if k == 0 then 1.0 else 10.0 * Pow10(k - 1)
  }

  /** An unsigned decimal numeral: digits, optionally a point and more digits. */
  function ParseUnsigned(s: string): (r: Option<real>)
    ensures r.Some? ==> r.value >= 0.0
  {
    var ip := LeadingDigits(s);
    var rest := s[|ip|..];
    if rest == [] then
      if ip == [] then None else Some(DigitsValue(ip) as real)
    else if rest[0] == '.' && AllDigits(rest[1..]) && (ip != [] || |rest| > 1) then
      var frac := Stats.Div(DigitsValue(rest[1..]) as real, Pow10(|rest| - 1));
      Stats.DivSign(DigitsValue(rest[1..]) as real, Pow10(|rest| - 1));
      Some(DigitsValue(ip) as real + frac)
    else None
  }

  /** The numeric text pandas' `to_numeric` understands, with an optional sign. */
  function ParseNumber(s: string): Option<real> {
    if s != [] && s[0] == '-' then
      var u := ParseUnsigned(s[1..]);
      if u.Some? then Some(-u.value) else None
    else if s != [] && s[0] == '+' then ParseUnsigned(s[1..])
    else ParseUnsigned(s)
  }

  /** pandas `to_numeric(errors="coerce")` on one cell: unparseable text becomes missing. */
  function ToNumeric(c: Cell): Option<real> {
    match c
    case Missing => None
    case Num(x) => Some(x)
    case Str(s) => ParseNumber(s)
  }

  /** Text that does not start with a sign, a digit or a point reads as no number. */
  lemma ToNumericOfWord(s: string)
    requires s == [] || s[0] !in "+-.0123456789"
    ensures ToNumeric(Str(s)).None?
  {
  }

  /** A rendered whole number is read back as that number. */
  lemma ParseNumberOfNat(n: nat)
    ensures ParseNumber(NatToString(n)) == Some(n as real)
    ensures ToNumeric(Str(NatToString(n))) == Some(n as real)
  {
    var s := NatToString(n);
    NatToStringRoundTrip(n);
    LeadingDigitsOfConcat(s, []);
    assert s + [] == s;
  }

  function NumericColumn(c: Column): (r: seq<Option<real>>)
    ensures |r| == |c| && forall i :: 0 <= i < |c| ==> r[i] == ToNumeric(c[i])
  {
    seq(|c|, i requires 0 <= i < |c| => ToNumeric(c[i]))
  }

  /** The cells of row `i` under the listed columns. */
  function RowCells(t: Table, items: seq<string>, i: nat): (r: seq<Cell>)
    requires t.Valid() && i < t.height && forall k :: 0 <= k < |items| ==> items[k] in t.cols
    ensures |r| == |items| && forall k :: 0 <= k < |items| ==> r[k] == t.cols[items[k]][i]
  {
    seq(|items|, k requires 0 <= k < |items| => t.cols[items[k]][i])
  }

  /**
   * `data[items].apply(to_numeric, errors="coerce").mean(axis=1)`: per row,
   * the mean of the items that are present as numbers, missing when none is.
   */
  function RowMeans(t: Table, items: seq<string>): (r: seq<Option<real>>)
    requires t.Valid() && forall k :: 0 <= k < |items| ==> items[k] in t.cols
    ensures |r| == t.height
    ensures forall i :: 0 <= i < t.height ==> r[i] == Stats.MeanSkipNa(NumericColumn(RowCells(t, items, i)))
  {
    seq(t.height, i requires 0 <= i < t.height => Stats.MeanSkipNa(NumericColumn(RowCells(t, items, i))))
  }

  /**
   * `to_numeric(errors="coerce")` written back into a column: numbers stay,
   * numeric text becomes its number, anything else becomes missing.
   */
  function Coerce(c: Column): (r: Column)
    ensures |r| == |c|
    ensures forall i :: 0 <= i < |c| ==>
      !r[i].Str? && ToNumeric(r[i]) == ToNumeric(c[i]) && (r[i].Missing? <==> ToNumeric(c[i]).None?)
  {
    seq(|c|, i requires 0 <= i < |c| => CellOf(ToNumeric(c[i])))
  }

  /** Coercing a coerced column changes nothing. */
  lemma CoerceIdempotent(c: Column)
    ensures Coerce(Coerce(c)) == Coerce(c)
  {
    var d := Coerce(c);
    forall i | 0 <= i < |c|
      ensures Coerce(d)[i] == d[i]
    {
      assert ToNumeric(d[i]) == ToNumeric(c[i]);
    }
  }

  /** `df.loc[:, items] = df.loc[:, items].apply(to_numeric, errors="coerce")`. */
  function CoerceItems(t: Table, items: seq<string>): (r: Table)
    requires t.Valid()
    ensures r.Valid() && r.names == t.names && r.height == t.height
    ensures forall n :: n in r.cols <==> n in t.cols
    ensures forall n :: n in t.cols && n !in items ==> r.cols[n] == t.cols[n]
    ensures forall n :: n in t.cols && n in items ==> r.cols[n] == Coerce(t.cols[n])
  {
    Table(t.names, map n | n in t.cols :: if n in items then Coerce(t.cols[n]) else t.cols[n], t.height)
  }

  /** Coercing the same columns a second time leaves the table as the first time did. */
  lemma CoerceItemsIdempotent(t: Table, items: seq<string>)
    requires t.Valid()
    ensures CoerceItems(CoerceItems(t, items), items) == CoerceItems(t, items)
  {
    var r := CoerceItems(t, items);
    var rr := CoerceItems(r, items);
    forall n | n in t.cols && n in items
      ensures rr.cols[n] == r.cols[n]
    {
      CoerceIdempotent(t.cols[n]);
    }
    assert rr.cols == r.cols;
  }

  /** Coercing the columns first leaves every row mean over them as it was. */
  lemma CoerceItemsKeepsRowMeans(t: Table, items: seq<string>, cols: seq<string>)
    requires t.Valid() && forall k :: 0 <= k < |cols| ==> cols[k] in t.cols
    ensures RowMeans(CoerceItems(t, items), cols) == RowMeans(t, cols)
  {
    var r := CoerceItems(t, items);
    forall i | 0 <= i < t.height
      ensures NumericColumn(RowCells(r, cols, i)) == NumericColumn(RowCells(t, cols, i))
    {
    }
  }

  // ---------------------------------------------------------------------------
  // Row selection

  /** The positions `i` with `keep[i]`, ascending. */
  function Kept(keep: seq<bool>): (r: seq<nat>)
    ensures forall k :: 0 <= k < |r| ==> r[k] < |keep| && keep[r[k]]
    ensures forall k, l :: 0 <= k < l < |r| ==> r[k] < r[l]
    ensures |r| <= |keep|
  {
    if keep == [] then []
    else
      var init := Kept(keep[..|keep| - 1]);
      if keep[|keep| - 1] then init + [|keep| - 1] else init
  }

  /** Every position whose mask entry is true is kept. */
  lemma {:induction false} KeptComplete(keep: seq<bool>, i: nat)
    requires i < |keep| && keep[i]
    ensures i in Kept(keep)
  {
    var n := |keep| - 1;
    if i < n {
      assert keep[..n][i];
      KeptComplete(keep[..n], i);
    }
  }

  /** The elements whose mask entry is true, in their original order. */
  function Filter<T>(xs: seq<T>, keep: seq<bool>): (r: seq<T>)
    requires |xs| == |keep|
    ensures |r| == |Kept(keep)|
    ensures forall k :: 0 <= k < |r| ==> r[k] == xs[Kept(keep)[k]]
  {
    if xs == [] then []
    else
      var init := Filter(xs[..|xs| - 1], keep[..|keep| - 1]);
      if keep[|keep| - 1] then init + [xs[|xs| - 1]] else init
  }

  /** Filtering keeps exactly the elements whose mask entry is true. */
  lemma FilterMembers<T>(xs: seq<T>, keep: seq<bool>)
    requires |xs| == |keep|
    ensures forall x :: x in Filter(xs, keep) <==> exists i :: 0 <= i < |xs| && keep[i] && xs[i] == x
  {
    var r := Filter(xs, keep);
    forall x | exists i :: 0 <= i < |xs| && keep[i] && xs[i] == x
      ensures x in r
    {
      var i :| 0 <= i < |xs| && keep[i] && xs[i] == x;
      KeptComplete(keep, i);
      var m :| 0 <= m < |Kept(keep)| && Kept(keep)[m] == i;
      assert r[m] == x;
    }
  }

  /** Dropping only missing cells leaves the present values of a column as they were. */
  lemma {:induction false} PresentFilter(c: seq<Option<real>>, keep: seq<bool>)
    requires |c| == |keep| && forall i :: 0 <= i < |c| && !keep[i] ==> c[i].None?
    ensures Stats.Present(Filter(c, keep)) == Stats.Present(c)
  {
    if c != [] {
      var n := |c| - 1;
      PresentFilter(c[..n], keep[..n]);
      LastSplit(c);
      Stats.PresentSnoc(c[..n], c[n]);
      if keep[n] {
        Stats.PresentSnoc(Filter(c[..n], keep[..n]), c[n]);
      }
    }
  }

  /** A non-empty sequence is its front followed by its last element. */
  lemma LastSplit<T>(c: seq<T>)
    requires c != []
    ensures c == c[..|c| - 1] + [c[|c| - 1]]
  {
  }

  /** Boolean-mask row selection `df[mask]`: every column keeps the same rows. */
  function SelectRows(t: Table, keep: seq<bool>): (r: Table)
    requires t.Valid() && |keep| == t.height
    ensures r.Valid() && r.names == t.names && r.height == |Kept(keep)|
    ensures forall n :: n in t.cols ==> r.cols[n] == Filter(t.cols[n], keep)
  {
    Table(t.names, map n | n in t.cols :: Filter(t.cols[n], keep), |Kept(keep)|)
  }

  // ---------------------------------------------------------------------------
  // Column operations

  /** `df[name] = column`: replaces the column in place, or appends it at the end. */
  function WithColumn(t: Table, name: string, c: Column): (r: Table)
    requires t.Valid() && |c| == t.height
    ensures r.Valid() && r.height == t.height
    ensures r.cols == t.cols[name := c]
    ensures r.names == if name in t.cols then t.names else t.names + [name]
  {
    Table(if name in t.cols then t.names else t.names + [name], t.cols[name := c], t.height)
  }

  /** `df.assign(name=value)`: a column holding one value in every row. */
  function Assign(t: Table, name: string, v: Cell): (r: Table)
    requires t.Valid()
    ensures r.Valid() && r.height == t.height
    ensures r.cols == t.cols[name := seq(t.height, _ => v)]
  {
    WithColumn(t, name, seq(t.height, _ => v))
  }

  /** `df[names]`: the listed columns only, in the listed order. */
  function Project(t: Table, names: seq<string>): (r: Table)
    requires t.Valid() && forall k :: 0 <= k < |names| ==> names[k] in t.cols
    requires Distinct(names)
    ensures r.Valid() && r.names == names && r.height == t.height
    ensures forall n :: n in r.cols ==> r.cols[n] == t.cols[n]
  {
    Table(names, map n | n in names :: t.cols[n], t.height)
  }

  /** The names of `b` that `a` lacks, in `b`'s order. */
  function NewNames(a: seq<string>, b: seq<string>): (r: seq<string>)
    ensures forall n :: n in r <==> n in b && n !in a
    ensures Distinct(b) ==> Distinct(r)
  {
    if b == [] then []
    else
      var rest := NewNames(a, b[1..]);
      if b[0] in a || b[0] in rest then rest else [b[0]] + rest
  }

  function ColumnOr(t: Table, n: string): (c: Column)
    requires t.Valid()
    ensures |c| == t.height
  {
    if n in t.cols then t.cols[n] else seq(t.height, _ => Missing)
  }

  /**
   * `pd.concat([a, b], ignore_index=True)`: the rows of `a` then the rows of
   * `b`, over the union of their columns; a column one side lacks is missing there.
   */
  function Concat(a: Table, b: Table): (r: Table)
    requires a.Valid() && b.Valid()
    ensures r.Valid() && r.height == a.height + b.height
    ensures r.names == a.names + NewNames(a.names, b.names)
    ensures forall n :: n in r.cols <==> n in a.cols || n in b.cols
    ensures forall n :: n in r.cols ==> r.cols[n] == ColumnOr(a, n) + ColumnOr(b, n)
  {
    var names := a.names + NewNames(a.names, b.names);
    AppendDistinct(a.names, NewNames(a.names, b.names));
    Table(names, map n | n in names :: ColumnOr(a, n) + ColumnOr(b, n), a.height + b.height)
  }

  lemma AppendDistinct(xs: seq<string>, ys: seq<string>)
    requires Distinct(xs) && Distinct(ys)
    requires forall n :: n in ys ==> n !in xs
    ensures Distinct(xs + ys)
  {
    forall i, j | 0 <= i < j < |xs + ys|
      ensures (xs + ys)[i] != (xs + ys)[j]
    {
      if j >= |xs| && i < |xs| {
        assert (xs + ys)[j] == ys[j - |xs|];
        assert ys[j - |xs|] in ys;
      }
    }
  }

  /** In a concatenation, the first rows come from `a` and the rest from `b`. */
  lemma ConcatParts(a: Table, b: Table, n: string)
    requires a.Valid() && b.Valid() && n in Concat(a, b).cols
    ensures Concat(a, b).cols[n][..a.height] == ColumnOr(a, n)
    ensures Concat(a, b).cols[n][a.height..] == ColumnOr(b, n)
  {
  }

  /** The tag column of two stacked tagged tables: the first tag, then the second. */
  lemma TagColumn(a: Table, b: Table, tag: string, va: Cell, vb: Cell)
    requires a.Valid() && b.Valid()
    ensures var r := Concat(Assign(a, tag, va), Assign(b, tag, vb));
      && tag in r.cols && |r.cols[tag]| == a.height + b.height
      && (forall i :: 0 <= i < a.height ==> r.cols[tag][i] == va)
      && (forall i :: a.height <= i < a.height + b.height ==> r.cols[tag][i] == vb)
  {
    var x, y := Assign(a, tag, va), Assign(b, tag, vb);
    assert Concat(x, y).cols[tag] == seq(a.height, _ => va) + seq(b.height, _ => vb);
    TwoRuns(a.height, b.height, va, vb);
  }

  /** A run of `m` copies of `u` followed by a run of `k` copies of `v`. */
  lemma TwoRuns<T>(m: nat, k: nat, u: T, v: T)
    ensures var s := seq(m, _ => u) + seq(k, _ => v);
      && |s| == m + k
      && (forall i :: 0 <= i < m ==> s[i] == u)
      && (forall i :: m <= i < m + k ==> s[i] == v)
  {
  }

  /** Any other column of two stacked tagged tables holds the cells of both. */
  lemma CarriedColumn(a: Table, b: Table, tag: string, va: Cell, vb: Cell, n: string)
    requires a.Valid() && b.Valid() && n != tag && (n in a.cols || n in b.cols)
    ensures var r := Concat(Assign(a, tag, va), Assign(b, tag, vb));
      && n in r.cols && |r.cols[n]| == a.height + b.height
      && r.cols[n][..a.height] == ColumnOr(a, n) && r.cols[n][a.height..] == ColumnOr(b, n)
  {
    var x, y := Assign(a, tag, va), Assign(b, tag, vb);
    assert ColumnOr(x, n) == ColumnOr(a, n);
    assert ColumnOr(y, n) == ColumnOr(b, n);
    ConcatParts(x, y, n);
  }

  /** Stacking two tagged tables: the first rows carry the first tag and the first table's cells. */
  lemma TaggedConcatFirst(a: Table, b: Table, tag: string, va: Cell, vb: Cell)
    requires a.Valid() && b.Valid()
    ensures var r := Concat(Assign(a, tag, va), Assign(b, tag, vb));
      && (forall i :: 0 <= i < a.height ==> r.cols[tag][i] == va)
      && (forall n :: n in a.cols && n != tag ==> r.cols[n][..a.height] == a.cols[n])
  {
    var r := Concat(Assign(a, tag, va), Assign(b, tag, vb));
    TagColumn(a, b, tag, va, vb);
    forall n | n in a.cols && n != tag
      ensures r.cols[n][..a.height] == a.cols[n]
    {
      CarriedColumn(a, b, tag, va, vb, n);
    }
  }

  /** Stacking two tagged tables: the last rows carry the second tag and the second table's cells. */
  lemma TaggedConcatSecond(a: Table, b: Table, tag: string, va: Cell, vb: Cell)
    requires a.Valid() && b.Valid()
    ensures var r := Concat(Assign(a, tag, va), Assign(b, tag, vb));
      && (forall i :: a.height <= i < r.height ==> r.cols[tag][i] == vb)
      && (forall n :: n in b.cols && n != tag ==> r.cols[n][a.height..] == b.cols[n])
  {
    var r := Concat(Assign(a, tag, va), Assign(b, tag, vb));
    TagColumn(a, b, tag, va, vb);
    forall n | n in b.cols && n != tag
      ensures r.cols[n][a.height..] == b.cols[n]
    {
      CarriedColumn(a, b, tag, va, vb, n);
    }
  }

  /** The number of cells in a column that are not missing (pandas `count`). */
  function CountPresent(c: Column): (r: nat)
    ensures r <= |c|
  {
    if c == [] then 0 else (if NotMissing(c[0]) then 1 else 0) + CountPresent(c[1..])
  }

  /** pandas' `KeyError` for a selection naming absent columns. */
  datatype KeyError = KeyError(missing: seq<string>)

  function AbsentMask(t: Table, cols: seq<string>): (r: seq<bool>)
    ensures |r| == |cols| && forall k :: 0 <= k < |cols| ==> (r[k] <==> cols[k] !in t.cols)
  {
    seq(|cols|, k requires 0 <= k < |cols| => cols[k] !in t.cols)
  }

  /** The listed columns the table lacks, in list order. */
  function AbsentColumns(t: Table, cols: seq<string>): (r: seq<string>)
    ensures forall c :: c in r <==> c in cols && c !in t.cols
    ensures r == [] <==> forall k :: 0 <= k < |cols| ==> cols[k] in t.cols
    ensures r == Filter(cols, AbsentMask(t, cols))
  {
    FilterMembers(cols, AbsentMask(t, cols));
    var r := Filter(cols, AbsentMask(t, cols));
    assert r != [] ==> r[0] in r;
    forall k | 0 <= k < |cols| && cols[k] !in t.cols
      ensures cols[k] in r
    {
      assert AbsentMask(t, cols)[k];
    }
    r
  }

  /** Per row: whether every column holds a value there. */
  function CompleteMask(t: Table): (r: seq<bool>)
    requires t.Valid()
    ensures |r| == t.height
    ensures forall i :: 0 <= i < t.height ==> (r[i] <==> forall n :: n in t.cols ==> NotMissing(t.cols[n][i]))
  {
    seq(t.height, i requires 0 <= i < t.height => forall k :: 0 <= k < |t.names| ==> NotMissing(t.cols[t.names[k]][i]))
  }

  /** `df.dropna()`: the rows with no missing cell, in order; no cell of the result is missing. */
  function DropIncomplete(t: Table): (r: Table)
    requires t.Valid()
    ensures r.Valid() && r.names == t.names && r.height == |Kept(CompleteMask(t))|
    ensures forall n :: n in r.cols ==> r.cols[n] == Filter(t.cols[n], CompleteMask(t))
    ensures forall n, i :: n in r.cols && 0 <= i < r.height ==> NotMissing(r.cols[n][i])
  {
    var mask := CompleteMask(t);
    var r := SelectRows(t, mask);
    assert forall n, i :: n in r.cols && 0 <= i < r.height ==> NotMissing(r.cols[n][i]) by {
      forall n, i | n in r.cols && 0 <= i < r.height
        ensures NotMissing(r.cols[n][i])
      {
        assert r.cols[n][i] == t.cols[n][Kept(mask)[i]];
      }
    }
    r
  }

  /** Per column of `names`: whether it has at least `thresh` present cells. */
  function DenseMask(t: Table, thresh: int): (r: seq<bool>)
    requires t.Valid()
    ensures |r| == |t.names|
    ensures forall k :: 0 <= k < |t.names| ==> (r[k] <==> CountPresent(t.cols[t.names[k]]) >= thresh)
  {
    seq(|t.names|, k requires 0 <= k < |t.names| => CountPresent(t.cols[t.names[k]]) >= thresh)
  }

  /**
   * `df.dropna(axis="columns", thresh=thresh)`: the columns with at least
   * `thresh` present cells, in order, unchanged; no row is removed.
   */
  function DropSparseColumns(t: Table, thresh: int): (r: Table)
    requires t.Valid()
    ensures r.Valid() && r.height == t.height
    ensures r.names == Filter(t.names, DenseMask(t, thresh))
    ensures forall n :: n in r.cols <==> n in t.cols && CountPresent(t.cols[n]) >= thresh
    ensures forall n :: n in r.cols ==> r.cols[n] == t.cols[n]
  {
    var mask := DenseMask(t, thresh);
    var names := Filter(t.names, mask);
    assert forall n :: n in names <==> n in t.cols && CountPresent(t.cols[n]) >= thresh by {
      forall n
        ensures n in names <==> n in t.cols && CountPresent(t.cols[n]) >= thresh
      {
        if n in t.cols && CountPresent(t.cols[n]) >= thresh {
          var k :| 0 <= k < |t.names| && t.names[k] == n;
          KeptComplete(mask, k);
          var m :| 0 <= m < |Kept(mask)| && Kept(mask)[m] == k;
          assert names[m] == n;
        }
      }
    }
    assert Distinct(names) by {
      forall i, j | 0 <= i < j < |names|
        ensures names[i] != names[j]
      {
        assert Kept(mask)[i] < Kept(mask)[j];
      }
    }
    Table(names, map n | n in names :: t.cols[n], t.height)
  }

  /** A table whose contents a method changes in place, as pandas does. */
  class DataFrame {
    var table: Table

    constructor (t: Table)
      ensures table == t
    {
      table := t;
    }

    /** `df.loc[:, items] = df.loc[:, items].apply(to_numeric, errors="coerce")`, all columns present. */
    method CoerceColumns(items: seq<string>)
      requires table.Valid()
      modifies this
      ensures table == CoerceItems(old(table), items)
    {
      table := CoerceItems(table, items);
    }

    /** `df[name] = column`. */
    method SetColumn(name: string, c: Column)
      requires table.Valid() && |c| == table.height
      modifies this
      ensures table == WithColumn(old(table), name, c)
    {
      table := WithColumn(table, name, c);
    }
  }
}
