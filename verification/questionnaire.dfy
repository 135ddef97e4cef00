/**
 * Column names of the survey export. A sub-question of a matrix question
 * is named `<question>[<number>]`, for example `G04Q16[3]`.
 */
module Questionnaire {
  import opened Text

  /** The column of sub-question `i` of question `q`. */
  function ItemName(q: string, i: nat): (r: string)
    ensures |r| == |q| + |NatToString(i)| + 2
    ensures r[..|q|] == q && r[|q|] == '[' && r[|r| - 1] == ']'
    ensures r[|q| + 1..|r| - 1] == NatToString(i)
  {
    q + "[" + NatToString(i) + "]"
  }

  /** Different sub-questions of one question have different column names. */
  lemma ItemNameInjective(q: string, i: nat, j: nat)
    requires ItemName(q, i) == ItemName(q, j)
    ensures i == j
  {
    var s := ItemName(q, i);
    assert NatToString(i) == s[|q| + 1..|s| - 1] == NatToString(j);
    NatToStringRoundTrip(i);
    NatToStringRoundTrip(j);
  }

  /** The columns of the listed sub-questions of `q`, in list order. */
  function Items(q: string, idx: seq<nat>): (r: seq<string>)
    ensures |r| == |idx| && forall k :: 0 <= k < |idx| ==> r[k] == ItemName(q, idx[k])
  {
    seq(|idx|, k requires 0 <= k < |idx| => ItemName(q, idx[k]))
  }

  /** Python's `range(lo, hi)`. */
  function Range(lo: nat, hi: nat): (r: seq<nat>)
    ensures |r| == if lo <= hi then hi - lo else 0
    ensures forall k :: 0 <= k < |r| ==> r[k] == lo + k
    decreases hi - lo
  {
    if lo < hi then [lo] + Range(lo + 1, hi) else []
  }

  /** A sub-question's column is listed exactly when its number is. */
  lemma ItemsMember(q: string, idx: seq<nat>, i: nat)
    ensures ItemName(q, i) in Items(q, idx) <==> i in idx
  {
    var r := Items(q, idx);
    if ItemName(q, i) in r {
      var k :| 0 <= k < |r| && r[k] == ItemName(q, i);
      ItemNameInjective(q, i, idx[k]);
    }
    if i in idx {
      var k :| 0 <= k < |idx| && idx[k] == i;
      assert r[k] == ItemName(q, i);
    }
  }

  /** Every column of `Items(q, idx)` is a sub-question of `q` with a listed number. */
  lemma ItemsShape(q: string, idx: seq<nat>, n: string)
    requires n in Items(q, idx)
    ensures exists i :: i in idx && n == ItemName(q, i)
  {
    var k :| 0 <= k < |idx| && Items(q, idx)[k] == n;
    assert idx[k] in idx;
  }

  /** Two item lists of one question share a column only through a shared number. */
  lemma ItemsDisjoint(q: string, a: seq<nat>, b: seq<nat>)
    requires forall i :: i in a ==> i !in b
    ensures forall n :: n in Items(q, a) ==> n !in Items(q, b)
  {
    forall n | n in Items(q, a)
      ensures n !in Items(q, b)
    {
      ItemsShape(q, a, n);
      var i :| i in a && n == ItemName(q, i);
      ItemsMember(q, b, i);
    }
  }
}
