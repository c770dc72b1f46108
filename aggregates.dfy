/**
  * The aggregation primitives of the analysis engine: sum, average, max, min,
  * count, and their grouped variants, which bucket rows by `String(row[g])`.
  *
  * Each grouped primitive is specified by a function giving every group's
  * figure as a fold over the rows of that group. A method builds the same
  * dictionary row by row, as the source does. Lemmas say what the figures
  * mean: which keys occur, which rows a group holds, and that the groups
  * partition the rows.
  */
module Aggregates {
  import opened Wrappers
  import opened Strings
  import opened JsValues

  /** `String(row[g])`: the group a row falls into. */
  function KeyOf(row: Row, g: string): string {
    ToStr(Lookup(row, g))
  }

  /** `Number(row[c] || 0)`. */
  function ValueOf(row: Row, c: string): int {
    Coerce(Lookup(row, c))
  }

  /** `rows.map(row => Number(row[c] || 0))`. */
  function Column(rows: seq<Row>, c: string): (xs: seq<int>)
    ensures |xs| == |rows|
  {
    if rows == [] then [] else Column(rows[..|rows| - 1], c) + [ValueOf(rows[|rows| - 1], c)]
  }

  /** Entry i of the column is row i's value. */
  lemma {:induction false} ColumnAt(rows: seq<Row>, c: string)
    ensures forall i :: 0 <= i < |rows| ==> Column(rows, c)[i] == ValueOf(rows[i], c)
  {
    if rows != [] {
      ColumnAt(rows[..|rows| - 1], c);
    }
  }

  /** `Math.max(...xs)`: the largest element, or -Infinity when there is none. */
  function MaxOf(xs: seq<int>): (r: Number)
    ensures xs == [] <==> r == NegInfinity
    ensures xs != [] ==> r.Int? && r.value in xs
    ensures xs != [] ==> forall i :: 0 <= i < |xs| ==> xs[i] <= r.value
  {
    if xs == [] then NegInfinity
    else
      var m := MaxOf(xs[..|xs| - 1]);
      if m.Int? && m.value >= xs[|xs| - 1] then m else Int(xs[|xs| - 1])
  }

  /** `Math.min(...xs)`: the smallest element, or +Infinity when there is none. */
  function MinOf(xs: seq<int>): (r: Number)
    ensures xs == [] <==> r == PosInfinity
    ensures xs != [] ==> r.Int? && r.value in xs
    ensures xs != [] ==> forall i :: 0 <= i < |xs| ==> r.value <= xs[i]
  {
    if xs == [] then PosInfinity
    else
      var m := MinOf(xs[..|xs| - 1]);
      if m.Int? && m.value <= xs[|xs| - 1] then m else Int(xs[|xs| - 1])
  }

  /** calculateSum: `reduce((acc, row) => acc + Number(row[c] || 0), 0)`. */
  function Sum(rows: seq<Row>, c: string): int {
    if rows == [] then 0 else Sum(rows[..|rows| - 1], c) + ValueOf(rows[|rows| - 1], c)
  }

  /** calculateAverage: the sum over the number of rows, as an exact quotient. */
  function Average(rows: seq<Row>, c: string): Number {
    Div(Sum(rows, c), |rows|)
  }

  /** calculateMax. */
  function Max(rows: seq<Row>, c: string): Number {
    MaxOf(Column(rows, c))
  }

  /** calculateMin. */
  function Min(rows: seq<Row>, c: string): Number {
    MinOf(Column(rows, c))
  }

  lemma SumSnoc(s: seq<Row>, r: Row, c: string)
    ensures Sum(s + [r], c) == Sum(s, c) + ValueOf(r, c)
  {
    assert (s + [r])[..|s|] == s;
  }

  /** The average of a non-empty column lies between its minimum and its maximum. */
  lemma AverageBetweenMinAndMax(rows: seq<Row>, c: string)
    requires |rows| > 0
    ensures Min(rows, c).Int? && Max(rows, c).Int? && Average(rows, c).Div? && Average(rows, c).den == |rows|
    ensures Min(rows, c).value * |rows| <= Average(rows, c).num <= Max(rows, c).value * |rows|
  {
    var xs := Column(rows, c);
    ColumnAt(rows, c);
    SumBounded(rows, c, MinOf(xs).value, MaxOf(xs).value);
  }

  lemma MulStep(a: int, n: int)
    ensures a * (n + 1) == a * n + a
  {
  }

  lemma {:induction false} SumBounded(rows: seq<Row>, c: string, lo: int, hi: int)
    requires forall i :: 0 <= i < |rows| ==> lo <= ValueOf(rows[i], c) <= hi
    ensures lo * |rows| <= Sum(rows, c) <= hi * |rows|
  {
    if rows != [] {
      var n := |rows| - 1;
      SumBounded(rows[..n], c, lo, hi);
      MulStep(lo, n);
      MulStep(hi, n);
    }
  }

  // ---------------------------------------------------------------------------
  // Groups.

  /** The rows of group `k`, in input order. */
  function Members(rows: seq<Row>, g: string, k: string): seq<Row> {
    if rows == [] then []
    else
      var m := Members(rows[..|rows| - 1], g, k);
      if KeyOf(rows[|rows| - 1], g) == k then m + [rows[|rows| - 1]] else m
  }

  /** The keys that occur, as a set. */
  function KeySet(rows: seq<Row>, g: string): set<string> {
    set r | r in rows :: KeyOf(r, g)
  }

  /** The distinct group keys in order of first appearance, which is also the
    * key order of a dictionary filled row by row. */
  function GroupKeys(rows: seq<Row>, g: string): seq<string> {
    if rows == [] then []
    else
      var ks := GroupKeys(rows[..|rows| - 1], g);
      var k := KeyOf(rows[|rows| - 1], g);
      if k in ks then ks else ks + [k]
  }

  /** The number of rows whose key is `k`, counted left to right. */
  function GroupCount(rows: seq<Row>, g: string, k: string): int {
    if rows == [] then 0
    else GroupCount(rows[..|rows| - 1], g, k) + (if KeyOf(rows[|rows| - 1], g) == k then 1 else 0)
  }

  /** The column summed over the rows whose key is `k`, left to right. */
  function GroupSum(rows: seq<Row>, c: string, g: string, k: string): int {
    if rows == [] then 0
    else GroupSum(rows[..|rows| - 1], c, g, k) + (if KeyOf(rows[|rows| - 1], g) == k then ValueOf(rows[|rows| - 1], c) else 0)
  }

  lemma KeySetSnoc(s: seq<Row>, r: Row, g: string)
    ensures KeySet(s + [r], g) == KeySet(s, g) + {KeyOf(r, g)}
  {
  }

  /** A row is a member of group `k` exactly when it is one of the rows and its key is `k`. */
  lemma {:induction false} MembersMeaning(rows: seq<Row>, g: string, k: string)
    ensures forall r :: r in Members(rows, g, k) <==> r in rows && KeyOf(r, g) == k
  {
    if rows != [] {
      var front := rows[..|rows| - 1];
      MembersMeaning(front, g, k);
      assert rows == front + [rows[|rows| - 1]];
    }
  }

  /** GroupKeys lists exactly the keys that occur. */
  lemma {:induction false} GroupKeysMeaning(rows: seq<Row>, g: string)
    ensures forall k :: k in GroupKeys(rows, g) <==> k in KeySet(rows, g)
  {
    if rows != [] {
      var front := rows[..|rows| - 1];
      GroupKeysMeaning(front, g);
      assert rows == front + [rows[|rows| - 1]];
      KeySetSnoc(front, rows[|rows| - 1], g);
    }
  }

  /** GroupKeys lists each key once. */
  lemma {:induction false} GroupKeysDistinct(rows: seq<Row>, g: string)
    ensures forall i, j :: 0 <= i < j < |GroupKeys(rows, g)| ==> GroupKeys(rows, g)[i] != GroupKeys(rows, g)[j]
  {
    if rows != [] {
      GroupKeysDistinct(rows[..|rows| - 1], g);
    }
  }

  /** The folds per group are the count and the sum of the group's members. */
  lemma {:induction false} GroupFoldsOverMembers(rows: seq<Row>, c: string, g: string, k: string)
    ensures GroupCount(rows, g, k) == |Members(rows, g, k)|
    ensures GroupSum(rows, c, g, k) == Sum(Members(rows, g, k), c)
  {
    if rows != [] {
      var front := rows[..|rows| - 1];
      GroupFoldsOverMembers(front, c, g, k);
      if KeyOf(rows[|rows| - 1], g) == k {
        SumSnoc(Members(front, g, k), rows[|rows| - 1], c);
      }
    }
  }

  /** A key that does not occur has no members, so both folds are zero. */
  lemma {:induction false} GroupFoldsAbsent(rows: seq<Row>, c: string, g: string, k: string)
    requires k !in KeySet(rows, g)
    ensures GroupCount(rows, g, k) == 0 && GroupSum(rows, c, g, k) == 0 && Members(rows, g, k) == []
  {
    if rows != [] {
      var front := rows[..|rows| - 1];
      assert rows == front + [rows[|rows| - 1]];
      KeySetSnoc(front, rows[|rows| - 1], g);
      GroupFoldsAbsent(front, c, g, k);
    }
  }

  /** A key that occurs counts at least one row. */
  lemma {:induction false} GroupCountPositive(rows: seq<Row>, g: string, k: string)
    requires k in KeySet(rows, g)
    ensures GroupCount(rows, g, k) >= 1
  {
    var front := rows[..|rows| - 1];
    assert rows == front + [rows[|rows| - 1]];
    KeySetSnoc(front, rows[|rows| - 1], g);
    if KeyOf(rows[|rows| - 1], g) != k {
      GroupCountPositive(front, g, k);
    } else {
      GroupCountNonNegative(front, g, k);
    }
  }

  lemma {:induction false} GroupCountNonNegative(rows: seq<Row>, g: string, k: string)
    ensures GroupCount(rows, g, k) >= 0
  {
    if rows != [] {
      GroupCountNonNegative(rows[..|rows| - 1], g, k);
    }
  }

  // The dictionaries, built as the source's `reduce` and `forEach` build them:
  // looking a key up gives its entry so far, or the initial value when absent.

  /** calculateCountByGroup's dictionary. */
  function GroupCounts(rows: seq<Row>, g: string): map<string, int> {
    if rows == [] then map[]
    else
      var m := GroupCounts(rows[..|rows| - 1], g);
      var k := KeyOf(rows[|rows| - 1], g);
      m[k := (if k in m then m[k] else 0) + 1]
  }

  /** calculateSumByGroup's dictionary. */
  function GroupSums(rows: seq<Row>, c: string, g: string): map<string, int> {
    if rows == [] then map[]
    else
      var m := GroupSums(rows[..|rows| - 1], c, g);
      var k := KeyOf(rows[|rows| - 1], g);
      m[k := (if k in m then m[k] else 0) + ValueOf(rows[|rows| - 1], c)]
  }

  /** The running sum and count of one group. */
  datatype Tally = Tally(sum: int, count: int)

  /** The `{sum, count}` dictionary of calculateAverageByGroup. */
  function GroupTallies(rows: seq<Row>, c: string, g: string): map<string, Tally> {
    if rows == [] then map[]
    else
      var m := GroupTallies(rows[..|rows| - 1], c, g);
      var k := KeyOf(rows[|rows| - 1], g);
      var t := if k in m then m[k] else Tally(0, 0);
      m[k := Tally(t.sum + ValueOf(rows[|rows| - 1], c), t.count + 1)]
  }

  /** The value lists of calculateMaxByGroup and calculateMinByGroup. */
  function GroupValues(rows: seq<Row>, c: string, g: string): map<string, seq<int>> {
    if rows == [] then map[]
    else
      var m := GroupValues(rows[..|rows| - 1], c, g);
      var k := KeyOf(rows[|rows| - 1], g);
      m[k := (if k in m then m[k] else []) + [ValueOf(rows[|rows| - 1], c)]]
  }

  /** calculateAverageByGroup's result: each group's sum over its count. */
  function GroupAverages(rows: seq<Row>, c: string, g: string): map<string, Number> {
    var t := GroupTallies(rows, c, g);
    map k | k in t :: Div(t[k].sum, t[k].count)
  }

  /** calculateMaxByGroup's result. */
  function GroupMaxima(rows: seq<Row>, c: string, g: string): map<string, Number> {
    var v := GroupValues(rows, c, g);
    map k | k in v :: MaxOf(v[k])
  }

  /** calculateMinByGroup's result. */
  function GroupMinima(rows: seq<Row>, c: string, g: string): map<string, Number> {
    var v := GroupValues(rows, c, g);
    map k | k in v :: MinOf(v[k])
  }

  /** calculatePercentageByGroup's result: each group's sum times 100 over the total. */
  function GroupPercentages(rows: seq<Row>, c: string, g: string): map<string, Number> {
    var sums := GroupSums(rows, c, g);
    map k | k in sums :: Div(100 * sums[k], Sum(rows, c))
  }

  /** The integer figures of a grouped result as numbers. */
  function AsNumbers(m: map<string, int>): (r: map<string, Number>)
    ensures r.Keys == m.Keys
    ensures forall k :: k in r ==> r[k] == Int(m[k])
  {
    map k | k in m :: Int(m[k])
  }

  // What the dictionaries hold, one key at a time.

  /** calculateCountByGroup has an entry for `k` exactly when some row has key
    * `k`, and the entry is the number of such rows. */
  lemma {:induction false} GroupCountsAt(rows: seq<Row>, g: string, k: string)
    ensures k in GroupCounts(rows, g) <==> k in KeySet(rows, g)
    ensures k in GroupCounts(rows, g) ==> GroupCounts(rows, g)[k] == GroupCount(rows, g, k)
  {
    if rows != [] {
      var front := rows[..|rows| - 1];
      assert rows == front + [rows[|rows| - 1]];
      KeySetSnoc(front, rows[|rows| - 1], g);
      GroupCountsAt(front, g, k);
      if k !in KeySet(front, g) {
        GroupFoldsAbsent(front, "", g, k);
      }
    }
  }

  /** calculateSumByGroup has an entry for `k` exactly when some row has key
    * `k`, and the entry is the sum over those rows. */
  lemma {:induction false} GroupSumsAt(rows: seq<Row>, c: string, g: string, k: string)
    ensures k in GroupSums(rows, c, g) <==> k in KeySet(rows, g)
    ensures k in GroupSums(rows, c, g) ==> GroupSums(rows, c, g)[k] == GroupSum(rows, c, g, k)
  {
    if rows != [] {
      var front := rows[..|rows| - 1];
      assert rows == front + [rows[|rows| - 1]];
      KeySetSnoc(front, rows[|rows| - 1], g);
      GroupSumsAt(front, c, g, k);
      if k !in KeySet(front, g) {
        GroupFoldsAbsent(front, c, g, k);
      }
    }
  }

  lemma {:induction false} GroupTalliesAt(rows: seq<Row>, c: string, g: string, k: string)
    ensures k in GroupTallies(rows, c, g) <==> k in KeySet(rows, g)
    ensures k in GroupTallies(rows, c, g) ==> GroupTallies(rows, c, g)[k] == Tally(GroupSum(rows, c, g, k), GroupCount(rows, g, k))
  {
    if rows != [] {
      var front := rows[..|rows| - 1];
      assert rows == front + [rows[|rows| - 1]];
      KeySetSnoc(front, rows[|rows| - 1], g);
      GroupTalliesAt(front, c, g, k);
      if k !in KeySet(front, g) {
        GroupFoldsAbsent(front, c, g, k);
      }
    }
  }

  lemma {:induction false} GroupValuesAt(rows: seq<Row>, c: string, g: string, k: string)
    ensures k in GroupValues(rows, c, g) <==> k in KeySet(rows, g)
    ensures k in GroupValues(rows, c, g) ==> GroupValues(rows, c, g)[k] == Column(Members(rows, g, k), c)
  {
    if rows != [] {
      var front := rows[..|rows| - 1];
      var r := rows[|rows| - 1];
      assert rows == front + [r];
      KeySetSnoc(front, r, g);
      GroupValuesAt(front, c, g, k);
      if k !in KeySet(front, g) {
        GroupFoldsAbsent(front, c, g, k);
      }
      if KeyOf(r, g) == k {
        assert Column(Members(rows, g, k), c) == Column(Members(front, g, k), c) + [ValueOf(r, c)];
      }
    }
  }

  /** The grouped count has one entry per occurring key, holding the number of
    * rows with that key, which is at least 1. */
  lemma GroupCountsMeaning(rows: seq<Row>, g: string)
    ensures GroupCounts(rows, g).Keys == KeySet(rows, g)
    ensures forall k :: k in GroupCounts(rows, g) ==> GroupCounts(rows, g)[k] == |Members(rows, g, k)| >= 1
  {
    forall k ensures k in GroupCounts(rows, g) <==> k in KeySet(rows, g) {
      GroupCountsAt(rows, g, k);
    }
    forall k | k in GroupCounts(rows, g) ensures GroupCounts(rows, g)[k] == |Members(rows, g, k)| >= 1 {
      GroupCountsAt(rows, g, k);
      GroupCountPositive(rows, g, k);
      GroupFoldsOverMembers(rows, "", g, k);
    }
  }

  /** The grouped sum has one entry per occurring key, holding the sum over the
    * rows with that key. */
  lemma GroupSumsMeaning(rows: seq<Row>, c: string, g: string)
    ensures GroupSums(rows, c, g).Keys == KeySet(rows, g)
    ensures forall k :: k in GroupSums(rows, c, g) ==> GroupSums(rows, c, g)[k] == Sum(Members(rows, g, k), c)
  {
    forall k ensures k in GroupSums(rows, c, g) <==> k in KeySet(rows, g) {
      GroupSumsAt(rows, c, g, k);
    }
    forall k | k in GroupSums(rows, c, g) ensures GroupSums(rows, c, g)[k] == Sum(Members(rows, g, k), c) {
      GroupSumsAt(rows, c, g, k);
      GroupFoldsOverMembers(rows, c, g, k);
    }
  }

  /** Every grouped average is that group's sum over its number of rows, which is
    * at least 1. */
  lemma GroupAveragesMeaning(rows: seq<Row>, c: string, g: string)
    ensures GroupAverages(rows, c, g).Keys == KeySet(rows, g)
    ensures forall k :: k in GroupAverages(rows, c, g) ==>
      GroupAverages(rows, c, g)[k] == Div(Sum(Members(rows, g, k), c), |Members(rows, g, k)|)
      && |Members(rows, g, k)| >= 1
  {
    forall k ensures k in GroupAverages(rows, c, g) <==> k in KeySet(rows, g) {
      GroupTalliesAt(rows, c, g, k);
    }
    forall k | k in GroupAverages(rows, c, g)
      ensures GroupAverages(rows, c, g)[k] == Div(Sum(Members(rows, g, k), c), |Members(rows, g, k)|)
      ensures |Members(rows, g, k)| >= 1
    {
      GroupTalliesAt(rows, c, g, k);
      GroupCountPositive(rows, g, k);
      GroupFoldsOverMembers(rows, c, g, k);
    }
  }

  /** The largest value of a non-empty set of rows is one of theirs and no row exceeds it. */
  lemma ColumnMax(ms: seq<Row>, c: string)
    requires ms != []
    ensures MaxOf(Column(ms, c)).Int?
    ensures forall r :: r in ms ==> ValueOf(r, c) <= MaxOf(Column(ms, c)).value
    ensures exists r :: r in ms && ValueOf(r, c) == MaxOf(Column(ms, c)).value
  {
    var xs := Column(ms, c);
    ColumnAt(ms, c);
    var i :| 0 <= i < |xs| && xs[i] == MaxOf(xs).value;
    assert ms[i] in ms;
  }

  /** The smallest value of a non-empty set of rows is one of theirs and no row is below it. */
  lemma ColumnMin(ms: seq<Row>, c: string)
    requires ms != []
    ensures MinOf(Column(ms, c)).Int?
    ensures forall r :: r in ms ==> MinOf(Column(ms, c)).value <= ValueOf(r, c)
    ensures exists r :: r in ms && ValueOf(r, c) == MinOf(Column(ms, c)).value
  {
    var xs := Column(ms, c);
    ColumnAt(ms, c);
    var i :| 0 <= i < |xs| && xs[i] == MinOf(xs).value;
    assert ms[i] in ms;
  }

  /** The value list of an occurring key is its members' column, and it is not empty. */
  lemma GroupListAt(rows: seq<Row>, c: string, g: string, k: string)
    requires k in GroupValues(rows, c, g)
    ensures Members(rows, g, k) != [] && GroupValues(rows, c, g)[k] == Column(Members(rows, g, k), c)
    ensures forall r :: r in Members(rows, g, k) <==> r in rows && KeyOf(r, g) == k
  {
    GroupValuesAt(rows, c, g, k);
    GroupCountPositive(rows, g, k);
    GroupFoldsOverMembers(rows, c, g, k);
    MembersMeaning(rows, g, k);
  }

  /** Every grouped maximum is the value of some row of that group and no row of
    * the group exceeds it. */
  lemma GroupMaximaMeaning(rows: seq<Row>, c: string, g: string)
    ensures GroupMaxima(rows, c, g).Keys == KeySet(rows, g)
    ensures forall k :: k in GroupMaxima(rows, c, g) ==> GroupMaxima(rows, c, g)[k].Int?
    ensures forall k, r :: k in GroupMaxima(rows, c, g) && r in rows && KeyOf(r, g) == k ==>
      ValueOf(r, c) <= GroupMaxima(rows, c, g)[k].value
    ensures forall k :: k in GroupMaxima(rows, c, g) ==>
      exists r :: r in rows && KeyOf(r, g) == k && ValueOf(r, c) == GroupMaxima(rows, c, g)[k].value
  {
    var m := GroupMaxima(rows, c, g);
    forall k ensures k in m <==> k in KeySet(rows, g) {
      GroupValuesAt(rows, c, g, k);
    }
    forall k | k in m
      ensures m[k].Int?
      ensures forall r :: r in rows && KeyOf(r, g) == k ==> ValueOf(r, c) <= m[k].value
      ensures exists r :: r in rows && KeyOf(r, g) == k && ValueOf(r, c) == m[k].value
    {
      GroupListAt(rows, c, g, k);
      ColumnMax(Members(rows, g, k), c);
    }
  }

  /** Every grouped minimum is the value of some row of that group and no row of
    * the group is below it. */
  lemma GroupMinimaMeaning(rows: seq<Row>, c: string, g: string)
    ensures GroupMinima(rows, c, g).Keys == KeySet(rows, g)
    ensures forall k :: k in GroupMinima(rows, c, g) ==> GroupMinima(rows, c, g)[k].Int?
    ensures forall k, r :: k in GroupMinima(rows, c, g) && r in rows && KeyOf(r, g) == k ==>
      GroupMinima(rows, c, g)[k].value <= ValueOf(r, c)
    ensures forall k :: k in GroupMinima(rows, c, g) ==>
      exists r :: r in rows && KeyOf(r, g) == k && ValueOf(r, c) == GroupMinima(rows, c, g)[k].value
  {
    var m := GroupMinima(rows, c, g);
    forall k ensures k in m <==> k in KeySet(rows, g) {
      GroupValuesAt(rows, c, g, k);
    }
    forall k | k in m
      ensures m[k].Int?
      ensures forall r :: r in rows && KeyOf(r, g) == k ==> m[k].value <= ValueOf(r, c)
      ensures exists r :: r in rows && KeyOf(r, g) == k && ValueOf(r, c) == m[k].value
    {
      GroupListAt(rows, c, g, k);
      ColumnMin(Members(rows, g, k), c);
    }
  }

  // ---------------------------------------------------------------------------
  // Conservation: the groups partition the rows.

  /** The figures of `m` at the keys `ks`, added up. */
  function SumOver(ks: seq<string>, m: map<string, int>): int
    requires forall k :: k in ks ==> k in m
  {
    if ks == [] then 0 else SumOver(ks[..|ks| - 1], m) + m[ks[|ks| - 1]]
  }

  lemma {:induction false} SumOverUpdateAbsent(ks: seq<string>, m: map<string, int>, k: string, v: int)
    requires forall x :: x in ks ==> x in m
    requires k !in ks
    ensures SumOver(ks, m[k := v]) == SumOver(ks, m)
  {
    if ks != [] {
      SumOverUpdateAbsent(ks[..|ks| - 1], m, k, v);
    }
  }

  lemma {:induction false} SumOverUpdatePresent(ks: seq<string>, m: map<string, int>, k: string, d: int)
    requires forall x :: x in ks ==> x in m
    requires forall i, j :: 0 <= i < j < |ks| ==> ks[i] != ks[j]
    requires k in ks
    ensures SumOver(ks, m[k := m[k] + d]) == SumOver(ks, m) + d
  {
    var front := ks[..|ks| - 1];
    if ks[|ks| - 1] == k {
      assert k !in front;
      SumOverUpdateAbsent(front, m, k, m[k] + d);
    } else {
      assert k in front;
      SumOverUpdatePresent(front, m, k, d);
    }
  }

  /** Adding `v` to the entry of `k`, and appending `k` to the keys when it is
    * new, adds `v` to the total. */
  lemma SumOverStep(ks: seq<string>, m: map<string, int>, k: string, v: int)
    requires forall x :: x in m <==> x in ks
    requires forall i, j :: 0 <= i < j < |ks| ==> ks[i] != ks[j]
    ensures var ks', m' := (if k in ks then ks else ks + [k]), m[k := (if k in m then m[k] else 0) + v];
      (forall x :: x in m' <==> x in ks') && SumOver(ks', m') == SumOver(ks, m) + v
  {
    if k in ks {
      SumOverUpdatePresent(ks, m, k, v);
    } else {
      var ks', m' := ks + [k], m[k := v];
      assert k !in m;
      SumOverUpdateAbsent(ks, m, k, v);
      assert ks'[..|ks|] == ks;
      assert SumOver(ks', m') == SumOver(ks, m') + m'[k];
    }
  }

  /** One more row: its key is appended when new, and its entries grow. */
  lemma CountsStep(rows: seq<Row>, g: string)
    requires rows != []
    ensures var s, k := rows[..|rows| - 1], KeyOf(rows[|rows| - 1], g);
      && GroupKeys(rows, g) == (if k in GroupKeys(s, g) then GroupKeys(s, g) else GroupKeys(s, g) + [k])
      && GroupCounts(rows, g) == GroupCounts(s, g)[k := (if k in GroupCounts(s, g) then GroupCounts(s, g)[k] else 0) + 1]
  {
  }

  lemma SumsStep(rows: seq<Row>, c: string, g: string)
    requires rows != []
    ensures var s, k := rows[..|rows| - 1], KeyOf(rows[|rows| - 1], g);
      && GroupKeys(rows, g) == (if k in GroupKeys(s, g) then GroupKeys(s, g) else GroupKeys(s, g) + [k])
      && GroupSums(rows, c, g) == GroupSums(s, c, g)[k := (if k in GroupSums(s, c, g) then GroupSums(s, c, g)[k] else 0) + ValueOf(rows[|rows| - 1], c)]
  {
  }

  /** calculateCountByGroup has an entry for exactly the keys GroupKeys lists. */
  lemma GroupCountsKeys(rows: seq<Row>, g: string)
    ensures forall x :: x in GroupCounts(rows, g) <==> x in GroupKeys(rows, g)
  {
    GroupKeysMeaning(rows, g);
    forall x ensures x in GroupCounts(rows, g) <==> x in KeySet(rows, g) {
      GroupCountsAt(rows, g, x);
    }
  }

  /** One more row adds one to the total of the grouped counts. */
  lemma CountsTotalStep(rows: seq<Row>, g: string)
    requires rows != []
    ensures forall x :: x in GroupKeys(rows, g) ==> x in GroupCounts(rows, g)
    ensures var s := rows[..|rows| - 1];
      (forall x :: x in GroupKeys(s, g) ==> x in GroupCounts(s, g)) &&
      SumOver(GroupKeys(rows, g), GroupCounts(rows, g)) == SumOver(GroupKeys(s, g), GroupCounts(s, g)) + 1
  {
    var s := rows[..|rows| - 1];
    var ks, m, k := GroupKeys(s, g), GroupCounts(s, g), KeyOf(rows[|rows| - 1], g);
    CountsStep(rows, g);
    var ks', m' := (if k in ks then ks else ks + [k]), m[k := (if k in m then m[k] else 0) + 1];
    assert GroupKeys(rows, g) == ks';
    assert GroupCounts(rows, g) == m';
    GroupCountsKeys(rows, g);
    GroupCountsKeys(s, g);
    GroupKeysDistinct(s, g);
    SumOverStep(ks, m, k, 1);
  }

  /** calculateCountByGroup's values add up to the number of rows. */
  lemma {:induction false} GroupCountsTotal(rows: seq<Row>, g: string)
    ensures forall x :: x in GroupCounts(rows, g) <==> x in GroupKeys(rows, g)
    ensures SumOver(GroupKeys(rows, g), GroupCounts(rows, g)) == |rows|
  {
    GroupCountsKeys(rows, g);
    if rows != [] {
      GroupCountsTotal(rows[..|rows| - 1], g);
      CountsTotalStep(rows, g);
    }
  }

  /** A group column no row has puts every row under `String(undefined)`. */
  lemma {:induction false} UndefinedGroup(rows: seq<Row>, g: string)
    requires forall i :: 0 <= i < |rows| ==> g !in rows[i].cells
    ensures rows != [] ==> GroupCounts(rows, g) == map["undefined" := |rows|]
    ensures rows == [] ==> GroupCounts(rows, g) == map[]
  {
    if rows != [] {
      UndefinedGroup(rows[..|rows| - 1], g);
      assert KeyOf(rows[|rows| - 1], g) == "undefined";
    }
  }

  /** calculateSumByGroup has an entry for exactly the keys GroupKeys lists. */
  lemma GroupSumsKeys(rows: seq<Row>, c: string, g: string)
    ensures forall x :: x in GroupSums(rows, c, g) <==> x in GroupKeys(rows, g)
  {
    GroupKeysMeaning(rows, g);
    forall x ensures x in GroupSums(rows, c, g) <==> x in KeySet(rows, g) {
      GroupSumsAt(rows, c, g, x);
    }
  }

  /** One more row adds its value to the total of the grouped sums. */
  lemma SumsTotalStep(rows: seq<Row>, c: string, g: string)
    requires rows != []
    ensures forall x :: x in GroupKeys(rows, g) ==> x in GroupSums(rows, c, g)
    ensures var s := rows[..|rows| - 1];
      (forall x :: x in GroupKeys(s, g) ==> x in GroupSums(s, c, g)) &&
      SumOver(GroupKeys(rows, g), GroupSums(rows, c, g)) == SumOver(GroupKeys(s, g), GroupSums(s, c, g)) + ValueOf(rows[|rows| - 1], c)
  {
    var s := rows[..|rows| - 1];
    var ks, m, k, v := GroupKeys(s, g), GroupSums(s, c, g), KeyOf(rows[|rows| - 1], g), ValueOf(rows[|rows| - 1], c);
    SumsStep(rows, c, g);
    var ks', m' := (if k in ks then ks else ks + [k]), m[k := (if k in m then m[k] else 0) + v];
    assert GroupKeys(rows, g) == ks';
    assert GroupSums(rows, c, g) == m';
    GroupSumsKeys(rows, c, g);
    GroupSumsKeys(s, c, g);
    GroupKeysDistinct(s, g);
    SumOverStep(ks, m, k, v);
  }

  /** calculateSumByGroup's values add up to calculateSum. */
  lemma {:induction false} GroupSumsTotal(rows: seq<Row>, c: string, g: string)
    ensures forall x :: x in GroupSums(rows, c, g) <==> x in GroupKeys(rows, g)
    ensures SumOver(GroupKeys(rows, g), GroupSums(rows, c, g)) == Sum(rows, c)
  {
    GroupSumsKeys(rows, c, g);
    if rows != [] {
      GroupSumsTotal(rows[..|rows| - 1], c, g);
      SumsTotalStep(rows, c, g);
    }
  }

  /** The value of a finite quotient. */
  function Quotient(n: Number): real
    requires n.Div? && n.den != 0
  {
    n.num as real / n.den as real
  }

  /** The percentages at the keys `ks`, added up as exact rationals. */
  function PercentOver(ks: seq<string>, m: map<string, Number>): real
    requires forall k :: k in ks ==> k in m && m[k].Div? && m[k].den != 0
  {
    if ks == [] then 0.0 else PercentOver(ks[..|ks| - 1], m) + Quotient(m[ks[|ks| - 1]])
  }

  lemma AddQuotients(x: real, y: real, t: real)
    requires t != 0.0
    ensures x / t + y / t == (x + y) / t
  {
  }

  /** A hundred times the total over the total is a hundred. */
  lemma WholeIsHundred(p: real, s: int, total: int)
    requires total != 0 && s == total
    requires p == (100 * s) as real / total as real
    ensures p == 100.0
  {
    assert (100 * s) as real == 100.0 * total as real;
    CancelQuotient(100.0, total as real);
  }

  lemma CancelQuotient(x: real, t: real)
    requires t != 0.0
    ensures x * t / t == x
  {
  }

  lemma {:induction false} PercentOverScaled(ks: seq<string>, m: map<string, Number>, sums: map<string, int>, total: int)
    requires total != 0
    requires forall k :: k in ks ==> k in m && k in sums && m[k] == Div(100 * sums[k], total)
    ensures PercentOver(ks, m) == (100 * SumOver(ks, sums)) as real / total as real
  {
    if ks != [] {
      var front, last := ks[..|ks| - 1], ks[|ks| - 1];
      PercentOverScaled(front, m, sums, total);
      AddQuotients((100 * SumOver(front, sums)) as real, (100 * sums[last]) as real, total as real);
    }
  }

  /** Every listed key has a share: its sum, times 100, over the overall sum. */
  lemma PercentEntries(rows: seq<Row>, c: string, g: string)
    ensures forall k :: k in GroupKeys(rows, g) ==>
      && k in GroupSums(rows, c, g) && k in GroupPercentages(rows, c, g)
      && GroupPercentages(rows, c, g)[k] == Div(100 * GroupSums(rows, c, g)[k], Sum(rows, c))
  {
    GroupSumsKeys(rows, c, g);
  }

  /** When the overall sum is not zero, calculatePercentageByGroup's values add up to 100. */
  lemma PercentagesAddUpTo100(rows: seq<Row>, c: string, g: string)
    requires Sum(rows, c) != 0
    ensures forall k :: k in GroupKeys(rows, g) ==>
      k in GroupPercentages(rows, c, g) && GroupPercentages(rows, c, g)[k].Div? && GroupPercentages(rows, c, g)[k].den != 0
    ensures PercentOver(GroupKeys(rows, g), GroupPercentages(rows, c, g)) == 100.0
  {
    var ks, m, sums, total := GroupKeys(rows, g), GroupPercentages(rows, c, g), GroupSums(rows, c, g), Sum(rows, c);
    PercentEntries(rows, c, g);
    PercentOverScaled(ks, m, sums, total);
    GroupSumsTotal(rows, c, g);
    WholeIsHundred(PercentOver(ks, m), SumOver(ks, sums), total);
  }

  // ---------------------------------------------------------------------------
  // The grouped primitives as the source computes them, row by row.

  /** calculateCountByGroup: `acc[key] = (acc[key] || 0) + 1` for each row. */
  method CalculateCountByGroup(data: seq<Row>, g: string) returns (acc: map<string, int>)
    ensures acc == GroupCounts(data, g)
  {
    acc := map[];
    for i := 0 to |data|
      invariant acc == GroupCounts(data[..i], g)
    {
      var key := KeyOf(data[i], g);
      assert data[..i + 1][..i] == data[..i];
      assert data[..i + 1][i] == data[i];
      acc := acc[key := (if key in acc then acc[key] else 0) + 1];
    }
    assert data[..|data|] == data;
  }

  /** calculateSumByGroup: `acc[key] = (acc[key] || 0) + Number(row[c] || 0)` for each row. */
  method CalculateSumByGroup(data: seq<Row>, c: string, g: string) returns (acc: map<string, int>)
    ensures acc == GroupSums(data, c, g)
  {
    acc := map[];
    for i := 0 to |data|
      invariant acc == GroupSums(data[..i], c, g)
    {
      var key := KeyOf(data[i], g);
      assert data[..i + 1][..i] == data[..i];
      assert data[..i + 1][i] == data[i];
      acc := acc[key := (if key in acc then acc[key] else 0) + ValueOf(data[i], c)];
    }
    assert data[..|data|] == data;
  }

  /** The first pass of calculateAverageByGroup: a group starts at `{sum: 0, count: 0}`,
    * then `sum += value` and `count++` for each of its rows. */
  method TallyGroups(data: seq<Row>, c: string, g: string) returns (groups: map<string, Tally>)
    ensures groups == GroupTallies(data, c, g)
  {
    groups := map[];
    for i := 0 to |data|
      invariant groups == GroupTallies(data[..i], c, g)
    {
      var key := KeyOf(data[i], g);
      assert data[..i + 1][..i] == data[..i];
      assert data[..i + 1][i] == data[i];
      var t := if key in groups then groups[key] else Tally(0, 0);
      groups := groups[key := Tally(t.sum + ValueOf(data[i], c), t.count + 1)];
    }
    assert data[..|data|] == data;
  }

  /** The second pass of calculateAverageByGroup: `sum / count` for every entry. */
  method QuotientsOf(groups: map<string, Tally>) returns (result: map<string, Number>)
    ensures result == map k | k in groups :: Div(groups[k].sum, groups[k].count)
  {
    result := map[];
    var pending := groups.Keys;
    while pending != {}
      invariant pending <= groups.Keys
      invariant result == map k | k in groups.Keys - pending :: Div(groups[k].sum, groups[k].count)
      decreases |pending|
    {
      var key :| key in pending;
      result := result[key := Div(groups[key].sum, groups[key].count)];
      pending := pending - {key};
    }
  }

  /** calculateAverageByGroup: the tallies per group, then each sum over its count. */
  method CalculateAverageByGroup(data: seq<Row>, c: string, g: string) returns (result: map<string, Number>)
    ensures result == GroupAverages(data, c, g)
  {
    var groups := TallyGroups(data, c, g);
    result := QuotientsOf(groups);
  }

  /** The first pass of calculateMaxByGroup and calculateMinByGroup:
    * `groups[key].push(Number(row[c] || 0))`, starting a group at `[]`. */
  method CollectGroupValues(data: seq<Row>, c: string, g: string) returns (groups: map<string, seq<int>>)
    ensures groups == GroupValues(data, c, g)
  {
    groups := map[];
    for i := 0 to |data|
      invariant groups == GroupValues(data[..i], c, g)
    {
      var key := KeyOf(data[i], g);
      assert data[..i + 1][..i] == data[..i];
      assert data[..i + 1][i] == data[i];
      var values := if key in groups then groups[key] else [];
      groups := groups[key := values + [ValueOf(data[i], c)]];
    }
    assert data[..|data|] == data;
  }

  /** The second pass of calculateMaxByGroup: `Math.max` of every list. */
  method MaximaOf(groups: map<string, seq<int>>) returns (result: map<string, Number>)
    ensures result == map k | k in groups :: MaxOf(groups[k])
  {
    result := map[];
    var pending := groups.Keys;
    while pending != {}
      invariant pending <= groups.Keys
      invariant result == map k | k in groups.Keys - pending :: MaxOf(groups[k])
      decreases |pending|
    {
      var key :| key in pending;
      result := result[key := MaxOf(groups[key])];
      pending := pending - {key};
    }
  }

  /** calculateMaxByGroup: the value lists per group, then `Math.max` of each. */
  method CalculateMaxByGroup(data: seq<Row>, c: string, g: string) returns (result: map<string, Number>)
    ensures result == GroupMaxima(data, c, g)
  {
    var groups := CollectGroupValues(data, c, g);
    result := MaximaOf(groups);
  }

  /** The second pass of calculateMinByGroup: `Math.min` of every list. */
  method MinimaOf(groups: map<string, seq<int>>) returns (result: map<string, Number>)
    ensures result == map k | k in groups :: MinOf(groups[k])
  {
    result := map[];
    var pending := groups.Keys;
    while pending != {}
      invariant pending <= groups.Keys
      invariant result == map k | k in groups.Keys - pending :: MinOf(groups[k])
      decreases |pending|
    {
      var key :| key in pending;
      result := result[key := MinOf(groups[key])];
      pending := pending - {key};
    }
  }

  /** calculateMinByGroup: the value lists per group, then `Math.min` of each. */
  method CalculateMinByGroup(data: seq<Row>, c: string, g: string) returns (result: map<string, Number>)
    ensures result == GroupMinima(data, c, g)
  {
    var groups := CollectGroupValues(data, c, g);
    result := MinimaOf(groups);
  }

  /** The last pass of calculatePercentageByGroup: `(sum / totalSum) * 100` for every entry. */
  method SharesOf(sums: map<string, int>, totalSum: int) returns (result: map<string, Number>)
    ensures result == map k | k in sums :: Div(100 * sums[k], totalSum)
  {
    result := map[];
    var pending := sums.Keys;
    while pending != {}
      invariant pending <= sums.Keys
      invariant result == map k | k in sums.Keys - pending :: Div(100 * sums[k], totalSum)
      decreases |pending|
    {
      var key :| key in pending;
      result := result[key := Div(100 * sums[key], totalSum)];
      pending := pending - {key};
    }
  }

  /** calculatePercentageByGroup: the overall sum, the sums per group, then each
    * group's share. */
  method CalculatePercentageByGroup(data: seq<Row>, c: string, g: string) returns (result: map<string, Number>)
    ensures result == GroupPercentages(data, c, g)
  {
    var totalSum := Sum(data, c);
    var sums := CalculateSumByGroup(data, c, g);
    result := SharesOf(sums, totalSum);
  }
}
