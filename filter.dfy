/**
  * The filter processor: the clauses of a filter query, applied pass by pass
  * (all equalities, then all `>`, all `<`, all `IN`, all `BETWEEN`) to a copy
  * of the data, and the survivors sorted by the first ORDER BY.
  */
module Filter {
  import opened Wrappers
  import opened Strings
  import opened JsValues
  import opened Outcomes
  import opened Sorting

  /** One clause the query's patterns found, with its text already read:
    * quotes stripped and trimmed for `=` and `IN`, numbers for the bounds. */
  datatype Clause =
    | Eq(column: string, value: string)
    | Gt(column: string, bound: int)
    | Lt(column: string, bound: int)
    | In(column: string, values: seq<string>)
    | Between(column: string, lo: int, hi: int)
    | OrderBy(column: string, descending: bool)

  /** The five filtering passes, in the order the processor runs them. */
  datatype Pass = EqPass | GtPass | LtPass | InPass | BetweenPass

  function PassOf(c: Clause): Option<Pass> {
    match c
    case Eq(_, _) => Some(EqPass)
    case Gt(_, _) => Some(GtPass)
    case Lt(_, _) => Some(LtPass)
    case In(_, _) => Some(InPass)
    case Between(_, _, _) => Some(BetweenPass)
    case OrderBy(_, _) => None
  }

  /** Whether a row survives a clause: `String(row[c]) === v`, the strict
    * numeric comparisons (false on NaN), membership in the value list, and the
    * inclusive range. ORDER BY removes nothing. */
  predicate Holds(c: Clause, row: Row) {
    match c
    case Eq(col, v) => ToStr(Lookup(row, col)) == v
    case Gt(col, b) => var x := JsNumber(Lookup(row, col)); x.Some? && x.value > b
    case Lt(col, b) => var x := JsNumber(Lookup(row, col)); x.Some? && x.value < b
    case In(col, vs) => ToStr(Lookup(row, col)) in vs
    case Between(col, lo, hi) => var x := JsNumber(Lookup(row, col)); x.Some? && lo <= x.value && x.value <= hi
    case OrderBy(_, _) => true
  }

  predicate SatisfiesAll(row: Row, cs: seq<Clause>) {
    forall i :: 0 <= i < |cs| ==> Holds(cs[i], row)
  }

  /** The rows that satisfy every clause, in their original order
    * (`rows.filter(...)`, one clause or several). */
  function Keep(rows: seq<Row>, cs: seq<Clause>): seq<Row> {
    if rows == [] then []
    else
      var last := rows[|rows| - 1];
      Keep(rows[..|rows| - 1], cs) + (if SatisfiesAll(last, cs) then [last] else [])
  }

  /** `xs` is `ys` with some elements left out, the rest in the same order. */
  predicate IsSubsequence(xs: seq<Row>, ys: seq<Row>)
    decreases |ys|
  {
    if xs == [] then true
    else if ys == [] then false
    else
      || IsSubsequence(xs, ys[..|ys| - 1])
      || (xs[|xs| - 1] == ys[|ys| - 1] && IsSubsequence(xs[..|xs| - 1], ys[..|ys| - 1]))
  }

  /** A row survives exactly when it is an input row that satisfies every clause. */
  lemma {:induction false} KeepMeaning(rows: seq<Row>, cs: seq<Clause>, r: Row)
    ensures r in Keep(rows, cs) <==> r in rows && SatisfiesAll(r, cs)
  {
    if rows != [] {
      var front := rows[..|rows| - 1];
      KeepMeaning(front, cs, r);
      assert rows == front + [rows[|rows| - 1]];
    }
  }

  /** Each satisfying row survives as often as it occurs in the input; no other row survives. */
  lemma {:induction false} KeepCounts(rows: seq<Row>, cs: seq<Clause>, r: Row)
    ensures multiset(Keep(rows, cs))[r] == if SatisfiesAll(r, cs) then multiset(rows)[r] else 0
  {
    if rows != [] {
      var front := rows[..|rows| - 1];
      KeepCounts(front, cs, r);
      assert rows == front + [rows[|rows| - 1]];
    }
  }

  /** Filtering only narrows: the survivors are a subsequence of the input. */
  lemma {:induction false} KeepIsSubsequence(rows: seq<Row>, cs: seq<Clause>)
    ensures IsSubsequence(Keep(rows, cs), rows)
    ensures |Keep(rows, cs)| <= |rows|
  {
    if rows != [] {
      var front := rows[..|rows| - 1];
      var last := rows[|rows| - 1];
      KeepIsSubsequence(front, cs);
      var k := Keep(front, cs);
      if SatisfiesAll(last, cs) {
        assert Keep(rows, cs) == k + [last];
        assert (k + [last])[..|k|] == k;
      } else {
        assert Keep(rows, cs) == k;
      }
    }
  }

  lemma SatisfiesAppend(r: Row, a: seq<Clause>, b: seq<Clause>)
    ensures SatisfiesAll(r, a + b) <==> SatisfiesAll(r, a) && SatisfiesAll(r, b)
  {
    if SatisfiesAll(r, a) && SatisfiesAll(r, b) {
      forall i | 0 <= i < |a + b| ensures Holds((a + b)[i], r) {
        if i < |a| { assert (a + b)[i] == a[i]; } else { assert (a + b)[i] == b[i - |a|]; }
      }
    }
    if SatisfiesAll(r, a + b) {
      forall i | 0 <= i < |a| ensures Holds(a[i], r) {
        assert (a + b)[i] == a[i];
      }
      forall i | 0 <= i < |b| ensures Holds(b[i], r) {
        assert (a + b)[|a| + i] == b[i];
      }
    }
  }

  /** Filtering again by more clauses is filtering once by all of them. */
  lemma {:induction false} KeepThen(rows: seq<Row>, a: seq<Clause>, b: seq<Clause>)
    ensures Keep(Keep(rows, a), b) == Keep(rows, a + b)
  {
    if rows != [] {
      var front := rows[..|rows| - 1];
      var last := rows[|rows| - 1];
      KeepThen(front, a, b);
      SatisfiesAppend(last, a, b);
      var k := Keep(front, a);
      if SatisfiesAll(last, a) {
        var k' := k + [last];
        assert Keep(rows, a) == k';
        assert k'[..|k'| - 1] == k && k'[|k'| - 1] == last;
        assert Keep(k', b) == Keep(k, b) + (if SatisfiesAll(last, b) then [last] else []);
      } else {
        assert Keep(rows, a) == k;
      }
    }
  }

  /** Only what the clauses demand matters, not how they are listed. */
  lemma {:induction false} KeepSameDemands(rows: seq<Row>, a: seq<Clause>, b: seq<Clause>)
    requires forall c :: c in a && !c.OrderBy? <==> c in b && !c.OrderBy?
    ensures Keep(rows, a) == Keep(rows, b)
  {
    if rows != [] {
      KeepSameDemands(rows[..|rows| - 1], a, b);
      var last := rows[|rows| - 1];
      if SatisfiesAll(last, a) {
        forall i | 0 <= i < |b| ensures Holds(b[i], last) {
          if !b[i].OrderBy? {
            var j :| 0 <= j < |a| && a[j] == b[i];
          }
        }
      }
      if SatisfiesAll(last, b) {
        forall i | 0 <= i < |a| ensures Holds(a[i], last) {
          if !a[i].OrderBy? {
            var j :| 0 <= j < |b| && b[j] == a[i];
          }
        }
      }
    }
  }

  /** The clauses one pass applies, in the order they were matched. */
  function OfPass(cs: seq<Clause>, p: Pass): (r: seq<Clause>)
    ensures forall c :: c in r <==> c in cs && PassOf(c) == Some(p)
  {
    if cs == [] then []
    else
      var last := cs[|cs| - 1];
      assert cs == cs[..|cs| - 1] + [last];
      OfPass(cs[..|cs| - 1], p) + (if PassOf(last) == Some(p) then [last] else [])
  }

  /** All filtering clauses in the order the passes apply them. */
  function PassOrder(cs: seq<Clause>): seq<Clause> {
    OfPass(cs, EqPass) + OfPass(cs, GtPass) + OfPass(cs, LtPass) + OfPass(cs, InPass) + OfPass(cs, BetweenPass)
  }

  lemma PassOrderDemands(cs: seq<Clause>)
    ensures forall c :: c in PassOrder(cs) && !c.OrderBy? <==> c in cs && !c.OrderBy?
  {
  }

  lemma OfPassStep(cs: seq<Clause>, i: nat, p: Pass)
    requires i < |cs|
    ensures PassOf(cs[i]) == Some(p) ==> OfPass(cs[..i + 1], p) == OfPass(cs[..i], p) + [cs[i]]
    ensures PassOf(cs[i]) != Some(p) ==> OfPass(cs[..i + 1], p) == OfPass(cs[..i], p)
  {
    var c := cs[..i + 1];
    assert c[..|c| - 1] == cs[..i] && c[|c| - 1] == cs[i];
    assert OfPass(cs[..i], p) + [] == OfPass(cs[..i], p);
  }

  /** Running one pass: each of its clauses narrows the current rows in turn. */
  method RunPass(rows: seq<Row>, cs: seq<Clause>, p: Pass) returns (out: seq<Row>)
    ensures out == Keep(rows, OfPass(cs, p))
  {
    out := rows;
    KeepNothing(rows);
    assert OfPass(cs[..0], p) == [];
    for i := 0 to |cs|
      invariant out == Keep(rows, OfPass(cs[..i], p))
    {
      OfPassStep(cs, i, p);
      if PassOf(cs[i]) == Some(p) {
        KeepThen(rows, OfPass(cs[..i], p), [cs[i]]);
        out := Keep(out, [cs[i]]);
      }
    }
    assert cs[..|cs|] == cs;
  }

  lemma {:induction false} KeepNothing(rows: seq<Row>)
    ensures Keep(rows, []) == rows
  {
    if rows != [] {
      KeepNothing(rows[..|rows| - 1]);
      assert rows == rows[..|rows| - 1] + [rows[|rows| - 1]];
    }
  }

  /** The ORDER BY the processor honours: the first one in the query. */
  function FirstOrderBy(cs: seq<Clause>): (r: Option<Clause>)
    ensures r.Some? ==> r.value.OrderBy? && r.value in cs
    ensures r.None? ==> forall c :: c in cs ==> !c.OrderBy?
  {
    if cs == [] then None
    else if cs[0].OrderBy? then Some(cs[0])
    else FirstOrderBy(cs[1..])
  }

  /** The sort comparator: numeric difference when the left row's key is a
    * number (NaN reads as equal), `localeCompare` of the strings otherwise;
    * the operands swap for DESC. */
  function Compare(a: Row, b: Row, col: string, descending: bool): int {
    match Lookup(a, col)
    case Num(x) =>
      (match JsNumber(Lookup(b, col))
       case Some(y) => if descending then y - x else x - y
       case None => 0)
    case _ =>
      var s, t := ToStr(Lookup(a, col)), ToStr(Lookup(b, col));
      if descending then LocaleCompare(t, s) else LocaleCompare(s, t)
  }

  /** The comparator `filteredData.sort` is given. */
  function Comparator(col: string, descending: bool): (Row, Row) -> int {
    (a: Row, b: Row) => Compare(a, b, col, descending)
  }

  /** Every key of the column is a number, or none is. */
  predicate UniformKeys(s: seq<Row>, col: string) {
    || (forall r :: r in s ==> Lookup(r, col).Num?)
    || (forall r :: r in s ==> !Lookup(r, col).Num?)
  }

  /** Between two keys of the same kind the comparator is antisymmetric. */
  lemma CompareFlip(a: Row, b: Row, col: string, descending: bool)
    requires Lookup(a, col).Num? == Lookup(b, col).Num?
    requires Compare(a, b, col, descending) >= 0
    ensures Compare(b, a, col, descending) <= 0
  {
  }

  /** Over keys of one kind the comparator can sort. */
  lemma UniformAntisymmetric(s: seq<Row>, col: string, descending: bool)
    requires UniformKeys(s, col)
    ensures Antisymmetric(s, Comparator(col, descending))
  {
    var cmp := Comparator(col, descending);
    forall a, b | a in s && b in s && cmp(a, b) >= 0 ensures cmp(b, a) <= 0 {
      CompareFlip(a, b, col, descending);
    }
  }

  /** Over numeric keys, ASC puts them in non-decreasing order and DESC in non-increasing order. */
  lemma {:induction false} SortedNumbers(s: seq<Row>, col: string, descending: bool, i: int, j: int)
    requires Sorted(s, Comparator(col, descending))
    requires forall r :: r in s ==> Lookup(r, col).Num?
    requires 0 <= i <= j < |s|
    ensures !descending ==> Lookup(s[i], col).n <= Lookup(s[j], col).n
    ensures descending ==> Lookup(s[i], col).n >= Lookup(s[j], col).n
    decreases j - i
  {
    if i < j {
      SortedNumbers(s, col, descending, i, j - 1);
      assert s[j - 1] in s && s[j] in s;
      assert Comparator(col, descending)(s[j - 1], s[j]) <= 0;
    }
  }

  /** The rows the filter query returns. */
  function FilterRows(data: seq<Row>, cs: seq<Clause>): seq<Row> {
    var kept := Keep(data, cs);
    match FirstOrderBy(cs)
    case None => kept
    case Some(o) => Sort(kept, Comparator(o.column, o.descending))
  }

  /** `{count, data}` as the processor returns it. */
  function FilterOutcome(data: seq<Row>, cs: seq<Clause>): (r: Outcome)
    ensures r.Filtered? && r.count == |r.rows|
  {
    var rows := FilterRows(data, cs);
    Filtered(|rows|, rows)
  }

  /** `processFilterQuery`: the five passes over a copy of the data, then the sort. */
  method ProcessFilterQuery(data: seq<Row>, cs: seq<Clause>) returns (count: nat, rows: seq<Row>)
    ensures Filtered(count, rows) == FilterOutcome(data, cs)
  {
    var filtered := data;
    filtered := RunPass(filtered, cs, EqPass);
    var k := OfPass(cs, EqPass);
    var next := RunPass(filtered, cs, GtPass);
    KeepThen(data, k, OfPass(cs, GtPass));
    filtered, k := next, k + OfPass(cs, GtPass);
    next := RunPass(filtered, cs, LtPass);
    KeepThen(data, k, OfPass(cs, LtPass));
    filtered, k := next, k + OfPass(cs, LtPass);
    next := RunPass(filtered, cs, InPass);
    KeepThen(data, k, OfPass(cs, InPass));
    filtered, k := next, k + OfPass(cs, InPass);
    next := RunPass(filtered, cs, BetweenPass);
    KeepThen(data, k, OfPass(cs, BetweenPass));
    filtered, k := next, k + OfPass(cs, BetweenPass);
    assert k == PassOrder(cs);
    PassOrderDemands(cs);
    KeepSameDemands(data, k, cs);
    match FirstOrderBy(cs) {
      case None =>
      case Some(o) =>
        var a := new Row[|filtered|](i requires 0 <= i < |filtered| => filtered[i]);
        assert a[..] == filtered;
        InsertionSort(a, Comparator(o.column, o.descending));
        filtered := a[..];
    }
    count, rows := |filtered|, filtered;
  }

  /** Without ORDER BY the result keeps the input's order and drops only rows
    * that fail a clause; every returned row satisfies every clause. */
  lemma UnorderedFilter(data: seq<Row>, cs: seq<Clause>)
    requires FirstOrderBy(cs).None?
    ensures IsSubsequence(FilterRows(data, cs), data)
    ensures forall r :: r in FilterRows(data, cs) <==> r in data && SatisfiesAll(r, cs)
    ensures forall r :: multiset(FilterRows(data, cs))[r] == if SatisfiesAll(r, cs) then multiset(data)[r] else 0
  {
    KeepIsSubsequence(data, cs);
    forall r ensures r in FilterRows(data, cs) <==> r in data && SatisfiesAll(r, cs) {
      KeepMeaning(data, cs, r);
    }
    forall r ensures multiset(FilterRows(data, cs))[r] == if SatisfiesAll(r, cs) then multiset(data)[r] else 0 {
      KeepCounts(data, cs, r);
    }
  }

  /** With ORDER BY the result holds the same rows as without, each as often,
    * and is sorted when the sort keys are all numbers or all not. */
  lemma OrderedFilter(data: seq<Row>, cs: seq<Clause>)
    requires FirstOrderBy(cs).Some?
    ensures var o := FirstOrderBy(cs).value;
      && multiset(FilterRows(data, cs)) == multiset(Keep(data, cs))
      && (forall r :: multiset(FilterRows(data, cs))[r] == if SatisfiesAll(r, cs) then multiset(data)[r] else 0)
      && (UniformKeys(Keep(data, cs), o.column) ==> Sorted(FilterRows(data, cs), Comparator(o.column, o.descending)))
  {
    var o := FirstOrderBy(cs).value;
    SortPermutes(Keep(data, cs), Comparator(o.column, o.descending));
    forall r ensures multiset(FilterRows(data, cs))[r] == if SatisfiesAll(r, cs) then multiset(data)[r] else 0 {
      KeepCounts(data, cs, r);
    }
    if UniformKeys(Keep(data, cs), o.column) {
      UniformAntisymmetric(Keep(data, cs), o.column, o.descending);
      SortSorted(Keep(data, cs), Comparator(o.column, o.descending));
    }
  }

  /** Every returned row came from the input and satisfies every clause, ordered or not. */
  lemma FilteredRowsSatisfy(data: seq<Row>, cs: seq<Clause>, r: Row)
    requires r in FilterRows(data, cs)
    ensures r in data && SatisfiesAll(r, cs)
  {
    if FirstOrderBy(cs).Some? {
      var o := FirstOrderBy(cs).value;
      SortPermutes(Keep(data, cs), Comparator(o.column, o.descending));
      assert r in multiset(Sort(Keep(data, cs), Comparator(o.column, o.descending)));
    }
    KeepMeaning(data, cs, r);
  }
}
