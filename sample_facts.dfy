/**
  * `getSampleData`'s twelve fixed rows, and what the formula and filter
  * processors give on them.
  */
module SampleFacts {
  import opened Wrappers
  import opened Strings
  import opened JsValues
  import opened Outcomes
  import opened Aggregates
  import opened Formula
  import opened Filter
  import opened Sorting

  /** The key order every sample row has. */
  function SampleColumns(): seq<string> {
    ["Month", "Sales", "Expenses", "Profit", "Region"]
  }

  /** One sample row, its keys in literal order. */
  function Entry(month: string, sales: int, expenses: int, profit: int, region: string): Row {
    Row(SampleColumns(),
      map["Month" := Str(month), "Sales" := Num(sales), "Expenses" := Num(expenses),
          "Profit" := Num(profit), "Region" := Str(region)])
  }

  /** The Month column, January to December. */
  function Months(): seq<string> {
    ["January", "February", "March", "April", "May", "June",
     "July", "August", "September", "October", "November", "December"]
  }

  /** The Sales, Expenses and Profit columns, month by month. */
  function SalesFigures(): seq<int> { [65, 59, 80, 81, 56, 55, 40, 70, 60, 63, 55, 85] }
  function ExpenseFigures(): seq<int> { [50, 40, 55, 60, 45, 35, 30, 45, 40, 55, 45, 65] }
  function ProfitFigures(): seq<int> { [15, 19, 25, 21, 11, 20, 10, 25, 20, 8, 10, 20] }

  /** The Region column: three months each for North, East, West and South. */
  function RegionOf(i: nat): string {
    if i < 3 then "North" else if i < 6 then "East" else if i < 9 then "West" else "South"
  }

  /** `getSampleData()`'s rows, in order. */
  function SampleRows(): (rows: seq<Row>)
    ensures |rows| == 12
  {
    seq(12, i requires 0 <= i < 12 =>
      Entry(Months()[i], SalesFigures()[i], ExpenseFigures()[i], ProfitFigures()[i], RegionOf(i)))
  }

  /** A sample row is well formed and lists the five keys. */
  lemma EntryShape(month: string, sales: int, expenses: int, profit: int, region: string)
    ensures WellFormed(Entry(month, sales, expenses, profit, region))
    ensures Entry(month, sales, expenses, profit, region).columns == SampleColumns()
  {
    var cs := SampleColumns();
    assert cs[0] != cs[1] && cs[0] != cs[2] && cs[0] != cs[3] && cs[0] != cs[4];
    assert cs[1] != cs[2] && cs[1] != cs[3] && cs[1] != cs[4];
    assert cs[2] != cs[3] && cs[2] != cs[4] && cs[3] != cs[4];
  }

  /** Twelve rows, each with exactly the keys Month, Sales, Expenses and Profit and Region. */
  lemma SampleShape()
    ensures forall i :: 0 <= i < |SampleRows()| ==> WellFormed(SampleRows()[i]) && SampleRows()[i].columns == SampleColumns()
  {
    forall i | 0 <= i < 12
      ensures WellFormed(SampleRows()[i]) && SampleRows()[i].columns == SampleColumns()
    {
      EntryShape(Months()[i], SalesFigures()[i], ExpenseFigures()[i], ProfitFigures()[i], RegionOf(i));
    }
  }

  lemma CountsPrefix(d: seq<Row>, n: nat, g: string)
    requires 0 < n <= |d|
    ensures GroupCounts(d[..n], g) ==
      var m, k := GroupCounts(d[..n - 1], g), KeyOf(d[n - 1], g);
      m[k := (if k in m then m[k] else 0) + 1]
  {
    assert d[..n][..n - 1] == d[..n - 1];
  }

  /** A run of rows with the same new key `k` gives `k` an entry of the run's length. */
  lemma {:induction false} CountsRun(d: seq<Row>, lo: nat, hi: nat, g: string, k: string)
    requires lo < hi <= |d|
    requires forall i :: lo <= i < hi ==> KeyOf(d[i], g) == k
    requires k !in GroupCounts(d[..lo], g)
    ensures GroupCounts(d[..hi], g) == GroupCounts(d[..lo], g)[k := hi - lo]
  {
    CountsPrefix(d, hi, g);
    if hi - 1 > lo {
      CountsRun(d, lo, hi - 1, g, k);
    }
  }

  lemma SampleRegions(lo: nat, hi: nat)
    requires lo <= hi <= 12
    ensures forall i :: lo <= i < hi ==> KeyOf(SampleRows()[i], "Region") == RegionOf(i)
  {
  }

  lemma NorthCounts()
    ensures GroupCounts(SampleRows()[..3], "Region") == map["North" := 3]
  {
    SampleRegions(0, 3);
    assert SampleRows()[..0] == [];
    CountsRun(SampleRows(), 0, 3, "Region", "North");
  }

  lemma EastCounts()
    ensures GroupCounts(SampleRows()[..6], "Region") == map["North" := 3, "East" := 3]
  {
    NorthCounts();
    SampleRegions(3, 6);
    CountsRun(SampleRows(), 3, 6, "Region", "East");
  }

  lemma WestCounts()
    ensures GroupCounts(SampleRows()[..9], "Region") == map["North" := 3, "East" := 3, "West" := 3]
  {
    EastCounts();
    SampleRegions(6, 9);
    CountsRun(SampleRows(), 6, 9, "Region", "West");
  }

  /** calculateCountByGroup on Region: three months in each of the four regions. */
  lemma RegionCounts()
    ensures GroupCounts(SampleRows(), "Region") == map["North" := 3, "East" := 3, "West" := 3, "South" := 3]
  {
    WestCounts();
    SampleRegions(9, 12);
    CountsRun(SampleRows(), 9, 12, "Region", "South");
    assert SampleRows()[..12] == SampleRows();
  }

  lemma CountFormulaText()
    ensures Render(Formula(COUNT, "*", Some("Region"))) == "COUNT(*) GROUP BY Region"
  {
  }

  /** The group column's name holds no comma and no line terminator. */
  lemma RegionHasNoComma()
    ensures ',' !in "Region"
  {
    var s := "Region";
    assert s[0] == 'R' && s[1] == 'e' && s[2] == 'g' && s[3] == 'i' && s[4] == 'o' && s[5] == 'n';
  }

  lemma RegionTrimmed()
    ensures Trim("Region") == "Region"
  {
    var s := "Region";
    assert |s| == 6 && s[0] == 'R' && s[5] == 'n';
    TrimUnchanged(s);
  }

  lemma RegionOnOneLine()
    ensures NoLineTerminator("Region")
  {
    var s := "Region";
    assert s[0] == 'R' && s[1] == 'e' && s[2] == 'g' && s[3] == 'i' && s[4] == 'o' && s[5] == 'n';
  }

  lemma CountFormulaParses()
    ensures ProcessFormula(SampleRows(), "COUNT(*) GROUP BY Region")
      == Ok(Groups(AsNumbers(GroupCounts(SampleRows(), "Region"))))
  {
    TrimUnchanged("*");
    RegionTrimmed();
    RegionHasNoComma();
    RegionOnOneLine();
    assert "Region" in SampleRows()[0].cells;
    GroupedFormula(SampleRows(), COUNT, "*", "Region");
    CountFormulaText();
  }

  /** `COUNT(*) GROUP BY Region` on the sample: three months in each region. */
  lemma CountByRegion()
    ensures ProcessFormula(SampleRows(), "COUNT(*) GROUP BY Region")
      == Ok(Groups(map["North" := Int(3), "East" := Int(3), "West" := Int(3), "South" := Int(3)]))
  {
    CountFormulaParses();
    RegionCounts();
    ThreeEach(GroupCounts(SampleRows(), "Region"));
  }

  lemma ThreeEach(c: map<string, int>)
    requires c == map["North" := 3, "East" := 3, "West" := 3, "South" := 3]
    ensures AsNumbers(c) == map["North" := Int(3), "East" := Int(3), "West" := Int(3), "South" := Int(3)]
  {
    var m, e := AsNumbers(c), map["North" := Int(3), "East" := Int(3), "West" := Int(3), "South" := Int(3)];
    assert m.Keys == c.Keys == e.Keys;
    forall k | k in m ensures m[k] == e[k] {
      assert c[k] == 3;
    }
  }

  /** The Sales figure of each sample row, as the aggregations and comparisons read it. */
  lemma SampleSales(lo: nat, hi: nat)
    requires lo <= hi <= 12
    ensures forall i :: lo <= i < hi ==>
      && Lookup(SampleRows()[i], "Sales") == Num(SalesFigures()[i])
      && ValueOf(SampleRows()[i], "Sales") == SalesFigures()[i]
  {
  }

  lemma SumPrefix(d: seq<Row>, n: nat, c: string, g: string, k: string)
    requires 0 < n <= |d|
    ensures GroupSum(d[..n], c, g, k) ==
      GroupSum(d[..n - 1], c, g, k) + (if KeyOf(d[n - 1], g) == k then ValueOf(d[n - 1], c) else 0)
  {
    assert d[..n][..n - 1] == d[..n - 1];
  }

  /** Rows of other groups add nothing to a group's sum. */
  lemma {:induction false} SumSkip(d: seq<Row>, lo: nat, hi: nat, c: string, g: string, k: string)
    requires lo <= hi <= |d|
    requires forall i :: lo <= i < hi ==> KeyOf(d[i], g) != k
    ensures GroupSum(d[..hi], c, g, k) == GroupSum(d[..lo], c, g, k)
  {
    if hi > lo {
      SumPrefix(d, hi, c, g, k);
      SumSkip(d, lo, hi - 1, c, g, k);
    }
  }

  /** North's Sales: 65 + 59 + 80 over the first quarter. */
  lemma NorthSales()
    ensures GroupSum(SampleRows()[..3], "Sales", "Region", "North") == 204
  {
    var d := SampleRows();
    SampleRegions(0, 3);
    SampleSales(0, 3);
    assert d[..0] == [];
    SumPrefix(d, 1, "Sales", "Region", "North");
    SumPrefix(d, 2, "Sales", "Region", "North");
    SumPrefix(d, 3, "Sales", "Region", "North");
  }

  /** `AVG(Sales) GROUP BY Region` gives North (65 + 59 + 80) / 3, which is 68. */
  lemma NorthAverage()
    ensures "North" in GroupAverages(SampleRows(), "Sales", "Region")
    ensures GroupAverages(SampleRows(), "Sales", "Region")["North"] == Div(204, 3)
    ensures 204 / 3 == 68
  {
    var d := SampleRows();
    RegionCounts();
    GroupCountsAt(d, "Region", "North");
    GroupTalliesAt(d, "Sales", "Region", "North");
    NorthSales();
    SampleRegions(3, 12);
    SumSkip(d, 3, 12, "Sales", "Region", "North");
    assert d[..12] == d;
  }

  /** How many of the figures exceed the bound. */
  function Above(xs: seq<int>, b: int): (n: nat)
    ensures n <= |xs|
  {
    if xs == [] then 0
    else Above(xs[..|xs| - 1], b) + (if xs[|xs| - 1] > b then 1 else 0)
  }

  lemma KeepPrefix(d: seq<Row>, n: nat, cs: seq<Clause>)
    requires 0 < n <= |d|
    ensures |Keep(d[..n], cs)| == |Keep(d[..n - 1], cs)| + (if SatisfiesAll(d[n - 1], cs) then 1 else 0)
  {
    assert d[..n][..n - 1] == d[..n - 1];
  }

  /** When a row passes exactly when its figure exceeds the bound, the rows kept
    * number the figures above it. */
  lemma {:induction false} KeepCount(d: seq<Row>, cs: seq<Clause>, xs: seq<int>, b: int, n: nat)
    requires n <= |d| && n <= |xs|
    requires forall i :: 0 <= i < n ==> (SatisfiesAll(d[i], cs) <==> xs[i] > b)
    ensures |Keep(d[..n], cs)| == Above(xs[..n], b)
  {
    if n == 0 {
      assert d[..n] == [] && xs[..n] == [];
    } else {
      KeepPrefix(d, n, cs);
      KeepCount(d, cs, xs, b, n - 1);
      assert xs[..n][..n - 1] == xs[..n - 1];
    }
  }

  /** The clauses of `Sales > 60 ORDER BY Sales DESC`. */
  function OverSixty(): seq<Clause> {
    [Gt("Sales", 60), OrderBy("Sales", true)]
  }

  /** A sample month passes `Sales > 60` exactly when its Sales figure is over 60. */
  lemma OverSixtyHolds()
    ensures forall i :: 0 <= i < 12 ==> (SatisfiesAll(SampleRows()[i], OverSixty()) <==> SalesFigures()[i] > 60)
  {
    SampleSales(0, 12);
    forall i | 0 <= i < 12
      ensures SatisfiesAll(SampleRows()[i], OverSixty()) <==> SalesFigures()[i] > 60
    {
      var r, cs := SampleRows()[i], OverSixty();
      assert JsNumber(Lookup(r, "Sales")) == Some(SalesFigures()[i]);
      assert Holds(cs[0], r) <==> SalesFigures()[i] > 60;
      assert Holds(cs[1], r);
      assert SatisfiesAll(r, cs) <==> Holds(cs[0], r) && Holds(cs[1], r);
    }
  }

  /** Six of the Sales figures exceed 60: 65, 80, 81, 70, 63 and 85. */
  lemma AbovePrefix(xs: seq<int>, b: int, n: nat)
    requires 0 < n <= |xs|
    ensures Above(xs[..n], b) == Above(xs[..n - 1], b) + (if xs[n - 1] > b then 1 else 0)
  {
    assert xs[..n][..n - 1] == xs[..n - 1];
  }

  lemma SixAbove()
    ensures Above(SalesFigures(), 60) == 6
  {
    var xs := SalesFigures();
    assert xs[..0] == [];
    AbovePrefix(xs, 60, 1);
    AbovePrefix(xs, 60, 2);
    AbovePrefix(xs, 60, 3);
    AbovePrefix(xs, 60, 4);
    AbovePrefix(xs, 60, 5);
    AbovePrefix(xs, 60, 6);
    AbovePrefix(xs, 60, 7);
    AbovePrefix(xs, 60, 8);
    AbovePrefix(xs, 60, 9);
    AbovePrefix(xs, 60, 10);
    AbovePrefix(xs, 60, 11);
    AbovePrefix(xs, 60, 12);
    assert xs[..12] == xs;
  }

  /** Six months pass `Sales > 60`: January, March, April, August, October and December. */
  lemma KeptOverSixty()
    ensures |Keep(SampleRows(), OverSixty())| == 6
  {
    var d := SampleRows();
    OverSixtyHolds();
    KeepCount(d, OverSixty(), SalesFigures(), 60, 12);
    SixAbove();
    assert d[..12] == d && SalesFigures()[..12] == SalesFigures();
  }

  /** `Sales > 60 ORDER BY Sales DESC` on the sample returns six rows. */
  lemma SalesOverSixtyCount()
    ensures FilterOutcome(SampleRows(), OverSixty()).count == 6
  {
    var d, cs := SampleRows(), OverSixty();
    assert FirstOrderBy(cs) == Some(OrderBy("Sales", true));
    KeptOverSixty();
    OrderedFilter(d, cs);
    assert |FilterRows(d, cs)| == |multiset(FilterRows(d, cs))|;
  }

  /** Every row it returns has Sales over 60. */
  lemma SalesOverSixtyRows(r: Row)
    requires r in FilterRows(SampleRows(), OverSixty())
    ensures JsNumber(Lookup(r, "Sales")).Some? && JsNumber(Lookup(r, "Sales")).value > 60
  {
    FilteredRowsSatisfy(SampleRows(), OverSixty(), r);
    assert Holds(OverSixty()[0], r);
  }

  /** And they come sorted by Sales from highest to lowest. */
  lemma SalesOverSixtySorted()
    ensures Sorted(FilterRows(SampleRows(), OverSixty()), Comparator("Sales", true))
  {
    var d, cs := SampleRows(), OverSixty();
    assert FirstOrderBy(cs) == Some(OrderBy("Sales", true));
    SampleSales(0, 12);
    forall r | r in Keep(d, cs) ensures Lookup(r, "Sales").Num? {
      KeepMeaning(d, cs, r);
    }
    OrderedFilter(d, cs);
  }
}
