/**
  * Chart data shaping: rows of a dataset turned into the series a chart
  * library draws. Pie slices are per-x sums of y; scatter points are one per
  * row; grouped bar and line charts pivot the rows into one record per x value
  * with one cell per group; ungrouped bar and line charts map each row to a
  * `{name, [yAxis]}` record.
  */
module Charts {
  import opened Wrappers
  import opened Strings
  import opened JsValues
  import opened Aggregates

  datatype ChartType = Bar | Line | Pie | Scatter

  /** The chart settings the shaping reads; an empty `groupBy` stands for an unset one. */
  datatype ChartConfig = ChartConfig(kind: ChartType, xAxis: string, yAxis: string, groupBy: string)

  /** A pie slice `{name, value}`. */
  datatype Slice = Slice(name: string, value: int)

  /** A scatter point `{x, y, name}`, with `category` when the row has a group. */
  datatype Point = Point(x: int, y: int, name: string, category: Option<string>)

  /** The array handed to the chart: slices, points, or plain records. */
  datatype Series = Slices(slices: seq<Slice>) | Points(points: seq<Point>) | Records(records: seq<Row>)

  function Length(s: Series): nat {
    match s
    case Slices(xs) => |xs|
    case Points(xs) => |xs|
    case Records(xs) => |xs|
  }

  // ---------------------------------------------------------------------------
  // Pie charts.

  /** One slice per key, in key order, holding the key's sum. */
  function SlicesOf(keys: seq<string>, sums: map<string, int>): (slices: seq<Slice>)
    requires forall k :: k in keys ==> k in sums
    ensures |slices| == |keys|
  {
    if keys == [] then []
    else
      var k := keys[|keys| - 1];
      SlicesOf(keys[..|keys| - 1], sums) + [Slice(k, sums[k])]
  }

  lemma {:induction false} SlicesOfAt(keys: seq<string>, sums: map<string, int>)
    requires forall k :: k in keys ==> k in sums
    ensures forall i :: 0 <= i < |keys| ==> SlicesOf(keys, sums)[i] == Slice(keys[i], sums[keys[i]])
  {
    if keys != [] {
      SlicesOfAt(keys[..|keys| - 1], sums);
    }
  }

  /** The slices: one per distinct `String(row[xAxis])`, in order of first
    * appearance, holding that bucket's sum of `Number(row[yAxis]) || 0`. */
  function PieOf(data: seq<Row>, x: string, y: string): (slices: seq<Slice>)
    ensures |slices| == |GroupKeys(data, x)|
  {
    GroupSumsTotal(data, y, x);
    SlicesOf(GroupKeys(data, x), GroupSums(data, y, x))
  }

  /** The pie branch: a dictionary filled row by row, then read out in key order. */
  method PieSlices(data: seq<Row>, x: string, y: string) returns (slices: seq<Slice>)
    ensures slices == PieOf(data, x, y)
  {
    var keys, acc := Bucket(data, x, y);
    GroupSumsTotal(data, y, x);
    slices := [];
    for i := 0 to |keys|
      invariant slices == SlicesOf(keys[..i], acc)
    {
      assert keys[..i + 1][..i] == keys[..i];
      slices := slices + [Slice(keys[i], acc[keys[i]])];
    }
    assert keys[..|keys|] == keys;
  }

  /** The `reduce` of the pie branch: `acc[key]` starts at 0 on a new key and
    * grows by each row's y; `keys` is the dictionary's insertion order. */
  method Bucket(data: seq<Row>, x: string, y: string) returns (keys: seq<string>, acc: map<string, int>)
    ensures keys == GroupKeys(data, x) && acc == GroupSums(data, y, x)
  {
    acc := map[];
    keys := [];
    for i := 0 to |data|
      invariant keys == GroupKeys(data[..i], x)
      invariant acc == GroupSums(data[..i], y, x)
      invariant forall k :: k in acc <==> k in keys
    {
      assert data[..i + 1][..i] == data[..i];
      assert data[..i + 1][i] == data[i];
      var key := KeyOf(data[i], x);
      if key !in acc {
        acc := acc[key := 0];
        keys := keys + [key];
      }
      acc := acc[key := acc[key] + ValueOf(data[i], y)];
    }
    assert data[..|data|] == data;
  }

  /** Every slice names a bucket that occurs, every bucket has a slice, and no
    * two slices share a name. */
  lemma PieNames(data: seq<Row>, x: string, y: string)
    ensures forall i :: 0 <= i < |PieOf(data, x, y)| ==> PieOf(data, x, y)[i].name in KeySet(data, x)
    ensures forall k :: k in KeySet(data, x) ==> exists i :: 0 <= i < |PieOf(data, x, y)| && PieOf(data, x, y)[i].name == k
    ensures forall i, j :: 0 <= i < j < |PieOf(data, x, y)| ==> PieOf(data, x, y)[i].name != PieOf(data, x, y)[j].name
  {
    var keys := GroupKeys(data, x);
    GroupKeysMeaning(data, x);
    GroupKeysDistinct(data, x);
    GroupSumsTotal(data, y, x);
    SlicesOfAt(keys, GroupSums(data, y, x));
    forall k | k in KeySet(data, x)
      ensures exists i :: 0 <= i < |PieOf(data, x, y)| && PieOf(data, x, y)[i].name == k
    {
      var i :| 0 <= i < |keys| && keys[i] == k;
      assert PieOf(data, x, y)[i].name == k;
    }
  }

  /** Each slice's value is the y-sum over the rows of its bucket. */
  lemma PieValues(data: seq<Row>, x: string, y: string)
    ensures forall i :: 0 <= i < |PieOf(data, x, y)| ==>
      PieOf(data, x, y)[i].value == Sum(Members(data, x, PieOf(data, x, y)[i].name), y)
  {
    GroupSumsMeaning(data, y, x);
    GroupSumsTotal(data, y, x);
    SlicesOfAt(GroupKeys(data, x), GroupSums(data, y, x));
  }

  function SliceTotal(slices: seq<Slice>): int {
    if slices == [] then 0 else SliceTotal(slices[..|slices| - 1]) + slices[|slices| - 1].value
  }

  lemma {:induction false} SliceTotalOf(keys: seq<string>, sums: map<string, int>)
    requires forall k :: k in keys ==> k in sums
    ensures SliceTotal(SlicesOf(keys, sums)) == SumOver(keys, sums)
  {
    if keys != [] {
      SliceTotalOf(keys[..|keys| - 1], sums);
    }
  }

  /** Conservation: the slice values add up to the column's sum. */
  lemma PieTotal(data: seq<Row>, x: string, y: string)
    ensures SliceTotal(PieOf(data, x, y)) == Sum(data, y)
  {
    GroupSumsTotal(data, y, x);
    SliceTotalOf(GroupKeys(data, x), GroupSums(data, y, x));
  }

  // ---------------------------------------------------------------------------
  // Scatter charts.

  /** The scatter branch: one point per row, in row order. */
  function ScatterPoints(data: seq<Row>, x: string, y: string, g: string): (points: seq<Point>)
    ensures |points| == |data|
    ensures forall i :: 0 <= i < |data| ==>
      && points[i].x == Coerce(Lookup(data[i], x)) && points[i].y == Coerce(Lookup(data[i], y))
      && points[i].name == ToStr(Lookup(data[i], x))
    ensures forall i :: 0 <= i < |data| ==>
      (points[i].category.Some? <==> g != "" && g in data[i].cells && data[i].cells[g] != Missing)
    ensures forall i :: 0 <= i < |data| && points[i].category.Some? ==>
      points[i].category.value == ToStr(data[i].cells[g])
  {
    seq(|data|, i requires 0 <= i < |data| =>
      Point(ValueOf(data[i], x), ValueOf(data[i], y), KeyOf(data[i], x),
            if g != "" && Lookup(data[i], g) != Missing then Some(KeyOf(data[i], g)) else None))
  }

  // ---------------------------------------------------------------------------
  // Grouped bar and line charts.

  /** The y-sum over the rows whose x is `xv` and whose group is `k`. Rows whose
    * group is the empty string are not added: the source's guard on the group
    * name refuses them. */
  function Cell(rows: seq<Row>, x: string, y: string, g: string, xv: string, k: string): int {
    if rows == [] then 0
    else
      var last := rows[|rows| - 1];
      Cell(rows[..|rows| - 1], x, y, g, xv, k)
        + (if KeyOf(last, x) == xv && KeyOf(last, g) == k && k != "" then ValueOf(last, y) else 0)
  }

  /** `{name: xv, ...cells}`: the record of one x value, the cells of the
    * groups `gs` spread after the name in group order. */
  function Spread(xv: string, gs: seq<string>, cells: map<string, int>): Row
    requires forall k :: k in gs ==> k in cells
  {
    if gs == [] then Row(["name"], map["name" := Str(xv)])
    else
      var k := gs[|gs| - 1];
      Assign(Spread(xv, gs[..|gs| - 1], cells), k, Num(cells[k]))
  }

  /** The cells of x value `xv`: one per group of `gs`. */
  function CellsOf(rows: seq<Row>, x: string, y: string, g: string, xv: string, gs: seq<string>): (cells: map<string, int>)
    ensures forall k :: k in cells <==> k in gs
  {
    map k | k in gs :: Cell(rows, x, y, g, xv, k)
  }

  /** The pivot: one record per distinct x, each over every distinct group. */
  function Pivot(data: seq<Row>, x: string, y: string, g: string): (records: seq<Row>)
    ensures |records| == |GroupKeys(data, x)|
  {
    var xs, gs := GroupKeys(data, x), GroupKeys(data, g);
    seq(|xs|, i requires 0 <= i < |xs| => Spread(xs[i], gs, CellsOf(data, x, y, g, xs[i], gs)))
  }

  /** `Array.from(new Set(data.map(row => row[c])))`, each value then read
    * through `String`: the distinct keys in order of first appearance. Two raw
    * values with the same string (`5` and `"5"`) land on one dictionary entry. */
  method DistinctKeys(data: seq<Row>, c: string) returns (keys: seq<string>)
    ensures keys == GroupKeys(data, c)
  {
    keys := [];
    for i := 0 to |data|
      invariant keys == GroupKeys(data[..i], c)
    {
      assert data[..i + 1][..i] == data[..i];
      assert data[..i + 1][i] == data[i];
      var key := KeyOf(data[i], c);
      if key !in keys {
        keys := keys + [key];
      }
    }
    assert data[..|data|] == data;
  }

  /** A dictionary from every key of `gs` to 0. */
  method ZeroCells(gs: seq<string>) returns (cells: map<string, int>)
    ensures forall k :: k in cells <==> k in gs
    ensures forall k :: k in cells ==> cells[k] == 0
  {
    cells := map[];
    for j := 0 to |gs|
      invariant forall k :: k in cells <==> k in gs[..j]
      invariant forall k :: k in cells ==> cells[k] == 0
    {
      assert gs[..j + 1] == gs[..j] + [gs[j]];
      cells := cells[gs[j] := 0];
    }
    assert gs[..|gs|] == gs;
  }

  /** A table holds exactly one entry per x value in `xs`, each with exactly
    * one cell per group in `gs`. */
  ghost predicate Shaped(table: map<string, map<string, int>>, xs: seq<string>, gs: seq<string>) {
    && (forall v :: v in table <==> v in xs)
    && (forall v, k :: v in table ==> (k in table[v] <==> k in gs))
  }

  /** Every cell of the table is the cell `rows` give it. */
  ghost predicate Tallied(table: map<string, map<string, int>>, rows: seq<Row>, x: string, y: string, g: string) {
    forall v, k :: v in table && k in table[v] ==> table[v][k] == Cell(rows, x, y, g, v, k)
  }

  /** The table with a zero cell for every x and every group. */
  method ZeroTable(xs: seq<string>, gs: seq<string>) returns (table: map<string, map<string, int>>)
    ensures Shaped(table, xs, gs)
    ensures forall v, k :: v in table && k in table[v] ==> table[v][k] == 0
  {
    table := map[];
    for i := 0 to |xs|
      invariant Shaped(table, xs[..i], gs)
      invariant forall v, k :: v in table && k in table[v] ==> table[v][k] == 0
    {
      assert xs[..i + 1] == xs[..i] + [xs[i]];
      var cells := ZeroCells(gs);
      table := table[xs[i] := cells];
    }
    assert xs[..|xs|] == xs;
  }

  lemma CellStep(data: seq<Row>, i: nat, x: string, y: string, g: string, xv: string, k: string)
    requires i < |data|
    ensures Cell(data[..i + 1], x, y, g, xv, k) == Cell(data[..i], x, y, g, xv, k)
      + (if KeyOf(data[i], x) == xv && KeyOf(data[i], g) == k && k != "" then ValueOf(data[i], y) else 0)
  {
    assert data[..i + 1][..i] == data[..i];
    assert data[..i + 1][i] == data[i];
  }

  lemma {:induction false} CellsOfNothing(x: string, y: string, g: string, table: map<string, map<string, int>>)
    requires forall v, k :: v in table && k in table[v] ==> table[v][k] == 0
    ensures Tallied(table, [], x, y, g)
  {
  }

  /** One step of the fill loop keeps the table's shape and adds row `i`. */
  lemma FillStep(data: seq<Row>, i: nat, x: string, y: string, g: string,
                 table: map<string, map<string, int>>, next: map<string, map<string, int>>)
    requires i < |data|
    requires Shaped(table, GroupKeys(data, x), GroupKeys(data, g)) && Tallied(table, data[..i], x, y, g)
    requires var xv, group := KeyOf(data[i], x), KeyOf(data[i], g);
      next == if xv in table && group != "" && group in table[xv]
              then table[xv := table[xv][group := table[xv][group] + ValueOf(data[i], y)]]
              else table
    ensures Shaped(next, GroupKeys(data, x), GroupKeys(data, g)) && Tallied(next, data[..i + 1], x, y, g)
  {
    var xv, group := KeyOf(data[i], x), KeyOf(data[i], g);
    InTable(data, i, x, g, table);
    forall v, k | v in next && k in next[v]
      ensures next[v][k] == Cell(data[..i + 1], x, y, g, v, k)
    {
      CellStep(data, i, x, y, g, v, k);
      if !(v == xv && k == group && k != "") {
        assert next[v][k] == table[v][k];
      }
    }
  }

  /** Every row's x and group have their cell in a shaped table. */
  lemma InTable(data: seq<Row>, i: nat, x: string, g: string, table: map<string, map<string, int>>)
    requires i < |data|
    requires Shaped(table, GroupKeys(data, x), GroupKeys(data, g))
    ensures KeyOf(data[i], x) in table && KeyOf(data[i], g) in table[KeyOf(data[i], x)]
  {
    GroupKeysMeaning(data, x);
    GroupKeysMeaning(data, g);
    assert data[i] in data;
    assert KeyOf(data[i], x) in KeySet(data, x) && KeyOf(data[i], g) in KeySet(data, g);
  }

  /** The fill loop: each row adds its y to the cell of its x and its group. */
  method FillTable(data: seq<Row>, x: string, y: string, g: string, table0: map<string, map<string, int>>)
    returns (table: map<string, map<string, int>>)
    requires Shaped(table0, GroupKeys(data, x), GroupKeys(data, g))
    requires forall v, k :: v in table0 && k in table0[v] ==> table0[v][k] == 0
    ensures Shaped(table, GroupKeys(data, x), GroupKeys(data, g)) && Tallied(table, data, x, y, g)
  {
    table := table0;
    CellsOfNothing(x, y, g, table);
    for i := 0 to |data|
      invariant Shaped(table, GroupKeys(data, x), GroupKeys(data, g)) && Tallied(table, data[..i], x, y, g)
    {
      var xv := KeyOf(data[i], x);
      var group := KeyOf(data[i], g);
      var value := ValueOf(data[i], y);
      ghost var before := table;
      InTable(data, i, x, g, table);
      if xv in table && group != "" {
        table := table[xv := table[xv][group := table[xv][group] + value]];
      }
      FillStep(data, i, x, y, g, before, table);
    }
    assert data[..|data|] == data;
  }

  /** A filled table holds, for every x, exactly the cells of the pivot. */
  lemma TableCells(data: seq<Row>, x: string, y: string, g: string, table: map<string, map<string, int>>, v: string)
    requires Shaped(table, GroupKeys(data, x), GroupKeys(data, g)) && Tallied(table, data, x, y, g)
    requires v in table
    ensures table[v] == CellsOf(data, x, y, g, v, GroupKeys(data, g))
  {
  }

  /** The grouped branch: zero-initialised table, filled row by row, then each
    * x's cells spread into a `{name, ...cells}` record, in key order. */
  method GroupedSeries(data: seq<Row>, x: string, y: string, g: string) returns (records: seq<Row>)
    ensures records == Pivot(data, x, y, g)
  {
    var xs := DistinctKeys(data, x);
    var gs := DistinctKeys(data, g);
    var table := ZeroTable(xs, gs);
    table := FillTable(data, x, y, g, table);
    forall i | 0 <= i < |xs|
      ensures xs[i] in table && table[xs[i]] == CellsOf(data, x, y, g, xs[i], gs)
    {
      assert xs[i] in xs;
      TableCells(data, x, y, g, table, xs[i]);
    }
    records := seq(|xs|, i requires 0 <= i < |xs| => Spread(xs[i], gs, table[xs[i]]));
  }

  /** A record holds its x value under `name`, unless a group is itself called
    * `name`, and every group's cell, the later keys overriding the earlier. */
  lemma {:induction false} RecordCells(xv: string, gs: seq<string>, cells: map<string, int>)
    requires forall k :: k in gs ==> k in cells
    ensures var r := Spread(xv, gs, cells);
      && WellFormed(r) && |r.columns| > 0 && r.columns[0] == "name"
      && (forall k :: k in r.cells <==> k == "name" || k in gs)
      && (forall k :: k in gs ==> r.cells[k] == Num(cells[k]))
      && ("name" !in gs ==> r.cells["name"] == Str(xv))
  {
    if gs != [] {
      var front := gs[..|gs| - 1];
      RecordCells(xv, front, cells);
      assert forall k :: k in gs <==> k in front || k == gs[|gs| - 1];
    }
  }

  /** One record per distinct x, named by it, carrying a cell for every group. */
  lemma PivotShape(data: seq<Row>, x: string, y: string, g: string)
    ensures forall i :: 0 <= i < |Pivot(data, x, y, g)| ==>
      && WellFormed(Pivot(data, x, y, g)[i])
      && (forall k :: k in GroupKeys(data, g) ==> k in Pivot(data, x, y, g)[i].cells)
      && ("name" !in GroupKeys(data, g) ==> Lookup(Pivot(data, x, y, g)[i], "name") == Str(GroupKeys(data, x)[i]))
    ensures forall v :: v in KeySet(data, x) <==> v in GroupKeys(data, x)
  {
    GroupKeysMeaning(data, x);
    forall i | 0 <= i < |Pivot(data, x, y, g)|
      ensures && WellFormed(Pivot(data, x, y, g)[i])
              && (forall k :: k in GroupKeys(data, g) ==> k in Pivot(data, x, y, g)[i].cells)
              && ("name" !in GroupKeys(data, g) ==> Lookup(Pivot(data, x, y, g)[i], "name") == Str(GroupKeys(data, x)[i]))
    {
      var xv := GroupKeys(data, x)[i];
      RecordCells(xv, GroupKeys(data, g), CellsOf(data, x, y, g, xv, GroupKeys(data, g)));
    }
  }

  /** Every cell is the y-sum over the rows with that x and that group, and the
    * cell of the empty group stays 0. */
  lemma PivotCells(data: seq<Row>, x: string, y: string, g: string, i: nat, k: string)
    requires i < |Pivot(data, x, y, g)| && k in GroupKeys(data, g)
    ensures Lookup(Pivot(data, x, y, g)[i], k) == Num(Cell(data, x, y, g, GroupKeys(data, x)[i], k))
    ensures k == "" ==> Lookup(Pivot(data, x, y, g)[i], k) == Num(0)
  {
    var xv := GroupKeys(data, x)[i];
    RecordCells(xv, GroupKeys(data, g), CellsOf(data, x, y, g, xv, GroupKeys(data, g)));
    EmptyGroupCell(data, x, y, g, xv);
  }

  lemma {:induction false} EmptyGroupCell(rows: seq<Row>, x: string, y: string, g: string, xv: string)
    ensures Cell(rows, x, y, g, xv, "") == 0
  {
    if rows != [] {
      EmptyGroupCell(rows[..|rows| - 1], x, y, g, xv);
    }
  }

  /** The cells of group `k`, added up over the x values `xs`. */
  function CellTotal(rows: seq<Row>, x: string, y: string, g: string, xs: seq<string>, k: string): int {
    if xs == [] then 0 else CellTotal(rows, x, y, g, xs[..|xs| - 1], k) + Cell(rows, x, y, g, xs[|xs| - 1], k)
  }

  /** No row has x value `xv`: its cells are 0. */
  lemma {:induction false} CellAbsent(rows: seq<Row>, x: string, y: string, g: string, xv: string, k: string)
    requires xv !in KeySet(rows, x)
    ensures Cell(rows, x, y, g, xv, k) == 0
  {
    if rows != [] {
      var front := rows[..|rows| - 1];
      KeySetSnoc(front, rows[|rows| - 1], x);
      assert rows == front + [rows[|rows| - 1]];
      CellAbsent(front, x, y, g, xv, k);
    }
  }

  /** One more row adds its contribution to the total exactly once, at its own x. */
  lemma {:induction false} CellTotalStep(rows: seq<Row>, x: string, y: string, g: string, xs: seq<string>, k: string)
    requires rows != []
    requires forall i, j :: 0 <= i < j < |xs| ==> xs[i] != xs[j]
    ensures var front, last := rows[..|rows| - 1], rows[|rows| - 1];
      CellTotal(rows, x, y, g, xs, k) == CellTotal(front, x, y, g, xs, k)
        + (if KeyOf(last, x) in xs && KeyOf(last, g) == k && k != "" then ValueOf(last, y) else 0)
  {
    if xs != [] {
      var n := |xs| - 1;
      CellTotalStep(rows, x, y, g, xs[..n], k);
      assert xs[n] !in xs[..n];
      assert forall v :: v in xs <==> v in xs[..n] || v == xs[n];
    }
  }

  /** Conservation: the cells of a named group, over all x values, add up to
    * the y-sum of that group's rows. */
  lemma {:induction false} GroupColumnTotal(rows: seq<Row>, x: string, y: string, g: string, k: string)
    requires k != ""
    ensures CellTotal(rows, x, y, g, GroupKeys(rows, x), k) == GroupSum(rows, y, g, k)
  {
    if rows != [] {
      var front, last := rows[..|rows| - 1], rows[|rows| - 1];
      var ks := GroupKeys(front, x);
      GroupColumnTotal(front, x, y, g, k);
      GroupKeysDistinct(rows, x);
      GroupKeysDistinct(front, x);
      GroupKeysMeaning(front, x);
      CellTotalStep(rows, x, y, g, GroupKeys(rows, x), k);
      if KeyOf(last, x) !in ks {
        CellAbsent(front, x, y, g, KeyOf(last, x), k);
        assert (ks + [KeyOf(last, x)])[..|ks|] == ks;
      }
    }
  }

  // ---------------------------------------------------------------------------
  // Ungrouped bar and line charts.

  /** The ungrouped branch: `{name: String(row[xAxis]), [yAxis]: Number(row[yAxis]) || 0}`
    * per row; a y column called `name` overwrites the name. */
  function PlainRecords(data: seq<Row>, x: string, y: string): (records: seq<Row>)
    ensures |records| == |data|
    ensures forall i :: 0 <= i < |data| ==>
      && WellFormed(records[i])
      && records[i].columns == (if y == "name" then ["name"] else ["name", y])
      && Lookup(records[i], y) == Num(Coerce(Lookup(data[i], y)))
      && (y != "name" ==> Lookup(records[i], "name") == Str(ToStr(Lookup(data[i], x))))
  {
    seq(|data|, i requires 0 <= i < |data| =>
      Assign(Row(["name"], map["name" := Str(KeyOf(data[i], x))]), y, Num(ValueOf(data[i], y))))
  }

  // ---------------------------------------------------------------------------
  // processChartData.

  /** What `processChartData` returns; its empty list is `Records([])`. */
  function ChartSpec(data: seq<Row>, config: ChartConfig): (s: Series)
    ensures Length(s) == 0 <==> |data| == 0 || config.xAxis == "" || config.yAxis == ""
  {
    var x, y, g := config.xAxis, config.yAxis, config.groupBy;
    if |data| == 0 || x == "" || y == "" then Records([])
    else
      GroupKeysNonEmpty(data, x);
      if config.kind == Pie then Slices(PieOf(data, x, y))
      else if config.kind == Scatter then Points(ScatterPoints(data, x, y, g))
      else if g != "" then Records(Pivot(data, x, y, g))
      else Records(PlainRecords(data, x, y))
  }

  lemma GroupKeysNonEmpty(data: seq<Row>, x: string)
    requires data != []
    ensures |GroupKeys(data, x)| > 0
  {
    var front := data[..|data| - 1];
    if KeyOf(data[|data| - 1], x) in GroupKeys(front, x) {
      assert |GroupKeys(front, x)| > 0;
    }
  }

  /** `processChartData`. */
  method ProcessChartData(data: seq<Row>, config: ChartConfig) returns (s: Series)
    ensures s == ChartSpec(data, config)
  {
    var x, y, g := config.xAxis, config.yAxis, config.groupBy;
    if |data| == 0 || x == "" || y == "" {
      return Records([]);
    }
    if config.kind == Pie {
      var slices := PieSlices(data, x, y);
      return Slices(slices);
    }
    if config.kind == Scatter {
      return Points(ScatterPoints(data, x, y, g));
    }
    if g != "" {
      var records := GroupedSeries(data, x, y, g);
      return Records(records);
    }
    return Records(PlainRecords(data, x, y));
  }
}
