/**
  * `parseCSV`'s loops over the lines of the file's text and over the fields
  * of each line, proved to compute `CsvText.CsvRows`.
  */
module DataUtils {
  import opened Wrappers
  import opened Strings
  import opened JsValues
  import opened CsvText

  /** `parseCSV` once the text is read: cut it into lines, take the column names from the first. */
  method ParseCsv(text: string) returns (rows: seq<Row>)
    ensures rows == CsvRows(text)
  {
    var lines := Split(text, '\n');
    var headers := Headers(lines[0]);
    rows := ReadLines(headers, lines);
  }

  /** The loop of `parseCSV` over the lines after the first. */
  method ReadLines(headers: seq<string>, lines: seq<string>) returns (rows: seq<Row>)
    requires |lines| >= 1
    ensures rows == DataRows(headers, lines[1..])
  {
    rows := [];
    var i := 1;
    while i < |lines|
      invariant 1 <= i <= |lines|
      invariant rows == DataRows(headers, lines[1..i])
    {
      NextLine(headers, lines, i);
      var o := ReadLine(headers, lines[i]);
      if o.Some? {
        rows := rows + [o.value];
      }
      i := i + 1;
    }
    assert lines[1..i] == lines[1..];
  }

  /** One pass of that loop: a blank line or one of the wrong width is skipped (`continue`). */
  method ReadLine(headers: seq<string>, raw: string) returns (o: Option<Row>)
    ensures o == LineRow(headers, raw)
  {
    var line := Trim(raw);
    if line == [] {
      return None;
    }
    var values := Split(line, ',');
    if |values| != |headers| {
      return None;
    }
    var rowData := ReadRecord(headers, values);
    return Some(rowData);
  }

  /** The inner loop of `parseCSV`: one record from the fields of a line of the right width. */
  method ReadRecord(headers: seq<string>, values: seq<string>) returns (rowData: Row)
    requires |values| == |headers|
    ensures rowData == Record(headers, Cells(values), |headers|)
  {
    rowData := Row([], map[]);
    var j := 0;
    while j < |headers|
      invariant 0 <= j <= |headers|
      invariant rowData == Record(headers, Cells(values), j)
    {
      var value := Trim(values[j]);
      RecordStep(headers, values, j);
      rowData := Assign(rowData, headers[j], CellOf(value));
      j := j + 1;
    }
  }
}
