/**
  * What `parseCSV` makes of a file's text, once the text is in hand: the
  * first line names the columns, every later line that is neither blank nor
  * of the wrong width becomes one record, and a field that reads as a number
  * is stored as one. The loops that compute it are in module DataUtils.
  */
module CsvText {
  import opened Wrappers
  import opened Strings
  import opened JsValues

  /** The column names: the first line cut at commas, each piece trimmed. */
  function Headers(line: string): (hs: seq<string>)
    ensures |hs| == |Split(line, ',')| >= 1
    ensures forall j :: 0 <= j < |hs| ==> hs[j] == Trim(Split(line, ',')[j])
  {
    var pieces := Split(line, ',');
    seq(|pieces|, j requires 0 <= j < |pieces| => Trim(pieces[j]))
  }

  /** A trimmed field: a number when it is non-empty and `Number` accepts it, else the text itself. */
  function CellOf(t: string): (v: Value)
    ensures v.Num? <==> t != [] && ParseNumber(t).Some?
    ensures v.Num? ==> v.n == ParseNumber(t).value
    ensures v.Str? ==> v.s == t
    ensures !v.Missing?
  {
    if t != [] && ParseNumber(t).Some? then Num(ParseNumber(t).value) else Str(t)
  }

  /** The values of the fields of a line, each trimmed and read by `CellOf`. */
  function Cells(values: seq<string>): (cs: seq<Value>)
    ensures |cs| == |values|
  {
    if values == [] then [] else [CellOf(Trim(values[0]))] + Cells(values[1..])
  }

  /** Cell j is field j, trimmed and read. */
  lemma {:induction false} CellsAt(values: seq<string>, j: nat)
    requires j < |values|
    ensures Cells(values)[j] == CellOf(Trim(values[j]))
  {
    if j > 0 {
      CellsAt(values[1..], j - 1);
    }
  }

  /** The record built from the first `n` cells: `rowData[headers[j]] = cells[j]` for j < n. */
  function Record(headers: seq<string>, cells: seq<Value>, n: nat): Row
    requires n <= |headers| && n <= |cells|
  {
    if n == 0 then Row([], map[])
    else Assign(Record(headers, cells, n - 1), headers[n - 1], cells[n - 1])
  }

  /** What one data line contributes: nothing when it is blank or has the wrong number of fields. */
  function LineRow(headers: seq<string>, line: string): Option<Row> {
    var t := Trim(line);
    if t == [] then None
    else
      var values := Split(t, ',');
      if |values| != |headers| then None else Some(Record(headers, Cells(values), |headers|))
  }

  /** The record an entry holds, if any. */
  function Listed(o: Option<Row>): (rs: seq<Row>)
    ensures |rs| <= 1
  {
    match o
    case Some(r) => [r]
    case None => []
  }

  /** The records among `os`, in order. */
  function Present(os: seq<Option<Row>>): seq<Row> {
    if os == [] then []
    else Present(os[..|os| - 1]) + Listed(os[|os| - 1])
  }

  /** What each of the data lines `ls` contributes, in line order. */
  function Outcomes(headers: seq<string>, ls: seq<string>): (os: seq<Option<Row>>)
    ensures |os| == |ls|
  {
    if ls == [] then [] else Outcomes(headers, ls[..|ls| - 1]) + [LineRow(headers, ls[|ls| - 1])]
  }

  /** The records of the data lines `ls`, in line order. */
  function DataRows(headers: seq<string>, ls: seq<string>): seq<Row> {
    Present(Outcomes(headers, ls))
  }

  /** The records `parseCSV` resolves with, for the file text `text`. */
  function CsvRows(text: string): seq<Row> {
    var lines := Split(text, '\n');
    DataRows(Headers(lines[0]), lines[1..])
  }

  lemma PresentSnoc(os: seq<Option<Row>>, o: Option<Row>)
    ensures Present(os + [o]) == Present(os) + Listed(o)
  {
    assert (os + [o])[..|os|] == os;
  }

  /** One more field, one more assignment. */
  lemma RecordStep(headers: seq<string>, values: seq<string>, j: nat)
    requires j < |values| == |headers|
    ensures Record(headers, Cells(values), j + 1)
      == Assign(Record(headers, Cells(values), j), headers[j], CellOf(Trim(values[j])))
  {
    CellsAt(values, j);
  }

  /** Reading one more line appends what that line yields. */
  lemma DataRowsSnoc(headers: seq<string>, ls: seq<string>, line: string)
    ensures DataRows(headers, ls + [line]) == DataRows(headers, ls) + Listed(LineRow(headers, line))
  {
    assert (ls + [line])[..|ls|] == ls;
    PresentSnoc(Outcomes(headers, ls), LineRow(headers, line));
  }

  lemma NextLine(headers: seq<string>, lines: seq<string>, i: nat)
    requires 1 <= i < |lines|
    ensures DataRows(headers, lines[1..i + 1]) == DataRows(headers, lines[1..i]) + Listed(LineRow(headers, lines[i]))
  {
    assert lines[1..i + 1] == lines[1..i] + [lines[i]];
    DataRowsSnoc(headers, lines[1..i], lines[i]);
  }

  /** No entry yields more than one record. */
  lemma {:induction false} PresentBound(os: seq<Option<Row>>)
    ensures |Present(os)| <= |os|
  {
    if os != [] {
      PresentBound(os[..|os| - 1]);
    }
  }

  /** Entries are read one after the other. */
  lemma {:induction false} PresentAppend(a: seq<Option<Row>>, b: seq<Option<Row>>)
    ensures Present(a + b) == Present(a) + Present(b)
  {
    if b == [] {
      assert a + b == a;
    } else {
      var b' := b[..|b| - 1];
      assert a + b == (a + b') + [b[|b| - 1]];
      PresentSnoc(a + b', b[|b| - 1]);
      PresentAppend(a, b');
    }
  }

  /** The header line yields no record: there are fewer records than lines. */
  lemma CsvRowsBound(text: string)
    ensures |CsvRows(text)| <= |Split(text, '\n')| - 1
  {
    var lines := Split(text, '\n');
    PresentBound(Outcomes(Headers(lines[0]), lines[1..]));
  }

  lemma {:induction false} OutcomesAppend(headers: seq<string>, a: seq<string>, b: seq<string>)
    ensures Outcomes(headers, a + b) == Outcomes(headers, a) + Outcomes(headers, b)
  {
    if b == [] {
      assert a + b == a;
    } else {
      assert (a + b)[..|a + b| - 1] == a + b[..|b| - 1];
      assert (a + b)[|a + b| - 1] == b[|b| - 1];
      OutcomesAppend(headers, a, b[..|b| - 1]);
    }
  }

  /** Lines are read one after the other: the records of a concatenation are the concatenated records. */
  lemma DataRowsAppend(headers: seq<string>, a: seq<string>, b: seq<string>)
    ensures DataRows(headers, a + b) == DataRows(headers, a) + DataRows(headers, b)
  {
    OutcomesAppend(headers, a, b);
    PresentAppend(Outcomes(headers, a), Outcomes(headers, b));
  }

  /** A blank line, or one with the wrong number of fields, adds no record wherever it stands. */
  lemma SkippedLine(headers: seq<string>, a: seq<string>, line: string, b: seq<string>)
    requires Trim(line) == [] || |Split(Trim(line), ',')| != |headers|
    ensures DataRows(headers, a + [line] + b) == DataRows(headers, a + b)
  {
    assert LineRow(headers, line) == None;
    DataRowsSnoc(headers, a, line);
    DataRowsAppend(headers, a + [line], b);
    DataRowsAppend(headers, a, b);
  }

  /** A blank line adds no record. */
  lemma BlankLine(headers: seq<string>, a: seq<string>, line: string, b: seq<string>)
    requires forall k :: 0 <= k < |line| ==> IsSpace(line[k])
    ensures DataRows(headers, a + [line] + b) == DataRows(headers, a + b)
  {
    TrimBlank(line);
    SkippedLine(headers, a, line, b);
  }

  lemma TrimBlank(s: string)
    requires forall k :: 0 <= k < |s| ==> IsSpace(s[k])
    ensures Trim(s) == []
  {
    TrimStartSpaces(s);
  }

  /** The record of a line has each header as a key, listed once. */
  lemma {:induction false} RecordKeys(headers: seq<string>, cells: seq<Value>, n: nat)
    requires n <= |headers| && n <= |cells|
    ensures WellFormed(Record(headers, cells, n))
    ensures forall k :: k in Record(headers, cells, n).cells <==> k in headers[..n]
  {
    if n > 0 {
      RecordKeys(headers, cells, n - 1);
      assert headers[..n] == headers[..n - 1] + [headers[n - 1]];
    }
  }

  /** The key of field j holds field j's value unless a later field has the same header. */
  lemma {:induction false} RecordCell(headers: seq<string>, cells: seq<Value>, n: nat, j: nat)
    requires n <= |headers| && n <= |cells|
    requires j < n && forall l :: j < l < n ==> headers[l] != headers[j]
    ensures headers[j] in Record(headers, cells, n).cells
    ensures Record(headers, cells, n).cells[headers[j]] == cells[j]
  {
    if j < n - 1 {
      RecordCell(headers, cells, n - 1, j);
    }
  }

  /** With distinct headers, the record lists its keys in header order. */
  lemma {:induction false} RecordColumns(headers: seq<string>, cells: seq<Value>, n: nat)
    requires n <= |headers| && n <= |cells|
    requires forall i, j :: 0 <= i < j < n ==> headers[i] != headers[j]
    ensures Record(headers, cells, n).columns == headers[..n]
  {
    if n > 0 {
      RecordColumns(headers, cells, n - 1);
      RecordKeys(headers, cells, n - 1);
      assert headers[n - 1] !in headers[..n - 1];
      assert headers[..n] == headers[..n - 1] + [headers[n - 1]];
    }
  }

  /** A record whose keys are exactly the column names, each listed once. */
  ghost predicate Keyed(r: Row, headers: seq<string>) {
    WellFormed(r) && forall k :: k in r.cells <==> k in headers
  }

  lemma LineRowKeys(headers: seq<string>, line: string)
    requires LineRow(headers, line).Some?
    ensures Keyed(LineRow(headers, line).value, headers)
  {
    var values := Split(Trim(line), ',');
    RecordKeys(headers, Cells(values), |headers|);
    assert headers[..|headers|] == headers;
  }

  /** Every record `parseCSV` yields has the column names as its keys, each once. */
  lemma {:induction false} DataRowsKeys(headers: seq<string>, ls: seq<string>)
    ensures forall r :: r in DataRows(headers, ls) ==> Keyed(r, headers)
  {
    if ls != [] {
      var last := ls[|ls| - 1];
      assert ls == ls[..|ls| - 1] + [last];
      DataRowsKeys(headers, ls[..|ls| - 1]);
      DataRowsSnoc(headers, ls[..|ls| - 1], last);
      if LineRow(headers, last).Some? {
        LineRowKeys(headers, last);
      }
    }
  }

  /** Every record of a file's text has the column names of its first line as keys. */
  lemma CsvRowsKeys(text: string)
    ensures forall r :: r in CsvRows(text) ==> Keyed(r, Headers(Split(text, '\n')[0]))
  {
    var lines := Split(text, '\n');
    DataRowsKeys(Headers(lines[0]), lines[1..]);
  }

  /** A field holding no white space and no comma. */
  predicate PlainField(f: string) {
    forall k :: 0 <= k < |f| ==> !IsSpace(f[k]) && f[k] != ','
  }

  lemma TrimNoSpace(s: string)
    requires forall k :: 0 <= k < |s| ==> !IsSpace(s[k])
    ensures Trim(s) == s
  {
    if s != [] {
      assert !IsSpace(s[0]) && !IsSpace(s[|s| - 1]);
    }
    TrimUnchanged(s);
  }

  /** Joining plain fields with commas puts no white space in the line. */
  lemma {:induction false} JoinPlain(fields: seq<string>)
    requires |fields| >= 1
    requires forall i :: 0 <= i < |fields| ==> PlainField(fields[i])
    ensures forall k :: 0 <= k < |Join(fields, ',')| ==> !IsSpace(Join(fields, ',')[k])
  {
    if |fields| > 1 {
      JoinPlain(fields[1..]);
      var rest := Join(fields[1..], ',');
      assert Join(fields, ',') == fields[0] + [','] + rest;
      forall k | 0 <= k < |Join(fields, ',')|
        ensures !IsSpace(Join(fields, ',')[k])
      {
        if k < |fields[0]| {
          assert Join(fields, ',')[k] == fields[0][k];
        } else if k > |fields[0]| {
          assert Join(fields, ',')[k] == rest[k - |fields[0]| - 1];
        }
      }
    }
  }

  /** The line written from plain fields, cut at commas, gives the fields back. */
  lemma LineOfFields(headers: seq<string>, fields: seq<string>)
    requires |fields| == |headers| >= 1
    requires forall i :: 0 <= i < |fields| ==> PlainField(fields[i])
    requires Join(fields, ',') != []
    ensures LineRow(headers, Join(fields, ',')) == Some(Record(headers, Cells(fields), |headers|))
  {
    JoinPlain(fields);
    TrimNoSpace(Join(fields, ','));
    SplitJoin(fields, ',');
  }

  /** The text lines of a table of plain fields. */
  function TableLines(table: seq<seq<string>>): (ls: seq<string>)
    requires forall i :: 0 <= i < |table| ==> |table[i]| >= 1
    ensures |ls| == |table|
  {
    if table == [] then [] else TableLines(table[..|table| - 1]) + [Join(table[|table| - 1], ',')]
  }

  /** A table whose rows have the headers' width and are not all empty. */
  predicate PlainTable(headers: seq<string>, table: seq<seq<string>>) {
    && |headers| >= 1
    && (forall i :: 0 <= i < |headers| ==> PlainField(headers[i]))
    && (forall i :: 0 <= i < |table| ==> |table[i]| == |headers|)
    && (forall i, j :: 0 <= i < |table| && 0 <= j < |table[i]| ==> PlainField(table[i][j]))
    && (forall i :: 0 <= i < |table| ==> Join(table[i], ',') != [])
  }

  /** The records of a table's rows. */
  function TableRecords(headers: seq<string>, table: seq<seq<string>>): (rs: seq<Row>)
    requires forall i :: 0 <= i < |table| ==> |table[i]| == |headers|
    ensures |rs| == |table|
  {
    if table == [] then []
    else
      var n := |table| - 1;
      TableRecords(headers, table[..n]) + [Record(headers, Cells(table[n]), |headers|)]
  }

  lemma {:induction false} TableRows(headers: seq<string>, table: seq<seq<string>>)
    requires PlainTable(headers, table)
    ensures DataRows(headers, TableLines(table)) == TableRecords(headers, table)
  {
    if table != [] {
      var n := |table| - 1;
      assert PlainTable(headers, table[..n]);
      TableRows(headers, table[..n]);
      DataRowsSnoc(headers, TableLines(table[..n]), Join(table[n], ','));
      LineOfFields(headers, table[n]);
    }
  }

  lemma {:induction false} TableLinesPlain(table: seq<seq<string>>, headers: seq<string>)
    requires PlainTable(headers, table)
    ensures forall i :: 0 <= i < |TableLines(table)| ==> '\n' !in TableLines(table)[i]
  {
    if table != [] {
      var n := |table| - 1;
      assert PlainTable(headers, table[..n]);
      TableLinesPlain(table[..n], headers);
      JoinPlain(table[n]);
      assert IsSpace('\n');
    }
  }

  /** The header line written from plain names gives the names back. */
  lemma HeaderLine(headers: seq<string>)
    requires |headers| >= 1 && forall i :: 0 <= i < |headers| ==> PlainField(headers[i])
    ensures Headers(Join(headers, ',')) == headers
  {
    SplitJoin(headers, ',');
    forall j | 0 <= j < |headers|
      ensures Trim(headers[j]) == headers[j]
    {
      TrimNoSpace(headers[j]);
    }
  }

  /** The lines of a written table, cut at line breaks, are given back. */
  lemma WrittenLines(headers: seq<string>, table: seq<seq<string>>)
    requires PlainTable(headers, table)
    ensures Split(Join([Join(headers, ',')] + TableLines(table), '\n'), '\n') == [Join(headers, ',')] + TableLines(table)
  {
    var lines := [Join(headers, ',')] + TableLines(table);
    JoinPlain(headers);
    assert IsSpace('\n');
    assert '\n' !in lines[0];
    TableLinesPlain(table, headers);
    assert forall i :: 1 <= i < |lines| ==> lines[i] == TableLines(table)[i - 1];
    SplitJoin(lines, '\n');
  }

  /** Writing a table of plain fields as comma-separated lines under a header line, and parsing
    * the text, gives one record per table row, in order. */
  lemma ParseWrittenTable(headers: seq<string>, table: seq<seq<string>>)
    requires PlainTable(headers, table)
    ensures CsvRows(Join([Join(headers, ',')] + TableLines(table), '\n')) == TableRecords(headers, table)
  {
    var lines := [Join(headers, ',')] + TableLines(table);
    WrittenLines(headers, table);
    HeaderLine(headers);
    assert lines[1..] == TableLines(table);
    TableRows(headers, table);
  }

  /** A field holding a printed integer is read back as that integer. */
  lemma NumericField(i: int)
    ensures CellOf(IntToString(i)) == Num(i)
  {
    NumberOfString(i);
  }
}
