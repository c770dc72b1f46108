/**
  * The formula processor: `OP(column)` or `OP(column) GROUP BY group`, where OP
  * is AVG, SUM, COUNT, MAX or MIN in any letter case, checked against the keys
  * of the first row and evaluated with the aggregation primitives.
  */
module Formula {
  import opened Wrappers
  import opened Strings
  import opened JsValues
  import opened Aggregates
  import opened Outcomes

  /** A formula as the pattern captures it: the operation, the text between
    * the parentheses and the text after `GROUP BY`, all untrimmed. */
  datatype Formula = Formula(op: Op, column: string, groupBy: Option<string>)

  function OpName(op: Op): string {
    match op
    case AVG => "AVG"
    case SUM => "SUM"
    case COUNT => "COUNT"
    case MAX => "MAX"
    case MIN => "MIN"
  }

  /** `s` begins with `word`, letters compared without regard to case. */
  predicate OpensWith(s: string, word: string) {
    |word| <= |s| && EqualsIgnoreCase(s[..|word|], word)
  }

  /** The alternation `(AVG|SUM|COUNT|MAX|MIN)` anchored at the start. */
  function ParseOp(q: string): (r: Option<Op>)
    ensures r.Some? ==> OpensWith(q, OpName(r.value))
    ensures r.None? ==> forall op :: !OpensWith(q, OpName(op))
  {
    if OpensWith(q, "AVG") then Some(AVG)
    else if OpensWith(q, "SUM") then Some(SUM)
    else if OpensWith(q, "COUNT") then Some(COUNT)
    else if OpensWith(q, "MAX") then Some(MAX)
    else if OpensWith(q, "MIN") then Some(MIN)
    else None
  }

  /** The length of the run of white space `s` starts with. */
  function SpaceRun(s: string): (n: nat)
    ensures n <= |s|
    ensures forall i :: 0 <= i < n ==> IsSpace(s[i])
    ensures n == |s| || !IsSpace(s[n])
  {
    if s != [] && IsSpace(s[0]) then 1 + SpaceRun(s[1..]) else 0
  }

  /** The first position of `c` in `s`. */
  function IndexOf(s: string, c: char): (r: Option<nat>)
    ensures r.None? <==> c !in s
    ensures r.Some? ==> r.value < |s| && s[r.value] == c && c !in s[..r.value]
  {
    if s == [] then None
    else if s[0] == c then Some(0)
    else
      match IndexOf(s[1..], c)
      case None => None
      case Some(j) => assert s[..j + 1] == [s[0]] + s[1..][..j]; Some(j + 1)
  }

  predicate NoLineTerminator(s: string) {
    forall i :: 0 <= i < |s| ==> !IsLineTerminator(s[i])
  }

  /** `\s+WORD`, the word in any letter case: what follows it, if `t` opens so. */
  function AfterWord(t: string, word: string): (r: Option<string>)
    ensures r.Some? ==> |r.value| < |t|
  {
    var w := SpaceRun(t);
    if w == 0 || !OpensWith(t[w..], word) then None else Some(t[w..][|word|..])
  }

  /** `\s+(.+)$` at the end of the tail. The `\s+` gives back one character
    * when nothing else is left for `(.+)`, which accepts no line terminator. */
  function GroupName(t: string): (r: Option<string>)
    ensures r.Some? ==> r.value != [] && NoLineTerminator(r.value)
  {
    var w := SpaceRun(t);
    var rest := t[w..];
    if w == 0 then None
    else if rest != [] then (if NoLineTerminator(rest) then Some(rest) else None)
    else if w >= 2 && !IsLineTerminator(t[w - 1]) then Some([t[w - 1]])
    else None
  }

  /** The optional tail `\s+GROUP\s+BY\s+(.+)` up to the end of the text. */
  function ParseGroupTail(t: string): (r: Option<string>)
    ensures r.Some? ==> r.value != [] && NoLineTerminator(r.value)
  {
    match AfterWord(t, "GROUP")
    case None => None
    case Some(t2) =>
      match AfterWord(t2, "BY")
      case None => None
      case Some(t4) => GroupName(t4)
  }

  /** `\(([^)]+)\)`: an opening parenthesis, at least one character that is not
    * `)`, and the first `)`; gives the captured column and what follows. */
  function ParseArgument(rest: string): (r: Option<(string, string)>)
    ensures r.Some? ==> r.value.0 != [] && ')' !in r.value.0
  {
    if rest == [] || rest[0] != '(' then None
    else
      var inner := rest[1..];
      match IndexOf(inner, ')')
      case None => None
      case Some(j) => if j == 0 then None else Some((inner[..j], inner[j + 1..]))
  }

  /** `(?:\s+GROUP\s+BY\s+(.+))?$`: nothing at all, or the GROUP BY tail. */
  function ParseTail(tail: string): (r: Option<Option<string>>)
    ensures r.Some? && r.value.Some? ==> r.value.value != [] && NoLineTerminator(r.value.value)
  {
    if tail == [] then Some(None)
    else
      match ParseGroupTail(tail)
      case None => None
      case Some(g) => Some(Some(g))
  }

  /** The whole pattern, anchored at both ends. */
  function ParseFormula(q: string): (r: Option<Formula>)
    ensures r.Some? ==> OpensWith(q, OpName(r.value.op))
    ensures r.Some? ==> r.value.column != [] && ')' !in r.value.column
    ensures r.Some? && r.value.groupBy.Some? ==>
      r.value.groupBy.value != [] && NoLineTerminator(r.value.groupBy.value)
  {
    match ParseOp(q)
    case None => None
    case Some(op) =>
      match ParseArgument(q[|OpName(op)|..])
      case None => None
      case Some((column, tail)) =>
        match ParseTail(tail)
        case None => None
        case Some(groupBy) => Some(Formula(op, column, groupBy))
  }

  /** The formula written out in the form the pattern documents. */
  function Render(f: Formula): string {
    OpName(f.op) + ("(" + f.column + ")" + RenderTail(f.groupBy))
  }

  function RenderTail(groupBy: Option<string>): string {
    match groupBy
    case None => ""
    case Some(g) => " GROUP BY " + g
  }

  /** The formulas whose rendering reads back as themselves. */
  predicate Canonical(f: Formula) {
    && f.column != [] && ')' !in f.column
    && CanonicalGroup(f.groupBy)
  }

  predicate CanonicalGroup(groupBy: Option<string>) {
    groupBy.Some? ==>
      groupBy.value != [] && !IsSpace(groupBy.value[0]) && NoLineTerminator(groupBy.value)
  }

  lemma OpensWithItself(s: string, t: string)
    ensures OpensWith(s + t, s)
  {
    assert (s + t)[..|s|] == s;
  }

  lemma NotOpensWith(s: string, w: string, i: nat)
    requires i < |w| && i < |s| && LowerChar(s[i]) != LowerChar(w[i])
    ensures !OpensWith(s, w)
  {
    if |w| <= |s| {
      assert s[..|w|][i] == s[i];
    }
  }

  lemma ParseOpOfName(op: Op, t: string)
    ensures ParseOp(OpName(op) + t) == Some(op)
  {
    var q := OpName(op) + t;
    OpensWithItself(OpName(op), t);
    assert q[0] == OpName(op)[0] && q[1] == OpName(op)[1];
    match op
    case AVG =>
    case SUM => NotOpensWith(q, "AVG", 0);
    case COUNT => NotOpensWith(q, "AVG", 0); NotOpensWith(q, "SUM", 0);
    case MAX => NotOpensWith(q, "AVG", 0); NotOpensWith(q, "SUM", 0); NotOpensWith(q, "COUNT", 0);
    case MIN =>
      NotOpensWith(q, "AVG", 0); NotOpensWith(q, "SUM", 0); NotOpensWith(q, "COUNT", 0);
      NotOpensWith(q, "MAX", 1);
  }

  lemma {:induction false} IndexOfAppend(s: string, t: string, c: char)
    requires c !in s
    ensures IndexOf(s + [c] + t, c) == Some(|s|)
  {
    if s != [] {
      assert (s + [c] + t)[1..] == s[1..] + [c] + t;
      IndexOfAppend(s[1..], t, c);
    }
  }

  lemma ArgumentOfRender(c: string, tail: string)
    requires c != [] && ')' !in c
    ensures ParseArgument("(" + c + ")" + tail) == Some((c, tail))
  {
    var rest := "(" + c + ")" + tail;
    var inner := rest[1..];
    assert inner == c + [')'] + tail;
    IndexOfAppend(c, tail, ')');
    assert inner[..|c|] == c;
    assert inner[|c| + 1..] == tail;
  }

  /** One space and then the word: what follows the word is left. */
  lemma AfterWordOf(word: string, rest: string)
    requires word != [] && !IsSpace(word[0])
    ensures AfterWord(" " + word + rest, word) == Some(rest)
  {
    var t := " " + word + rest;
    assert t[1..] == word + rest;
    assert SpaceRun(t[1..]) == 0 by {
      assert t[1..][0] == word[0];
    }
    assert SpaceRun(t) == 1;
    OpensWithItself(word, rest);
    assert t[1..][|word|..] == rest;
  }

  lemma GroupNameOf(g: string)
    requires g != [] && !IsSpace(g[0]) && NoLineTerminator(g)
    ensures GroupName(" " + g) == Some(g)
  {
    var t := " " + g;
    assert t[1..] == g;
    assert SpaceRun(g) == 0;
    assert SpaceRun(t) == 1;
  }

  lemma GroupTailOfRender(g: string)
    requires g != [] && !IsSpace(g[0]) && NoLineTerminator(g)
    ensures ParseGroupTail(" GROUP BY " + g) == Some(g)
  {
    assert " GROUP BY " + g == " " + "GROUP" + (" BY " + g);
    AfterWordOf("GROUP", " BY " + g);
    assert " BY " + g == " " + "BY" + (" " + g);
    AfterWordOf("BY", " " + g);
    GroupNameOf(g);
  }

  lemma TailOfRender(groupBy: Option<string>)
    requires CanonicalGroup(groupBy)
    ensures ParseTail(RenderTail(groupBy)) == Some(groupBy)
  {
    if groupBy.Some? {
      GroupTailOfRender(groupBy.value);
    }
  }

  /** Rendering and then parsing gives the formula back. */
  lemma ParseRender(f: Formula)
    requires Canonical(f)
    ensures ParseFormula(Render(f)) == Some(f)
  {
    var name := OpName(f.op);
    var rest := "(" + f.column + ")" + RenderTail(f.groupBy);
    ParseOpOfName(f.op, rest);
    assert Render(f)[|name|..] == rest;
    ArgumentOfRender(f.column, RenderTail(f.groupBy));
    TailOfRender(f.groupBy);
  }

  /** The first of `names` that is not a key of `row`. */
  function FirstAbsent(names: seq<string>, row: Row): (r: Option<string>)
    ensures r.None? <==> forall i :: 0 <= i < |names| ==> names[i] in row.cells
    ensures r.Some? ==> r.value in names && r.value !in row.cells
  {
    if names == [] then None
    else if names[0] !in row.cells then Some(names[0])
    else FirstAbsent(names[1..], row)
  }

  function TrimAll(parts: seq<string>): (r: seq<string>)
    ensures |r| == |parts| && forall i :: 0 <= i < |parts| ==> r[i] == Trim(parts[i])
  {
    seq(|parts|, i requires 0 <= i < |parts| => Trim(parts[i]))
  }

  /** The comma-separated, trimmed names in a GROUP BY text. */
  function GroupColumns(g: string): seq<string> {
    TrimAll(Split(g, ','))
  }

  /** The group column that fails validation, if any; nothing is checked on an empty dataset. */
  function AbsentGroupColumn(data: seq<Row>, groupBy: Option<string>): Option<string> {
    if groupBy.None? || |data| == 0 then None
    else FirstAbsent(GroupColumns(groupBy.value), data[0])
  }

  /** The aggregation a validated formula selects. */
  function Evaluate(data: seq<Row>, op: Op, column: string, groupBy: Option<string>): Outcome {
    match (op, groupBy)
    case (AVG, Some(g)) => Groups(GroupAverages(data, column, Trim(g)))
    case (AVG, None) => Scalar(Average(data, column))
    case (SUM, Some(g)) => Groups(AsNumbers(GroupSums(data, column, Trim(g))))
    case (SUM, None) => Scalar(Int(Sum(data, column)))
    case (COUNT, Some(g)) => Groups(AsNumbers(GroupCounts(data, Trim(g))))
    case (COUNT, None) => Scalar(Int(|data|))
    case (MAX, Some(g)) => Groups(GroupMaxima(data, column, Trim(g)))
    case (MAX, None) => Scalar(Max(data, column))
    case (MIN, Some(g)) => Groups(GroupMinima(data, column, Trim(g)))
    case (MIN, None) => Scalar(Min(data, column))
  }

  /** The checks the processor makes before aggregating, in its order. */
  function Validate(data: seq<Row>, f: Formula): (r: Result<Outcome, Failure>)
    ensures r != Err(InvalidFormula)
  {
    var column := Trim(f.column);
    if column == "*" && f.op != COUNT then Err(StarWithoutCount)
    else if column != "*" && |data| > 0 && column !in data[0].cells then
      Err(ColumnNotFound(column))
    else
      match AbsentGroupColumn(data, f.groupBy)
      case Some(g) =>
        Err(GroupColumnNotFound(g))
      case None => Ok(Evaluate(data, f.op, column, f.groupBy))
  }

  /** `processFormulaQuery`: parse, validate the column and the group columns
    * against the first row, then aggregate. */
  function ProcessFormula(data: seq<Row>, query: string): Result<Outcome, Failure> {
    match ParseFormula(query)
    case None => Err(InvalidFormula)
    case Some(f) => Validate(data, f)
  }

  /** A query the pattern refuses fails with the format message, and only such a query does. */
  lemma InvalidFormatExactly(data: seq<Row>, query: string)
    ensures ProcessFormula(data, query) == Err(InvalidFormula) <==> ParseFormula(query).None?
  {
  }

  /** `*` is refused exactly when the operation is not COUNT. */
  lemma StarOnlyWithCount(data: seq<Row>, query: string)
    requires ParseFormula(query).Some? && Trim(ParseFormula(query).value.column) == "*"
    ensures ProcessFormula(data, query) == Err(StarWithoutCount) <==> ParseFormula(query).value.op != COUNT
  {
  }

  /** Every formula that evaluates passed the column check: `*` only with
    * COUNT, any other column a key of the first row. */
  lemma ColumnValidated(data: seq<Row>, query: string)
    requires ProcessFormula(data, query).Ok?
    ensures ParseFormula(query).Some?
    ensures var c := Trim(ParseFormula(query).value.column);
      && (c == "*" ==> ParseFormula(query).value.op == COUNT)
      && (c != "*" && |data| > 0 ==> c in data[0].cells)
  {
  }

  /** Every formula that evaluates passed the group check: each comma-separated,
    * trimmed group column is a key of the first row. */
  lemma GroupColumnsValidated(data: seq<Row>, query: string)
    requires ProcessFormula(data, query).Ok?
    requires ParseFormula(query).Some? && ParseFormula(query).value.groupBy.Some? && |data| > 0
    ensures forall g :: g in GroupColumns(ParseFormula(query).value.groupBy.value) ==> g in data[0].cells
  {
    var f := ParseFormula(query).value;
    var names := GroupColumns(f.groupBy.value);
    assert AbsentGroupColumn(data, f.groupBy) == FirstAbsent(names, data[0]);
    assert FirstAbsent(names, data[0]).None?;
    forall g | g in names ensures g in data[0].cells {
      var i :| 0 <= i < |names| && names[i] == g;
    }
  }

  /** What a formula that passes the checks evaluates to. */
  lemma EvaluatedAfterValidation(data: seq<Row>, query: string)
    requires ProcessFormula(data, query).Ok?
    ensures ParseFormula(query).Some?
    ensures var f := ParseFormula(query).value;
      ProcessFormula(data, query).value == Evaluate(data, f.op, Trim(f.column), f.groupBy)
  {
  }

  /** The evaluation groups by the whole trimmed GROUP BY text, not by the
    * comma-separated columns it validated: when no row has a key spelled like
    * that text (`Region, Month`, say), COUNT puts every row under "undefined". */
  lemma WholeGroupText(data: seq<Row>, query: string)
    requires ProcessFormula(data, query).Ok? && |data| > 0
    requires ParseFormula(query).Some? && ParseFormula(query).value.op == COUNT
    requires ParseFormula(query).value.groupBy.Some?
    requires forall i :: 0 <= i < |data| ==> Trim(ParseFormula(query).value.groupBy.value) !in data[i].cells
    ensures ProcessFormula(data, query) == Ok(Groups(AsNumbers(map["undefined" := |data|])))
  {
    EvaluatedAfterValidation(data, query);
    UndefinedGroup(data, Trim(ParseFormula(query).value.groupBy.value));
  }

  /** A column the first row lacks is reported by name. */
  lemma UnknownColumnReported(data: seq<Row>, query: string)
    requires ParseFormula(query).Some?
    requires var c := Trim(ParseFormula(query).value.column); c != "*" && |data| > 0 && c !in data[0].cells
    ensures ProcessFormula(data, query) == Err(ColumnNotFound(Trim(ParseFormula(query).value.column)))
  {
  }

  /** `COUNT(*)` counts the rows. */
  lemma ParseCountStar()
    ensures ParseFormula("COUNT(*)") == Some(Formula(COUNT, "*", None))
  {
    var f := Formula(COUNT, "*", None);
    ParseRender(f);
    assert Render(f) == "COUNT(*)";
  }

  lemma CountStarIsLength(data: seq<Row>)
    ensures ProcessFormula(data, "COUNT(*)") == Ok(Scalar(Int(|data|)))
  {
    ParseCountStar();
    TrimUnchanged("*");
    assert Validate(data, Formula(COUNT, "*", None)) == Ok(Evaluate(data, COUNT, "*", None));
  }

  /** A grouped formula over a real column and a single real group column
    * evaluates exactly as the named aggregation. */
  lemma GroupedFormula(data: seq<Row>, op: Op, c: string, g: string)
    requires |data| > 0 && g in data[0].cells
    requires if c == "*" then op == COUNT else c in data[0].cells
    requires Canonical(Formula(op, c, Some(g))) && Trim(c) == c && Trim(g) == g && ',' !in g
    ensures ProcessFormula(data, Render(Formula(op, c, Some(g)))) == Ok(Evaluate(data, op, c, Some(g)))
  {
    ParseRender(Formula(op, c, Some(g)));
    SplitNoSeparator(g, ',');
    assert GroupColumns(g) == [g];
  }

  /** An ungrouped formula over a real column evaluates as the named aggregation. */
  lemma PlainFormula(data: seq<Row>, op: Op, c: string)
    requires if c == "*" then op == COUNT else |data| > 0 && c in data[0].cells
    requires Canonical(Formula(op, c, None)) && Trim(c) == c
    ensures ProcessFormula(data, Render(Formula(op, c, None))) == Ok(Evaluate(data, op, c, None))
  {
    ParseRender(Formula(op, c, None));
  }
}
