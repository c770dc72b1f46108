/**
  * The natural-language processor: the lower-cased query is tested for keyword
  * families in a fixed order (average, total, maximum, minimum, count,
  * percentage); the first family found decides the answer. Column names are
  * looked for in the order of the first row's keys.
  */
module Natural {
  import opened Wrappers
  import opened Strings
  import opened JsValues
  import opened Aggregates
  import opened Outcomes
  import opened Formula

  /** The keyword families, in the order the processor tries them. */
  datatype Intent = AverageIntent | SumIntent | MaxIntent | MinIntent | CountIntent | PercentIntent | NoIntent

  function Rank(i: Intent): nat {
    match i
    case AverageIntent => 0
    case SumIntent => 1
    case MaxIntent => 2
    case MinIntent => 3
    case CountIntent => 4
    case PercentIntent => 5
    case NoIntent => 6
  }

  function Keywords(i: Intent): seq<string> {
    match i
    case AverageIntent => ["average", "avg"]
    case SumIntent => ["total", "sum"]
    case MaxIntent => ["max", "highest", "largest"]
    case MinIntent => ["min", "lowest", "smallest"]
    case CountIntent => ["count", "how many"]
    case PercentIntent => ["percentage", "percent"]
    case NoIntent => []
  }

  /** The query includes at least one of the words. */
  predicate MentionsAny(q: string, words: seq<string>) {
    words != [] && (Contains(q, words[0]) || MentionsAny(q, words[1..]))
  }

  lemma {:induction false} MentionsAnyMeaning(q: string, words: seq<string>)
    ensures MentionsAny(q, words) <==> exists i :: 0 <= i < |words| && Contains(q, words[i])
  {
    if words != [] {
      MentionsAnyMeaning(q, words[1..]);
      if exists i :: 0 <= i < |words| && Contains(q, words[i]) {
        var i :| 0 <= i < |words| && Contains(q, words[i]);
        if i > 0 { assert words[1..][i - 1] == words[i]; }
      }
      if MentionsAny(q, words[1..]) {
        var i :| 0 <= i < |words[1..]| && Contains(q, words[1..][i]);
        assert words[i + 1] == words[1..][i];
      }
    }
  }

  /** The first family whose keywords the query mentions. */
  function IntentOf(lq: string): (r: Intent)
    ensures r != NoIntent ==> MentionsAny(lq, Keywords(r))
    ensures forall e :: Rank(e) < Rank(r) ==> !MentionsAny(lq, Keywords(e))
  {
    if MentionsAny(lq, Keywords(AverageIntent)) then AverageIntent
    else if MentionsAny(lq, Keywords(SumIntent)) then SumIntent
    else if MentionsAny(lq, Keywords(MaxIntent)) then MaxIntent
    else if MentionsAny(lq, Keywords(MinIntent)) then MinIntent
    else if MentionsAny(lq, Keywords(CountIntent)) then CountIntent
    else if MentionsAny(lq, Keywords(PercentIntent)) then PercentIntent
    else NoIntent
  }

  /** The words that say grouping is wanted. */
  function GroupCues(i: Intent): seq<string> {
    ["for each", "by", "group"] +
    (if i in {MaxIntent, MinIntent, CountIntent} then ["in each"]
     else if i == PercentIntent then ["of each"] else [])
  }

  /** What may stand right before a group column's name. */
  function GroupTemplates(i: Intent): seq<string> {
    ["for each ", "by ", "group by "] +
    (if i in {MaxIntent, MinIntent, CountIntent} then ["in each "]
     else if i == PercentIntent then ["of each "] else [])
  }

  /** The query names the column right after one of the templates. */
  predicate Cued(lq: string, templates: seq<string>, col: string) {
    templates != [] && (Contains(lq, templates[0] + Lower(col)) || Cued(lq, templates[1..], col))
  }

  /** The position of `columns.find(col => lq.includes(col.toLowerCase()))`:
    * the first column whose lower-cased name the query includes. */
  function ColumnIndex(columns: seq<string>, lq: string): (r: Option<nat>)
    ensures r.Some? ==> r.value < |columns| && Contains(lq, Lower(columns[r.value]))
    ensures r.Some? ==> forall j :: 0 <= j < r.value ==> !Contains(lq, Lower(columns[j]))
    ensures r.None? ==> forall j :: 0 <= j < |columns| ==> !Contains(lq, Lower(columns[j]))
  {
    if columns == [] then None
    else if Contains(lq, Lower(columns[0])) then Some(0)
    else
      match ColumnIndex(columns[1..], lq)
      case None => None
      case Some(j) => Some(j + 1)
  }

  /** The column `columnMatch` names once `if (!columnMatch)` has tested it:
    * a found column with the empty name is falsy, so it counts as none found. */
  function FindColumn(columns: seq<string>, lq: string): (r: Option<string>)
    ensures r.Some? ==> r.value in columns && r.value != "" && Contains(lq, Lower(r.value))
    ensures r.None? ==> forall j :: 0 <= j < |columns| && Contains(lq, Lower(columns[j])) ==> "" in columns[..j + 1]
  {
    match ColumnIndex(columns, lq)
    case None => None
    case Some(i) => if columns[i] == "" then None else Some(columns[i])
  }

  /** The position of the first column the query names right after one of the templates. */
  function CuedIndex(columns: seq<string>, lq: string, templates: seq<string>): (r: Option<nat>)
    ensures r.Some? ==> r.value < |columns| && Cued(lq, templates, columns[r.value])
    ensures r.Some? ==> forall j :: 0 <= j < r.value ==> !Cued(lq, templates, columns[j])
    ensures r.None? ==> forall j :: 0 <= j < |columns| ==> !Cued(lq, templates, columns[j])
  {
    if columns == [] then None
    else if Cued(lq, templates, columns[0]) then Some(0)
    else
      match CuedIndex(columns[1..], lq, templates)
      case None => None
      case Some(j) => Some(j + 1)
  }

  /** The group column that passes `if (groupByColumn)`: grouping is asked for
    * and the first cued column has a non-empty name. */
  function FindGroup(columns: seq<string>, lq: string, i: Intent): (r: Option<string>)
    ensures r.Some? ==> r.value in columns && r.value != "" && MentionsAny(lq, GroupCues(i))
    ensures r.Some? ==> Cued(lq, GroupTemplates(i), r.value)
    ensures r.None? && MentionsAny(lq, GroupCues(i)) ==>
      forall j :: 0 <= j < |columns| && Cued(lq, GroupTemplates(i), columns[j]) ==> "" in columns[..j + 1]
  {
    if !MentionsAny(lq, GroupCues(i)) then None
    else
      match CuedIndex(columns, lq, GroupTemplates(i))
      case None => None
      case Some(k) => if columns[k] == "" then None else Some(columns[k])
  }

  /** The formula operation each aggregate family stands for. */
  function OpOf(i: Intent): Op
    requires i in {AverageIntent, SumIntent, MaxIntent, MinIntent}
  {
    match i
    case AverageIntent => AVG
    case SumIntent => SUM
    case MaxIntent => MAX
    case MinIntent => MIN
  }

  /** What an aggregate family reports it could not find a column for. */
  function TaskOf(i: Intent): Task
    requires i in {AverageIntent, SumIntent, MaxIntent, MinIntent, PercentIntent}
  {
    match i
    case AverageIntent => AverageTask
    case SumIntent => SumTask
    case MaxIntent => MaximumTask
    case MinIntent => MinimumTask
    case PercentIntent => PercentageTask
  }

  /** The `description` of a summary. */
  function SummaryDescription(op: Op, column: string): string {
    match op
    case AVG => "Average of " + column
    case SUM => "Total of " + column
    case MAX => "Maximum of " + column
    case MIN => "Minimum of " + column
    case COUNT => "Total count of records"
  }

  /** The `formula` of a summary: `COUNT(*)` for the row count, `OP(column)` otherwise. */
  function SummaryFormula(op: Op, column: string): string {
    Render(Formula(op, column, None))
  }

  /** The grouped answer of an aggregate family. */
  function GroupedAnswer(data: seq<Row>, i: Intent, c: string, g: string): map<string, Number>
    requires i in {AverageIntent, SumIntent, MaxIntent, MinIntent, PercentIntent}
  {
    match i
    case AverageIntent => GroupAverages(data, c, g)
    case SumIntent => AsNumbers(GroupSums(data, c, g))
    case MaxIntent => GroupMaxima(data, c, g)
    case MinIntent => GroupMinima(data, c, g)
    case PercentIntent => GroupPercentages(data, c, g)
  }

  /** The ungrouped answer of an aggregate family. */
  function PlainAnswer(data: seq<Row>, i: Intent, c: string): Number
    requires i in {AverageIntent, SumIntent, MaxIntent, MinIntent}
  {
    match i
    case AverageIntent => Average(data, c)
    case SumIntent => Int(Sum(data, c))
    case MaxIntent => Max(data, c)
    case MinIntent => Min(data, c)
  }

  function Columns(data: seq<Row>): seq<string> {
    if |data| > 0 then data[0].columns else []
  }

  /** `processNaturalLanguageQuery`. */
  function ProcessNatural(data: seq<Row>, query: string): Outcome {
    var lq := Lower(query);
    Respond(data, lq, IntentOf(lq))
  }

  /** The answer for the family the lower-cased query `lq` selected. */
  function Respond(data: seq<Row>, lq: string, intent: Intent): Outcome {
    if intent == NoIntent then Text(NotUnderstood)
    else if intent == CountIntent then CountAnswer(data, FindGroup(Columns(data), lq, intent))
    else AggregateAnswer(data, intent, FindColumn(Columns(data), lq), FindGroup(Columns(data), lq, intent))
  }

  function CountAnswer(data: seq<Row>, group: Option<string>): Outcome {
    match group
    case Some(g) => Groups(AsNumbers(GroupCounts(data, g)))
    case None => Summary(Int(|data|), COUNT, "*")
  }

  function AggregateAnswer(data: seq<Row>, intent: Intent, column: Option<string>, group: Option<string>): Outcome
    requires intent in {AverageIntent, SumIntent, MaxIntent, MinIntent, PercentIntent}
  {
    match column
    case None => Text(NoColumnFor(TaskOf(intent)))
    case Some(c) =>
      match group
      case Some(g) => Groups(GroupedAnswer(data, intent, c, g))
      case None =>
        if intent == PercentIntent then Text(NotUnderstood)
        else Summary(PlainAnswer(data, intent, c), OpOf(intent), c)
  }

  /** An aggregate family answers with a message, not an error, when the query
    * names no column, or when the first column it matches has the empty name
    * (which every query matches, and which is falsy). */
  lemma MissingColumnAnswersText(data: seq<Row>, query: string)
    requires IntentOf(Lower(query)) in {AverageIntent, SumIntent, MaxIntent, MinIntent, PercentIntent}
    requires forall j :: 0 <= j < |Columns(data)| && Contains(Lower(query), Lower(Columns(data)[j])) ==>
      "" in Columns(data)[..j + 1]
    ensures ProcessNatural(data, query) == Text(NoColumnFor(TaskOf(IntentOf(Lower(query)))))
  {
    NoColumnFound(Columns(data), Lower(query));
  }

  /** The search finds nothing usable when every matching column comes at or after an empty name. */
  lemma NoColumnFound(columns: seq<string>, lq: string)
    requires forall j :: 0 <= j < |columns| && Contains(lq, Lower(columns[j])) ==> "" in columns[..j + 1]
    ensures FindColumn(columns, lq).None?
  {
    match ColumnIndex(columns, lq)
    case None =>
    case Some(i) =>
      assert "" in columns[..i + 1];
      var k :| 0 <= k <= i && columns[k] == "";
      if k < i {
        EmptyNameMatches(lq);
      }
  }

  /** Every query includes the lower-cased empty name. */
  lemma EmptyNameMatches(lq: string)
    ensures Contains(lq, Lower(""))
  {
    assert Lower("") == "";
    assert lq[..0] == "";
  }

  /** The count family always answers: per-group counts, or the row count
    * summarised as `COUNT(*)`. */
  lemma CountAlwaysAnswers(data: seq<Row>, query: string)
    requires IntentOf(Lower(query)) == CountIntent
    ensures ProcessNatural(data, query).Groups? || ProcessNatural(data, query) == Summary(Int(|data|), COUNT, "*")
    ensures SummaryFormula(COUNT, "*") == "COUNT(*)"
  {
    assert Render(Formula(COUNT, "*", None)) == "COUNT" + ("(" + "*" + ")" + "");
  }

  /** A percentage query without a usable grouping is not understood, even
    * when it names a column. */
  lemma PercentageNeedsGroup(data: seq<Row>, query: string)
    requires IntentOf(Lower(query)) == PercentIntent
    requires FindGroup(Columns(data), Lower(query), PercentIntent).None?
    ensures ProcessNatural(data, query).Text?
  {
  }

  /** A query with none of the keywords is not understood. */
  lemma NoKeywordNotUnderstood(data: seq<Row>, query: string)
    requires forall i :: i != NoIntent ==> !MentionsAny(Lower(query), Keywords(i))
    ensures ProcessNatural(data, query) == Text(NotUnderstood)
  {
  }

  /** A column name the formula grammar reads back unchanged. */
  predicate PlainName(c: string) {
    c != [] && ')' !in c && c != "*" && Trim(c) == c
  }

  /** A group name the formula grammar reads back unchanged, as one column. */
  predicate PlainGroupName(g: string) {
    CanonicalGroup(Some(g)) && Trim(g) == g && ',' !in g
  }

  /** The summary's `formula` text, run through the formula processor, gives
    * the summary's own result. */
  lemma SummaryFormulaAgrees(data: seq<Row>, query: string)
    requires |data| > 0 && WellFormed(data[0])
    requires ProcessNatural(data, query).Summary?
    requires FindColumn(Columns(data), Lower(query)).Some? ==> PlainName(FindColumn(Columns(data), Lower(query)).value)
    ensures var s := ProcessNatural(data, query);
      ProcessFormula(data, SummaryFormula(s.op, s.column)) == Ok(Scalar(s.result))
  {
    var lq := Lower(query);
    var i := IntentOf(lq);
    NaturalSummary(data, lq, i);
    if i == CountIntent {
      TrimUnchanged("*");
      PlainFormula(data, COUNT, "*");
    } else {
      var c := FindColumn(Columns(data), lq).value;
      PlainFormula(data, OpOf(i), c);
      PlainIsEvaluated(data, i, c);
    }
  }

  /** The two ways a query ends in a summary. */
  lemma NaturalSummary(data: seq<Row>, lq: string, i: Intent)
    requires Respond(data, lq, i).Summary?
    ensures i == CountIntent ==> Respond(data, lq, i) == Summary(Int(|data|), COUNT, "*")
    ensures i != CountIntent ==>
      && i in {AverageIntent, SumIntent, MaxIntent, MinIntent} && FindColumn(Columns(data), lq).Some?
      && var c := FindColumn(Columns(data), lq).value;
         Respond(data, lq, i) == Summary(PlainAnswer(data, i, c), OpOf(i), c)
  {
  }

  lemma PlainIsEvaluated(data: seq<Row>, i: Intent, c: string)
    requires i in {AverageIntent, SumIntent, MaxIntent, MinIntent}
    ensures Evaluate(data, OpOf(i), c, None) == Scalar(PlainAnswer(data, i, c))
  {
    match i
    case AverageIntent => assert OpOf(i) == AVG;
    case SumIntent => assert OpOf(i) == SUM;
    case MaxIntent => assert OpOf(i) == MAX;
    case MinIntent => assert OpOf(i) == MIN;
  }

  /** A grouped answer of the average, total, maximum or minimum family is the
    * record the formula `OP(column) GROUP BY group` produces. */
  lemma GroupedAnswerAgreesWithFormula(data: seq<Row>, query: string)
    requires |data| > 0 && WellFormed(data[0])
    requires IntentOf(Lower(query)) in {AverageIntent, SumIntent, MaxIntent, MinIntent}
    requires FindColumn(Columns(data), Lower(query)).Some?
    requires FindGroup(Columns(data), Lower(query), IntentOf(Lower(query))).Some?
    requires PlainName(FindColumn(Columns(data), Lower(query)).value)
    requires PlainGroupName(FindGroup(Columns(data), Lower(query), IntentOf(Lower(query))).value)
    ensures var i, c, g := IntentOf(Lower(query)), FindColumn(Columns(data), Lower(query)).value,
                        FindGroup(Columns(data), Lower(query), IntentOf(Lower(query))).value;
      ProcessFormula(data, Render(Formula(OpOf(i), c, Some(g)))) == Ok(ProcessNatural(data, query))
  {
    var lq := Lower(query);
    var i := IntentOf(lq);
    var c := FindColumn(Columns(data), lq).value;
    var g := FindGroup(Columns(data), lq, i).value;
    GroupedFormula(data, OpOf(i), c, g);
    GroupedIsEvaluated(data, i, c, g);
    NaturalGrouped(data, lq, i);
  }

  lemma NaturalGrouped(data: seq<Row>, lq: string, i: Intent)
    requires i in {AverageIntent, SumIntent, MaxIntent, MinIntent, PercentIntent}
    requires FindColumn(Columns(data), lq).Some? && FindGroup(Columns(data), lq, i).Some?
    ensures Respond(data, lq, i)
      == Groups(GroupedAnswer(data, i, FindColumn(Columns(data), lq).value, FindGroup(Columns(data), lq, i).value))
  {
  }

  lemma GroupedIsEvaluated(data: seq<Row>, i: Intent, c: string, g: string)
    requires i in {AverageIntent, SumIntent, MaxIntent, MinIntent}
    ensures Evaluate(data, OpOf(i), c, Some(g)) == Groups(GroupedAnswer(data, i, c, Trim(g)))
  {
    match i
    case AverageIntent => assert OpOf(i) == AVG;
    case SumIntent => assert OpOf(i) == SUM;
    case MaxIntent => assert OpOf(i) == MAX;
    case MinIntent => assert OpOf(i) == MIN;
  }

  /** A grouped count is the record the formula `COUNT(*) GROUP BY group` produces. */
  lemma GroupedCountAgreesWithFormula(data: seq<Row>, query: string)
    requires |data| > 0 && WellFormed(data[0])
    requires IntentOf(Lower(query)) == CountIntent
    requires FindGroup(Columns(data), Lower(query), CountIntent).Some?
    requires PlainGroupName(FindGroup(Columns(data), Lower(query), CountIntent).value)
    ensures var g := FindGroup(Columns(data), Lower(query), CountIntent).value;
      ProcessFormula(data, Render(Formula(COUNT, "*", Some(g)))) == Ok(ProcessNatural(data, query))
  {
    var lq := Lower(query);
    var g := FindGroup(Columns(data), lq, CountIntent).value;
    TrimUnchanged("*");
    GroupedFormula(data, COUNT, "*", g);
    assert Respond(data, lq, CountIntent) == Groups(AsNumbers(GroupCounts(data, g)));
  }
}
