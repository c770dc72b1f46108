/**
  * What the analysis engine hands back: a bare number, a group-key to number
  * record, a `{count, data}` subset of rows, one of the fixed explanatory
  * strings, or a `{result, description, formula}` summary. The strings are
  * kept as constructors here; `NoticeText` gives their exact wording, and the
  * natural-language module gives a summary's description and formula text.
  */
module Outcomes {
  import opened JsValues

  datatype Outcome =
    | Scalar(value: Number)
    | Groups(entries: map<string, Number>)
    | Filtered(count: nat, rows: seq<Row>)
    | Text(notice: Notice)
    | Summary(result: Number, op: Op, column: string)

  /** The aggregation operations of formulas and of query summaries. */
  datatype Op = AVG | SUM | COUNT | MAX | MIN

  /** The aggregations a natural-language query may lack a column for. */
  datatype Task = AverageTask | SumTask | MaximumTask | MinimumTask | PercentageTask

  /** The explanatory strings the natural-language processor answers with. */
  datatype Notice = NotUnderstood | NoColumnFor(task: Task)

  function NoticeText(n: Notice): string {
    match n
    case NotUnderstood => "I couldn't understand your query. Please try rephrasing or use a specific format."
    case NoColumnFor(t) => "Could not find the column to " + TaskText(t) + " for. Please specify a valid column name."
  }

  function TaskText(t: Task): string {
    match t
    case AverageTask => "calculate average"
    case SumTask => "calculate sum"
    case MaximumTask => "find maximum"
    case MinimumTask => "find minimum"
    case PercentageTask => "calculate percentage"
  }

  /** Why an analysis failed; `Message` is the text of the error the engine throws. */
  datatype Failure =
    | NoData
    | UnknownType(kind: string)
    | InvalidFormula
    | StarWithoutCount
    | ColumnNotFound(column: string)
    | GroupColumnNotFound(column: string)
    | CustomCodeFailed

  function Message(f: Failure): string {
    match f
    case NoData => "No data available to analyze"
    case UnknownType(kind) => "Unknown analysis type: " + kind
    case InvalidFormula => "Invalid formula format. Please use format like: AVG(column) GROUP BY group_column"
    case StarWithoutCount => "Only COUNT operation can use * as column"
    case ColumnNotFound(c) => "Column '" + c + "' not found in data"
    case GroupColumnNotFound(g) => "Group column '" + g + "' not found in data"
    case CustomCodeFailed => "Failed to execute custom code. Please check your syntax."
  }
}
