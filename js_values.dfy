/**
  * The dynamically typed cells of a dataset, its rows, and the JavaScript
  * conversions the engine applies to them: `String(v)`, `Number(v)`,
  * `Number(v || 0)` and `Number(v) || 0`.
  */
module JsValues {
  import opened Wrappers
  import opened Strings

  /** A cell: a number, a string, or `undefined`. */
  datatype Value = Num(n: int) | Str(s: string) | Missing

  /** A record: its own keys in `Object.keys` order and what each holds. */
  datatype Row = Row(columns: seq<string>, cells: map<string, Value>)

  /** The keys are listed once each, and exactly the keys are listed. */
  ghost predicate WellFormed(r: Row) {
    && (forall i, j :: 0 <= i < j < |r.columns| ==> r.columns[i] != r.columns[j])
    && (forall k :: k in r.cells <==> k in r.columns)
  }

  /** `row[k]`: an absent key reads as `undefined`. */
  function Lookup(r: Row, k: string): Value {
    if k in r.cells then r.cells[k] else Missing
  }

  /** `row[k] = v`: a new key is appended to the key order, an existing one keeps its place. */
  function Assign(r: Row, k: string, v: Value): (r': Row)
    ensures r'.cells == r.cells[k := v]
    ensures k in r.cells ==> r'.columns == r.columns
    ensures k !in r.cells ==> r'.columns == r.columns + [k]
  {
    if k in r.cells then Row(r.columns, r.cells[k := v])
    else Row(r.columns + [k], r.cells[k := v])
  }

  /** Assigning keeps a record well formed. */
  lemma AssignWellFormed(r: Row, k: string, v: Value)
    requires WellFormed(r)
    ensures WellFormed(Assign(r, k, v))
  {
  }

  /** `String(v)`. */
  function ToStr(v: Value): string {
    match v
    case Num(n) => IntToString(n)
    case Str(s) => s
    case Missing => "undefined"
  }

  /** `Number(v)`; None stands for NaN. */
  function JsNumber(v: Value): Option<int> {
    match v
    case Num(n) => Some(n)
    case Str(s) => ParseNumber(s)
    case Missing => None
  }

  /** `Number(v) || 0`, and `Number(v || 0)` with NaN read as 0 (see the README). */
  function Coerce(v: Value): (x: int)
    ensures JsNumber(v).Some? ==> x == JsNumber(v).value
    ensures JsNumber(v).None? ==> x == 0
  {
    match JsNumber(v)
    case Some(n) => n
    case None => 0
  }

  /** A numeric result as JavaScript would print it: an integer, an exact quotient
    * (Div with den 0 stands for NaN or an infinity), or the empty max and min. */
  datatype Number = Int(value: int) | Div(num: int, den: int) | NegInfinity | PosInfinity
}
