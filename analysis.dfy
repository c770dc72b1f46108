/**
  * `analyzeData`: refuses an empty dataset, then hands the query to the
  * processor its analysis type names. A processor's error reaches the caller
  * with its message unchanged.
  */
module Analysis {
  import opened Wrappers
  import opened JsValues
  import opened Outcomes
  import opened Formula
  import opened Filter
  import opened Natural

  /** The analysis types the dispatcher knows. */
  predicate KnownType(kind: string) {
    kind == "natural" || kind == "formulas" || kind == "filters" || kind == "custom"
  }

  /** `analyzeData(data, query, kind)`. The filter patterns' reading of the query
    * is given as `clauses`, and the result of running custom code as `custom`
    * (None when that code throws). */
  function AnalyzeData(data: seq<Row>, query: string, kind: string, clauses: seq<Clause>, custom: Option<Outcome>)
    : (r: Result<Outcome, Failure>)
    ensures r == Err(NoData) <==> |data| == 0
    ensures r == Err(UnknownType(kind)) <==> |data| > 0 && !KnownType(kind)
    ensures r.Err? && r.error.UnknownType? ==> r.error.kind == kind
    ensures |data| > 0 && kind == "custom" ==> (r == Err(CustomCodeFailed) <==> custom.None?)
  {
    if |data| == 0 then Err(NoData)
    else if kind == "natural" then Ok(ProcessNatural(data, query))
    else if kind == "formulas" then FormulaFailures(data, query); ProcessFormula(data, query)
    else if kind == "filters" then Ok(FilterOutcome(data, clauses))
    else if kind == "custom" then
      match custom
      case Some(o) => Ok(o)
      case None => Err(CustomCodeFailed)
    else Err(UnknownType(kind))
  }

  /** The formula processor fails only for its own four reasons. */
  lemma FormulaFailures(data: seq<Row>, query: string)
    ensures var r := ProcessFormula(data, query);
      r.Err? ==> r.error.InvalidFormula? || r.error.StarWithoutCount? || r.error.ColumnNotFound? || r.error.GroupColumnNotFound?
  {
  }

  /** On a non-empty dataset the formula type's outcome, error included, is the
    * formula processor's. */
  lemma FormulaPassesThrough(data: seq<Row>, query: string, clauses: seq<Clause>, custom: Option<Outcome>)
    requires |data| > 0
    ensures AnalyzeData(data, query, "formulas", clauses, custom) == ProcessFormula(data, query)
  {
  }

  /** On a non-empty dataset the natural-language and filter types raise none of
    * the engine's own errors: their answers pass through as successes. (The
    * host's limit on spread arguments in `Math.max(...)` is not modelled.) */
  lemma NaturalAndFiltersSucceed(data: seq<Row>, query: string, clauses: seq<Clause>, custom: Option<Outcome>)
    requires |data| > 0
    ensures AnalyzeData(data, query, "natural", clauses, custom) == Ok(ProcessNatural(data, query))
    ensures AnalyzeData(data, query, "filters", clauses, custom) == Ok(FilterOutcome(data, clauses))
  {
  }
}
