/** Option and Result types for the operations that may raise in the
    original program, and the errors they raise. */
module Outcomes {

  datatype Option<+T> = None | Some(value: T) {
    predicate IsFailure() { None? }

    function PropagateFailure<U>(): Option<U>
      requires None?
    {
      None
    }

    function Extract(): T
      requires Some?
    {
      value
    }
  }

  /** The exceptions of the original program, one constructor per raise site
      (or per library exception that reaches a caller). */
  datatype Error =
    | InvalidVersion(version: string, repo: string, chart: string)
      // ValueError from the ChartVersion validator
    | NotAChartVersion(typeName: string)
      // TypeError from _ensure_comparable
    | DifferentCharts(repo: string, chart: string, otherRepo: string, otherChart: string)
      // ValueError from _ensure_comparable
    | AllEntriesInvalid(repo: string, chart: string)
      // ValueError from parse_versions
    | EmptyMax
      // ValueError raised by max() on an empty sequence
    | InvalidChartName(name: string)
    | UnsupportedScheme(scheme: string)
    | UnexpectedKeyword(keyword: string)
      // TypeError: HTTPRegistry.__init__ takes no extra keyword arguments
    | DuplicateArgument(keyword: string)
      // TypeError: a keyword argument repeats a positional parameter
    | InvalidUrl(url: string)
      // ValueError from urlsplit: unbalanced brackets in the network location
    | ChartNotFound(chart: string)
    | MissingKey(key: string)
      // KeyError from entry["version"]
    | MissingFields(fields: seq<string>)
      // pydantic ValidationError for ChartMetadata, listing every missing field
    | NoVersionsAvailable(repo: string, chart: string)
    | ChartExists(repo: string, chart: string)
    | NoChartSource
    | HashExtractionFailed(repo: string, chart: string, stderr: string)
      // RuntimeError from get_hash
    | CommandFailed(command: string, exitCode: int)
      // CalledProcessError from run_cmd(raise_on_error=True)
    | FileNotFound(path: seq<string>)
    | Upstream(reason: string)
      // whatever an external collaborator (network, OCI client, JSON decoding) raises

  datatype Result<+T> = Ok(value: T) | Err(error: Error) {
    predicate IsFailure() { Err? }

    function PropagateFailure<U>(): Result<U>
      requires Err?
    {
      Err(error)
    }

    function Extract(): T
      requires Ok?
    {
      value
    }
  }
}
