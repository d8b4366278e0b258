/** Failure-carrying values used in place of the program's `sys.exit(1)` paths. */
module Outcomes {

  /** A value that may be absent, as a `dict.get` without a default returns. */
  datatype Option<+T> = None | Some(value: T)

  /** Either the computed value or the error that stopped the run. */
  datatype Result<+T, +E> = Success(value: T) | Failure(error: E)

  /** The terminal errors of one run; each one ends the process with status 1. */
  datatype Error =
    | EmptyFeed       // the feed held no entries
    | MissingApiKey   // the completion-service credential is unset or empty

  /** The value held, or the empty string when absent: `d.get(key, '')`. */
  function OrEmpty(o: Option<string>): (s: string)
    ensures o.Some? ==> s == o.value
    ensures o.None? ==> s == ""
  {
    match o
    case Some(v) => v
    case None => ""
  }
}
