/** Go `error` values, as far as the reservation backend builds and compares them. */
module Errors {

  /** A base error with its text, the driver's `sql.ErrNoRows` sentinel (a distinct value, compared
      by identity, not by its text), or an error wrapped under a context by
      `fmt.Errorf("...: %w", inner)`. */
  datatype Error = Failed(text: string) | NoRows | Wrapped(context: string, inner: Error)
  {
    /** The text `Error()` returns. */
    function Message(): string
    {
      match this
      case Failed(text) => text
      case NoRows => "sql: no rows in result set"
      case Wrapped(context, inner) => context + ": " + inner.Message()
    }

    /** `errors.Is(this, target)`: this error, or one it wraps, is `target`. */
    predicate Is(target: Error)
    {
      this == target || (Wrapped? && inner.Is(target))
    }
  }

  /** `fmt.Errorf(context + ": %w", cause)`. */
  function Errorf(context: string, cause: Error): (e: Error)
    ensures e.Is(cause) && e != cause
    ensures e.Message() == context + ": " + cause.Message()
  {
    Wrapped(context, cause)
  }
}
