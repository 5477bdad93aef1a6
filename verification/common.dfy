/** Small shared datatypes used by every module of the model. */
module Common {

  /** A value that may be absent: a missing file, a skipped frame, an exhausted oracle. */
  datatype Option<+T> = None | Some(value: T)

  /** The outcome of a call into code the model does not see: it returned, or it raised. */
  datatype Step = Done | Raised(detail: string)

  /** The last element of a non-empty sequence (Python's `xs[-1]`). */
  function Last<T>(xs: seq<T>): T
    requires |xs| > 0
  {
    xs[|xs| - 1]
  }

  /** Each element differs from the one before it. */
  predicate NoAdjacentRepeats<T(==)>(xs: seq<T>)
  {
    forall i :: 0 < i < |xs| ==> xs[i - 1] != xs[i]
  }
}
