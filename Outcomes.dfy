/** The result of one check: the tri-state verdict and its message, and what
    calling a check amounts to when it may raise. */
module Outcomes {

  /** The first element of a check's result: Python's `True`, `False`, or
      `None` for a check skipped because its capability is missing. */
  datatype TriState = Pass | Fail | Skip

  /** A check's `(is_valid, message)` pair; it is also what the pipeline
      stores per test name (the elapsed time is not modelled). */
  datatype Outcome = Outcome(valid: TriState, message: string)

  /** Calling a test function: it returns its pair, or it raises an
      exception whose `str()` is `description`. */
  datatype Attempt = Returned(outcome: Outcome) | Raised(description: string)
}
