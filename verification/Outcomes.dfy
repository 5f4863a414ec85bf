/** What a call that can throw comes to. */
module Outcomes {
  datatype Outcome<+T, +F> = Success(value: T) | Failed(failure: F)
}
