/** What every part of the system shares: optional values, and time. */
module Wrappers {
  datatype Option<T> = None | Some(value: T)

  /** Clock readings and durations, in nanoseconds. */
  type Time = int

  const SECOND: Time := 1_000_000_000
  const MINUTE: Time := 60 * SECOND
  const HOUR: Time := 60 * MINUTE

  /** Go's zero time. */
  const ZERO_TIME: Time := -62_135_596_800_000_000_000

  /** Moments in order, with at least `gap` from each to the next. */
  predicate Apart(ms: seq<Time>, gap: Time) {
    forall i, j | 0 <= i < j < |ms| :: ms[j] >= ms[i] + gap
  }
}
