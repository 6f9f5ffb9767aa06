/** Spans of time in milliseconds. */
module Durations {
  const SECOND := 1000
  const MINUTE := 60_000
  const HOUR := 3_600_000
  const DAY := 86_400_000
}
