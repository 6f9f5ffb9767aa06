/** What the rules take from a JavaScript number checked with `Number.isInteger`. */
module Numbers {

  /** Whole, or anything else (fraction, NaN, infinity). */
  datatype Number = Whole(n: int) | NotWhole

  predicate PositiveInt(x: Number) { x.Whole? && x.n > 0 }

  function Amount(x: Number): int { if x.Whole? then x.n else 0 }
}
