/** Library-wide constants: the price sentinel and the time units. */
module Constants {

  /** A price cell. The library stores prices as floats and marks a missing
      price with the UNKNOWN_PRICE sentinel (a NaN); here the sentinel is its
      own constructor, so "is the sentinel" is a match rather than `==`. */
  datatype Price = Known(value: real) | Unknown

  /** The sentinel test the gap accounting uses on close prices. */
  predicate IsUnknown(p: Price) {
    p.Unknown?
  }

  /** Timestamps are in milliseconds. */
  const TimeUnitsInOneDay: nat := 24 * 60 * 60 * 1000
}
