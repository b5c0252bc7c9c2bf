/** Small shared value types. */
module Wrappers {

  /** A value that may be absent: a JSON `null`, a missing key, or Python's `None`. */
  datatype Option<+T> = None | Some(value: T)

  /**
   * A floating-point statistic as numpy returns it: a number or NaN (the mean
   * and variance of an empty list are NaN). Every ordered comparison with NaN
   * is false.
   */
  datatype Stat = NaN | Num(v: real)

  /** Python's `s < x` for a statistic `s` and a number `x`. */
  predicate Below(s: Stat, x: real)
  {
    s.Num? && s.v < x
  }

  /** Python's `a < b` for two statistics. */
  predicate BelowStat(a: Stat, b: Stat)
  {
    a.Num? && b.Num? && a.v < b.v
  }
}
