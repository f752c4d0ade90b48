/** The single record the dashboard shows and edits (types.ts). */
module Stats {

  /** A student count broken down into boys and girls, stamped with the time it was published.
      The source types the counts as JavaScript numbers; the model uses mathematical integers. */
  datatype StudentStats = StudentStats(total: int, boys: int, girls: int, lastUpdated: string)

  /** The total is the sum of its two parts. */
  predicate Consistent(r: StudentStats) {
    r.total == r.boys + r.girls
  }

  /** No count is negative. */
  predicate NonNegative(r: StudentStats) {
    r.total >= 0 && r.boys >= 0 && r.girls >= 0
  }
}
