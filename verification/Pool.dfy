/** What every component knows of a pool: its workers by name, and how they count as available. */
module Pool {
  type Worker = string

  /** A worker counts as available by recent contact, or by being listed. */
  datatype Mode = RecentContact | Listed
}
