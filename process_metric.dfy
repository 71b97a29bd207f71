/** The base of the process metrics: which part of the history a metric
    walks, chosen from a date range, a commit range or a single commit. */
module ProcessMetric {
  import opened Wrappers
  import opened History
  import opened Dates

  /** The traversal a metric asks the repository analyser for: one commit,
      or a range bounded by dates and/or commits walked in a given order. */
  datatype Traversal =
    | SingleCommit(path: string, commit: string)
    | CommitRange(path: string, startDate: Option<DateTime>, endDate: Option<DateTime>,
                  startCommit: Option<string>, endCommit: Option<string>, order: string)

  /** Python truthiness of an optional commit hash: present and not empty.
      A datetime is always truthy, so a date counts as soon as it is given. */
  predicate Given(c: Option<string>) {
    c.Some? && c.value != ""
  }

  const MissingStart := "Must specify either start_date or initial_commit"
  const MissingEnd := "Must specify either end_date or final_commit"

  /** The order every range traversal asks for. */
  const RangeOrder := "reverse"

  /** The constructor's checks and its choice of traversal; a failure is the
      message of the `ValueError` it raises. The start bound is checked
      before the end bound. */
  function Configure(path: string, startDate: Option<DateTime>, endDate: Option<DateTime>,
                     initialCommit: Option<string>, finalCommit: Option<string>): (r: Result<Traversal, string>)
    ensures r == Failure(MissingStart) <==> startDate.None? && !Given(initialCommit)
    ensures r == Failure(MissingEnd) <==> (startDate.Some? || Given(initialCommit)) && endDate.None? && !Given(finalCommit)
    ensures r.Success? <==> (startDate.Some? || Given(initialCommit)) && (endDate.Some? || Given(finalCommit))
    // equal, non-empty commits select that one commit, and nothing else does
    ensures r.Success? && r.value.SingleCommit? <==> r.Success? && Given(initialCommit) && initialCommit == finalCommit
    ensures r.Success? && r.value.SingleCommit? ==> r.value == SingleCommit(path, initialCommit.value)
    // every other accepted call walks a range in one fixed order, with all
    // four bounds passed on as given
    ensures r.Success? && r.value.CommitRange? ==>
              r.value == CommitRange(path, startDate, endDate, initialCommit, finalCommit, RangeOrder)
  {
    if !(startDate.Some? || Given(initialCommit)) then Failure(MissingStart)
    else if !(endDate.Some? || Given(finalCommit)) then Failure(MissingEnd)
    else if Given(initialCommit) && Given(finalCommit) && initialCommit == finalCommit then
      Success(SingleCommit(path, initialCommit.value))
    else
      Success(CommitRange(path, startDate, endDate, initialCommit, finalCommit, RangeOrder))
  }

  /** The placeholder value of a metric that computes nothing. */
  function Compute(): (r: int)
    ensures r == 0
  {
    0
  }
}
