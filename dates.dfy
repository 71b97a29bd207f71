/** Dates as the configuration receives them. */
module Dates {
  import opened Wrappers

  /** A date and time as a caller passes it: a wall-clock instant and, when
      the value carries a time zone, its offset from UTC in seconds. A value
      without an offset is a naive datetime. */
  datatype DateTime = DateTime(wall: int, offset: Option<int>)
}
