/**
 * The records the app moves between layers: the remote item, the stored
 * row, the row as the screens see it, and the error a completion carries.
 */
module Models {
  import opened Results

  /**
   * A `Date`, as its `timeIntervalSince1970`: seconds, with a fraction,
   * since 1 January 1970.
   */
  type Instant = real

  /**
   * Swift's `Int64(x)` for a `Double`: the integer part, rounding toward
   * zero (so -2.5 becomes -2, not -3).
   */
  function TruncateTowardZero(x: real): (r: int)
    ensures x >= 0.0 ==> r as real <= x < r as real + 1.0
    ensures x < 0.0 ==> r as real - 1.0 < x <= r as real
  {
    if x >= 0.0 then x.Floor else -((-x).Floor)
  }

  /** One element of the `todos` array of the remote listing. */
  datatype TaskItem = TaskItem(id: int, todo: string, completed: bool, userId: int)

  /** The decoded body of the remote listing; only `todos` is used. */
  datatype TaskResponse = TaskResponse(todos: seq<TaskItem>, total: int, skip: int, limit: int)

  /**
   * A stored `TaskEntity` row. The optional attributes are optional in the
   * data model too, so a row may hold nil for them.
   */
  datatype TaskEntity = TaskEntity(
    id: int,
    title: Option<string>,
    details: Option<string>,
    createdAt: Option<Instant>,
    isCompleted: bool,
    userId: int)

  /** The row as handed to the presenters: no optionals, the date already formatted. */
  datatype TaskListEntity = TaskListEntity(
    id: int,
    title: string,
    details: string,
    date: string,
    isCompleted: bool)

  /** An `NSError`: its domain, its code and its `localizedDescription`. */
  datatype Error = Error(domain: string, code: int, description: string)
}
