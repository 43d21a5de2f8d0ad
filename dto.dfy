/** `TaskEntity.toDTO()`: from a stored row to the record the screens show. */
module Dto {
  import opened Results
  import opened Models

  /**
   * The row as the list and edit screens receive it. `format` is the
   * "dd/MM/yy" `DateFormatter`, left uninterpreted.
   */
  function ToDTO(e: TaskEntity, format: Instant -> string): (d: TaskListEntity)
    ensures d.id == e.id && d.isCompleted == e.isCompleted
    ensures e.title.None? ==> d.title == ""
    ensures e.title.Some? ==> d.title == e.title.value
    ensures e.details.None? ==> d.details == ""
    ensures e.details.Some? ==> d.details == e.details.value
    ensures e.createdAt.None? ==> d.date == ""
    ensures e.createdAt.Some? ==> d.date == format(e.createdAt.value)
  {
    var dateString := match e.createdAt
      case Some(t) => format(t)
      case None => "";
    TaskListEntity(e.id, OrElse(e.title, ""), OrElse(e.details, ""), dateString, e.isCompleted)
  }

  /** `result.map { $0.toDTO() }`: one record per row, in the same order. */
  function ToDTOs(rows: seq<TaskEntity>, format: Instant -> string): (ds: seq<TaskListEntity>)
    ensures |ds| == |rows|
    ensures forall i :: 0 <= i < |rows| ==> ds[i] == ToDTO(rows[i], format)
  {
    if rows == [] then [] else [ToDTO(rows[0], format)] + ToDTOs(rows[1..], format)
  }
}
