/**
 * `TaskRepositoryImpl`: the repository over the local task table. Each
 * method does what its Swift counterpart does to the table and hands back
 * what the completion handler receives; the store functions of module
 * `Store` specify both.
 */
module Repository {
  import opened Results
  import opened Models
  import opened Dto
  import opened Store

  class TaskRepositoryImpl {
    /** The persisted `TaskEntity` rows, in insertion order. */
    var rows: seq<TaskEntity>
    /** The engine's folding and the DTO date formatter. */
    const engine: Engine

    /** The uniqueness constraint on `id`. */
    ghost predicate Valid()
      reads this
    {
      UniqueIds(rows)
    }

    /** A repository over a store that already holds `stored`. */
    constructor (engine: Engine, stored: seq<TaskEntity>)
      requires UniqueIds(stored)
      ensures Valid() && rows == stored && this.engine == engine
    {
      this.engine := engine;
      rows := stored;
    }

    /** `fetchRemoteTodos`: the `todos` of the decoded response, or the request's error. */
    method FetchRemoteTodos(response: Result<TaskResponse, Error>) returns (r: Result<seq<TaskItem>, Error>)
      ensures response.Success? ==> r == Success(response.value.todos)
      ensures response.Failure? ==> r == Failure(response.error)
    {
      match response
      case Success(body) => r := Success(body.todos);
      case Failure(e) => r := Failure(e);
    }

    /**
     * `saveTasks`: one entity per item in a background context, then one
     * save; the context's rows become visible only if the save succeeds.
     */
    method SaveTasks(tasks: seq<TaskItem>, clock: nat -> Instant, io: Io) returns (r: Outcome<Error>)
      requires Valid()
      modifies this
      ensures Valid()
      ensures Written(rows, r) == Store.SaveTasks(old(rows), tasks, clock, io)
    {
      var staged := rows;
      var i := 0;
      while i < |tasks|
        invariant 0 <= i <= |tasks|
        invariant UniqueIds(staged)
        invariant staged == SaveAll(rows, tasks[..i], clock)
      {
        assert tasks[..i + 1][..i] == tasks[..i];
        staged := Upsert(staged, Hydrate(tasks[i], clock(i)));
        i := i + 1;
      }
      assert tasks[..|tasks|] == tasks;
      match io.writeFault
      case Some(e) => r := Fail(e);
      case None => rows := staged; r := Pass;
    }

    /** `result.map { $0.toDTO() }`. */
    method ToDTOList(fetched: seq<TaskEntity>) returns (dtos: seq<TaskListEntity>)
      ensures dtos == ToDTOs(fetched, engine.format)
    {
      dtos := [];
      var i := 0;
      while i < |fetched|
        invariant 0 <= i <= |fetched|
        invariant |dtos| == i
        invariant forall k :: 0 <= k < i ==> dtos[k] == ToDTO(fetched[k], engine.format)
      {
        dtos := dtos + [ToDTO(fetched[i], engine.format)];
        i := i + 1;
      }
    }

    /** `fetchLocalTodos`: every row, newest first. */
    method FetchLocalTodos(io: Io) returns (r: Result<seq<TaskListEntity>, Error>)
      ensures r == FetchLocal(rows, engine, io)
    {
      match io.readFault
      case Some(e) => r := Failure(e);
      case None =>
        var dtos := ToDTOList(Listing(rows));
        r := Success(dtos);
    }

    /** `searchTasks`: the rows whose title contains `query`, newest first. */
    method SearchTasks(query: string, io: Io) returns (r: Result<seq<TaskListEntity>, Error>)
      ensures r == Search(rows, engine, query, io)
    {
      match io.readFault
      case Some(e) => r := Failure(e);
      case None =>
        var dtos := ToDTOList(SearchRows(rows, engine.fold, query));
        r := Success(dtos);
    }

    /** `clearLocalTasks`: a batch delete of every row, then a save. */
    method ClearLocalTasks(io: Io) returns (r: Outcome<Error>)
      requires Valid()
      modifies this
      ensures Valid()
      ensures Written(rows, r) == Clear(old(rows), io)
    {
      if io.readFault.Some? {
        r := Fail(io.readFault.value);
        return;
      }
      rows := [];
      r := if io.writeFault.Some? then Fail(io.writeFault.value) else Pass;
    }

    /**
     * `createTask`. `idReading` and `stamp` are the two `Date()` readings
     * the body makes; the caller's `date` is not used.
     */
    method CreateTask(title: string, details: Option<string>, date: Option<Instant>,
                      idReading: Instant, stamp: Instant, io: Io) returns (r: Outcome<Error>)
      requires Valid()
      modifies this
      ensures Valid()
      ensures Written(rows, r) == Create(old(rows), title, details, idReading, stamp, io)
    {
      var newTask := NewRow(title, details, idReading, stamp);
      if newTask.id in Ids(rows) {
        r := Fail(ConstraintConflict);
      } else if io.writeFault.Some? {
        r := Fail(io.writeFault.value);
      } else {
        AppendFrame(rows, newTask);
        rows := rows + [newTask];
        r := Pass;
      }
    }

    /** `updateTask`: each attribute becomes `new ?? old` on the row found under `taskId`. */
    method UpdateTask(taskId: int, newTitle: Option<string>, newDescription: Option<string>,
                      newDate: Option<Instant>, newCompleted: Option<bool>, io: Io) returns (r: Outcome<Error>)
      requires Valid()
      modifies this
      ensures Valid()
      ensures Written(rows, r) == Update(old(rows), taskId, Patch(newTitle, newDescription, newDate, newCompleted), io)
    {
      if io.readFault.Some? {
        r := Fail(io.readFault.value);
        return;
      }
      var found := IndexOf(rows, taskId);
      if found.None? {
        r := Fail(UpdateNotFound(taskId));
        return;
      }
      var k := found.value;
      var taskEntity := rows[k];
      var updated := taskEntity.(
        title := if newTitle.Some? then newTitle else taskEntity.title,
        details := if newDescription.Some? then newDescription else taskEntity.details,
        createdAt := if newDate.Some? then newDate else taskEntity.createdAt,
        isCompleted := OrElse(newCompleted, taskEntity.isCompleted));
      if io.writeFault.Some? {
        r := Fail(io.writeFault.value);
        return;
      }
      ReplaceFrame(rows, k, updated);
      rows := rows[k := updated];
      r := Pass;
    }

    /** `deleteTask`: removes the row found under `taskId`. */
    method DeleteTask(taskId: int, io: Io) returns (r: Outcome<Error>)
      requires Valid()
      modifies this
      ensures Valid()
      ensures Written(rows, r) == Delete(old(rows), taskId, io)
    {
      if io.readFault.Some? {
        r := Fail(io.readFault.value);
        return;
      }
      var found := IndexOf(rows, taskId);
      if found.None? {
        r := Fail(DeleteNotFound(taskId));
      } else if io.writeFault.Some? {
        r := Fail(io.writeFault.value);
      } else {
        RemoveFrame(rows, found.value);
        rows := rows[..found.value] + rows[found.value + 1..];
        r := Pass;
      }
    }
  }
}
