/**
 * `TaskEditInteractorImpl`: saves what the edit screen asks for and reports
 * the outcome back to its presenter, recorded here in `reports`.
 */
module EditInteractor {
  import opened Results
  import opened Models
  import opened Store
  import opened Repository

  /** A callback the interactor makes on its presenter. */
  datatype EditReport = PresenterDidFinishSaving | PresenterDidFail(error: Error)

  /** How a write's outcome reaches the presenter. */
  function Report(outcome: Outcome<Error>): (r: EditReport)
    ensures r == PresenterDidFinishSaving <==> outcome.Pass?
    ensures outcome.Fail? ==> r == PresenterDidFail(outcome.error)
  {
    match outcome
    case Pass => PresenterDidFinishSaving
    case Fail(e) => PresenterDidFail(e)
  }

  /** The update `updateTask(id:title:details:)` issues: title and details only. */
  function EditPatch(title: string, details: Option<string>): (p: Patch)
    ensures p.title == Some(title) && p.details == details
    ensures p.date.None? && p.completed.None?
  {
    Patch(Some(title), details, None, None)
  }

  /**
   * An edit of a stored task sets its title (and its details, when given)
   * and keeps its id, creation date, completion state and owner.
   */
  lemma EditKeepsRest(rows: seq<TaskEntity>, id: int, title: string, details: Option<string>, io: Io)
    requires UniqueIds(rows) && id in Ids(rows)
    requires io.readFault.None? && io.writeFault.None?
    ensures var w := Update(rows, id, EditPatch(title, details), io);
      var before := Lookup(rows, id).value;
      && w.outcome == Pass
      && Lookup(w.rows, id).Some?
      && var after := Lookup(w.rows, id).value;
      && after.title == Some(title)
      && after.details == (if details.Some? then details else before.details)
      && after.id == before.id && after.createdAt == before.createdAt
      && after.isCompleted == before.isCompleted && after.userId == before.userId
  {
    UpdatePresent(rows, id, EditPatch(title, details), io);
  }

  class TaskEditInteractorImpl {
    const repository: TaskRepositoryImpl
    /** Every callback made on the presenter so far, oldest first. */
    var reports: seq<EditReport>

    constructor (repository: TaskRepositoryImpl)
      ensures this.repository == repository && reports == []
    {
      this.repository := repository;
      reports := [];
    }

    /**
     * `createTask(title:details:)`: passes the current time as the date
     * (which the repository does not use) and reports the outcome.
     */
    method CreateTask(title: string, details: Option<string>, now: Instant,
                      idReading: Instant, stamp: Instant, io: Io)
      requires repository.Valid()
      modifies this, repository
      ensures repository.Valid()
      ensures var w := Create(old(repository.rows), title, details, idReading, stamp, io);
        repository.rows == w.rows && reports == old(reports) + [Report(w.outcome)]
    {
      var result := repository.CreateTask(title, details, Some(now), idReading, stamp, io);
      reports := reports + [Report(result)];
    }

    /** `updateTask(id:title:details:)`: never touches the date or the completion state. */
    method UpdateTask(id: int, title: string, details: Option<string>, io: Io)
      requires repository.Valid()
      modifies this, repository
      ensures repository.Valid()
      ensures var w := Update(old(repository.rows), id, EditPatch(title, details), io);
        repository.rows == w.rows && reports == old(reports) + [Report(w.outcome)]
    {
      var result := repository.UpdateTask(id, Some(title), details, None, None, io);
      reports := reports + [Report(result)];
    }
  }
}
