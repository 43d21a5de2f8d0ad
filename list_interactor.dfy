/**
 * `TaskListInteractorImpl`: the list screen's use cases, and the
 * first-launch bootstrap (fetch remote, save, mark launched, read local).
 *
 * The completion-handler chains run in order here. Every collaborator call
 * the interactor makes (to the repository, to the launch manager, and to
 * the presenter) is recorded in `calls`, so the order of the chain can be
 * stated. The `Step` functions give the calls and the new table and
 * defaults for each use case; the class's methods are proved to follow
 * them.
 */
module ListInteractor {
  import opened Results
  import opened Models
  import opened Dto
  import opened Store
  import opened Launch
  import opened Repository

  /** A call the interactor makes on one of its collaborators. */
  datatype ListCall =
    | RepoFetchRemote
    | RepoSave(items: seq<TaskItem>)
    | RepoFetchLocal
    | RepoSearch(query: string)
    | RepoUpdate(taskId: int, patch: Patch)
    | RepoDelete(taskId: int)
    | RepoClear
    | LaunchMarked
    | PresenterDidLoad(tasks: seq<TaskListEntity>)
    | PresenterDidFail(error: Error)

  /** The persistent state the interactor reaches: the task table and the user defaults. */
  datatype Sys = Sys(rows: seq<TaskEntity>, defaults: Defaults)

  /** A use case's effect: the new state and the calls it made, in order. */
  datatype Step = Step(sys: Sys, calls: seq<ListCall>)

  /**
   * What the environment does during one bootstrap: the network's
   * response, the clock readings of the save, and the outcome of the save
   * and of the local read that follows.
   */
  datatype Bootstrap = Bootstrap(
    response: Result<TaskResponse, Error>,
    clock: nat -> Instant,
    save: Io,
    load: Io)

  /** How a read's result reaches the presenter. */
  function Deliver(r: Result<seq<TaskListEntity>, Error>): (c: ListCall)
    ensures c.PresenterDidLoad? <==> r.Success?
    ensures r.Success? ==> c == PresenterDidLoad(r.value)
    ensures r.Failure? ==> c == PresenterDidFail(r.error)
  {
    match r
    case Success(tasks) => PresenterDidLoad(tasks)
    case Failure(e) => PresenterDidFail(e)
  }

  /** `fetchLocal`: read the table, pass the result on. */
  function FetchLocalStep(s: Sys, engine: Engine, load: Io): Step {
    Step(s, [RepoFetchLocal, Deliver(FetchLocal(s.rows, engine, load))])
  }

  /** The items `fetchRemoteTodos` hands on. */
  function RemoteTodos(response: Result<TaskResponse, Error>): Result<seq<TaskItem>, Error> {
    match response
    case Success(body) => Success(body.todos)
    case Failure(e) => Failure(e)
  }

  /**
   * The `saveTasks` call inside `refreshData`, with its completion: on
   * success mark the app launched and read local.
   */
  function SaveFetchedStep(s: Sys, engine: Engine, items: seq<TaskItem>, b: Bootstrap): Step
    requires UniqueIds(s.rows)
  {
    var w := Store.SaveTasks(s.rows, items, b.clock, b.save);
    match w.outcome
    case Fail(e) => Step(s, [RepoSave(items), PresenterDidFail(e)])
    case Pass =>
      var marked := Sys(w.rows, MarkLaunched(s.defaults));
      Step(marked, [RepoSave(items), LaunchMarked] + FetchLocalStep(marked, engine, b.load).calls)
  }

  /**
   * `refreshData`: fetch remote; on success save; on success mark the app
   * launched and read local. Any failure goes to the presenter and stops
   * the chain with the flag untouched.
   */
  function RefreshStep(s: Sys, engine: Engine, b: Bootstrap): Step
    requires UniqueIds(s.rows)
  {
    match RemoteTodos(b.response)
    case Failure(e) => Step(s, [RepoFetchRemote, PresenterDidFail(e)])
    case Success(items) =>
      var saved := SaveFetchedStep(s, engine, items, b);
      Step(saved.sys, [RepoFetchRemote] + saved.calls)
  }

  /** `fetchTasks`: bootstrap on a first launch, otherwise read local. */
  function FetchTasksStep(s: Sys, engine: Engine, b: Bootstrap): (st: Step)
    requires UniqueIds(s.rows)
    ensures UniqueIds(st.sys.rows)
  {
    if FirstLaunch(s.defaults) then RefreshStep(s, engine, b) else FetchLocalStep(s, engine, b.load)
  }

  /** `searchTasks(with:)`: straight to the repository, whatever the flag says. */
  function SearchStep(s: Sys, engine: Engine, query: string, io: Io): Step {
    Step(s, [RepoSearch(query), Deliver(Search(s.rows, engine, query, io))])
  }

  /** The update `toggleTask` issues: only the completion state is passed. */
  function TogglePatch(newCompleted: bool): (p: Patch)
    ensures p.title.None? && p.details.None? && p.date.None?
    ensures p.completed == Some(newCompleted)
  {
    Patch(None, None, None, Some(newCompleted))
  }

  /** `toggleTask`: update, then read local on success. */
  function ToggleStep(s: Sys, engine: Engine, taskId: int, newCompleted: bool, update: Io, load: Io): (st: Step)
    requires UniqueIds(s.rows)
    ensures UniqueIds(st.sys.rows)
  {
    var w := Update(s.rows, taskId, TogglePatch(newCompleted), update);
    var after := Sys(w.rows, s.defaults);
    match w.outcome
    case Fail(e) => Step(after, [RepoUpdate(taskId, TogglePatch(newCompleted)), PresenterDidFail(e)])
    case Pass => Step(after, [RepoUpdate(taskId, TogglePatch(newCompleted))] + FetchLocalStep(after, engine, load).calls)
  }

  /** `deleteTask`: delete, then read local on success. */
  function DeleteStep(s: Sys, engine: Engine, taskId: int, del: Io, load: Io): (st: Step)
    requires UniqueIds(s.rows)
    ensures UniqueIds(st.sys.rows)
  {
    var w := Delete(s.rows, taskId, del);
    var after := Sys(w.rows, s.defaults);
    match w.outcome
    case Fail(e) => Step(after, [RepoDelete(taskId), PresenterDidFail(e)])
    case Pass => Step(after, [RepoDelete(taskId)] + FetchLocalStep(after, engine, load).calls)
  }

  /** `clearAndRefresh`: clear, then bootstrap again on success. */
  function ClearAndRefreshStep(s: Sys, engine: Engine, clear: Io, b: Bootstrap): Step {
    var w := Clear(s.rows, clear);
    var after := Sys(w.rows, s.defaults);
    match w.outcome
    case Fail(e) => Step(after, [RepoClear, PresenterDidFail(e)])
    case Pass =>
      var refresh := RefreshStep(after, engine, b);
      Step(refresh.sys, [RepoClear] + refresh.calls)
  }

  /** Several `fetchTasks` calls one after the other, each with its own environment. */
  function RunFetches(s: Sys, engine: Engine, bs: seq<Bootstrap>): (st: Step)
    requires UniqueIds(s.rows)
    ensures UniqueIds(st.sys.rows)
    decreases |bs|
  {
    if bs == [] then Step(s, [])
    else
      var first := FetchTasksStep(s, engine, bs[0]);
      var rest := RunFetches(first.sys, engine, bs[1..]);
      Step(rest.sys, first.calls + rest.calls)
  }

  // ---------------------------------------------------------------------
  // The bootstrap policy

  /** On a later launch `fetchTasks` only reads local: no remote fetch, no save, no mark. */
  lemma LaterLaunchReadsLocal(s: Sys, engine: Engine, b: Bootstrap)
    requires UniqueIds(s.rows) && !FirstLaunch(s.defaults)
    ensures FetchTasksStep(s, engine, b) ==
      Step(s, [RepoFetchLocal, Deliver(FetchLocal(s.rows, engine, b.load))])
    ensures RepoFetchRemote !in FetchTasksStep(s, engine, b).calls
    ensures LaunchMarked !in FetchTasksStep(s, engine, b).calls
  {
  }

  /**
   * A first launch whose fetch and save succeed runs fetch remote, save,
   * mark launched, read local, in that order; the flag is then set, and the
   * presenter receives the local rows (the saved items merged into what
   * was stored), not the remote items.
   */
  lemma FirstLaunchHydrates(s: Sys, engine: Engine, b: Bootstrap)
    requires UniqueIds(s.rows) && FirstLaunch(s.defaults)
    requires b.response.Success? && b.save.writeFault.None?
    ensures var items := b.response.value.todos;
      var hydrated := SaveAll(s.rows, items, b.clock);
      FetchTasksStep(s, engine, b) ==
        Step(Sys(hydrated, MarkLaunched(s.defaults)),
             [RepoFetchRemote, RepoSave(items), LaunchMarked, RepoFetchLocal,
              Deliver(FetchLocal(hydrated, engine, b.load))])
    ensures !FirstLaunch(FetchTasksStep(s, engine, b).sys.defaults)
    ensures b.load.readFault.None? ==>
      FetchTasksStep(s, engine, b).calls[4] ==
        PresenterDidLoad(ToDTOs(Listing(SaveAll(s.rows, b.response.value.todos, b.clock)), engine.format))
  {
    var items := b.response.value.todos;
    var hydrated := SaveAll(s.rows, items, b.clock);
    var marked := Sys(hydrated, MarkLaunched(s.defaults));
    assert RemoteTodos(b.response) == Success(items);
    assert Store.SaveTasks(s.rows, items, b.clock, b.save) == Written(hydrated, Pass);
    assert SaveFetchedStep(s, engine, items, b) ==
      Step(marked, [RepoSave(items), LaunchMarked] + FetchLocalStep(marked, engine, b.load).calls);
    assert FetchTasksStep(s, engine, b) == RefreshStep(s, engine, b);
    MarkedIsNotFirstLaunch(s.defaults);
  }

  /**
   * A failed remote fetch reports the error, saves nothing and leaves the
   * flag unset, so the next `fetchTasks` fetches remote again.
   */
  lemma RemoteFailureRetries(s: Sys, engine: Engine, b: Bootstrap, next: Bootstrap)
    requires UniqueIds(s.rows) && FirstLaunch(s.defaults) && b.response.Failure?
    ensures FetchTasksStep(s, engine, b) == Step(s, [RepoFetchRemote, PresenterDidFail(b.response.error)])
    ensures FirstLaunch(FetchTasksStep(s, engine, b).sys.defaults)
    ensures FetchTasksStep(FetchTasksStep(s, engine, b).sys, engine, next).calls[0] == RepoFetchRemote
  {
  }

  /** A failed save reports the error, never marks the app launched and changes nothing. */
  lemma SaveFailureLeavesUnmarked(s: Sys, engine: Engine, b: Bootstrap)
    requires UniqueIds(s.rows) && FirstLaunch(s.defaults)
    requires b.response.Success? && b.save.writeFault.Some?
    ensures FetchTasksStep(s, engine, b) ==
      Step(s, [RepoFetchRemote, RepoSave(b.response.value.todos), PresenterDidFail(b.save.writeFault.value)])
    ensures LaunchMarked !in FetchTasksStep(s, engine, b).calls
    ensures FirstLaunch(FetchTasksStep(s, engine, b).sys.defaults)
  {
  }

  /** Once the flag is set, no number of `fetchTasks` calls fetches remote or changes the table. */
  lemma {:induction false} HydratedNeverFetchesRemote(s: Sys, engine: Engine, bs: seq<Bootstrap>)
    requires UniqueIds(s.rows) && !FirstLaunch(s.defaults)
    ensures RepoFetchRemote !in RunFetches(s, engine, bs).calls
    ensures RunFetches(s, engine, bs).sys == s
    decreases |bs|
  {
    if bs != [] {
      LaterLaunchReadsLocal(s, engine, bs[0]);
      HydratedNeverFetchesRemote(s, engine, bs[1..]);
    }
  }

  /**
   * After a first launch whose fetch and save succeed, any number of
   * further `fetchTasks` calls make exactly one remote fetch in total.
   */
  lemma FetchesRemoteOnce(s: Sys, engine: Engine, first: Bootstrap, later: seq<Bootstrap>)
    requires UniqueIds(s.rows) && FirstLaunch(s.defaults)
    requires first.response.Success? && first.save.writeFault.None?
    ensures multiset(RunFetches(s, engine, [first] + later).calls)[RepoFetchRemote] == 1
  {
    var bs := [first] + later;
    assert bs[1..] == later;
    FirstLaunchHydrates(s, engine, first);
    var step := FetchTasksStep(s, engine, first);
    HydratedNeverFetchesRemote(step.sys, engine, later);
    var rest := RunFetches(step.sys, engine, later);
    assert multiset(rest.calls)[RepoFetchRemote] == 0;
    assert multiset(step.calls)[RepoFetchRemote] == 1;
    assert multiset(step.calls + rest.calls) == multiset(step.calls) + multiset(rest.calls);
  }

  // ---------------------------------------------------------------------
  // The other use cases

  /** `searchTasks` forwards the repository's result and never touches the table or the flag. */
  lemma SearchForwards(s: Sys, engine: Engine, query: string, io: Io)
    ensures SearchStep(s, engine, query, io).sys == s
    ensures io.readFault.None? ==>
      SearchStep(s, engine, query, io).calls ==
        [RepoSearch(query), PresenterDidLoad(ToDTOs(SearchRows(s.rows, engine.fold, query), engine.format))]
    ensures io.readFault.Some? ==>
      SearchStep(s, engine, query, io).calls == [RepoSearch(query), PresenterDidFail(io.readFault.value)]
    ensures RepoFetchRemote !in SearchStep(s, engine, query, io).calls
    ensures LaunchMarked !in SearchStep(s, engine, query, io).calls
  {
  }

  /**
   * `toggleTask` sends only the new completion state; on success the row
   * under `taskId` has it, nothing else changes, and local is read back.
   */
  lemma ToggleSetsCompletion(s: Sys, engine: Engine, taskId: int, newCompleted: bool, update: Io, load: Io)
    requires UniqueIds(s.rows) && taskId in Ids(s.rows)
    requires update.readFault.None? && update.writeFault.None?
    ensures var st := ToggleStep(s, engine, taskId, newCompleted, update, load);
      && st.calls == [RepoUpdate(taskId, Patch(None, None, None, Some(newCompleted))), RepoFetchLocal,
                      Deliver(FetchLocal(st.sys.rows, engine, load))]
      && Lookup(st.sys.rows, taskId) == Some(Lookup(s.rows, taskId).value.(isCompleted := newCompleted))
      && (forall other :: other != taskId ==> Lookup(st.sys.rows, other) == Lookup(s.rows, other))
      && st.sys.defaults == s.defaults
  {
    UpdatePresent(s.rows, taskId, TogglePatch(newCompleted), update);
  }

  /** A failed toggle reports the same error and does not reload. */
  lemma ToggleFailureReports(s: Sys, engine: Engine, taskId: int, newCompleted: bool, update: Io, load: Io)
    requires UniqueIds(s.rows)
    requires Update(s.rows, taskId, TogglePatch(newCompleted), update).outcome.Fail?
    ensures ToggleStep(s, engine, taskId, newCompleted, update, load) ==
      Step(s, [RepoUpdate(taskId, TogglePatch(newCompleted)),
               PresenterDidFail(Update(s.rows, taskId, TogglePatch(newCompleted), update).outcome.error)])
  {
  }

  /**
   * A failed delete reports the repository's error and never loads; a
   * successful one removes the row and reads local back.
   */
  lemma DeleteReports(s: Sys, engine: Engine, taskId: int, del: Io, load: Io)
    requires UniqueIds(s.rows)
    ensures var w := Delete(s.rows, taskId, del);
      w.outcome.Fail? ==>
        DeleteStep(s, engine, taskId, del, load) == Step(s, [RepoDelete(taskId), PresenterDidFail(w.outcome.error)])
    ensures var w := Delete(s.rows, taskId, del);
      w.outcome.Pass? ==>
        DeleteStep(s, engine, taskId, del, load).calls ==
          [RepoDelete(taskId), RepoFetchLocal, Deliver(FetchLocal(w.rows, engine, load))]
    ensures forall tasks :: PresenterDidLoad(tasks) in DeleteStep(s, engine, taskId, del, load).calls ==>
      Delete(s.rows, taskId, del).outcome.Pass?
  {
  }

  /**
   * `clearAndRefresh` bootstraps again only after a successful clear. A
   * failed execute changes nothing; a failed save after the execute leaves
   * the table empty. Either failure is reported and nothing is fetched.
   */
  lemma ClearThenRefresh(s: Sys, engine: Engine, clear: Io, b: Bootstrap)
    ensures clear.readFault.Some? ==>
      ClearAndRefreshStep(s, engine, clear, b) == Step(s, [RepoClear, PresenterDidFail(clear.readFault.value)])
    ensures Clear(s.rows, clear).outcome.Pass? ==>
      ClearAndRefreshStep(s, engine, clear, b) ==
        var refresh := RefreshStep(Sys([], s.defaults), engine, b);
        Step(refresh.sys, [RepoClear] + refresh.calls)
    ensures clear.readFault.None? && clear.writeFault.Some? ==>
      ClearAndRefreshStep(s, engine, clear, b) == Step(Sys([], s.defaults), [RepoClear, PresenterDidFail(clear.writeFault.value)])
    ensures Clear(s.rows, clear).outcome.Fail? ==>
      RepoFetchRemote !in ClearAndRefreshStep(s, engine, clear, b).calls
  {
  }

  // ---------------------------------------------------------------------
  // The interactor

  class TaskListInteractorImpl {
    const repository: TaskRepositoryImpl
    const launchManager: LaunchManagerImpl
    /** Every call made on the collaborators so far, oldest first. */
    var calls: seq<ListCall>

    ghost predicate Valid()
      reads this, repository
    {
      repository.Valid()
    }

    ghost function State(): Sys
      reads this, repository, launchManager
    {
      Sys(repository.rows, launchManager.defaults)
    }

    constructor (repository: TaskRepositoryImpl, launchManager: LaunchManagerImpl)
      requires repository.Valid()
      ensures Valid() && calls == []
      ensures this.repository == repository && this.launchManager == launchManager
    {
      this.repository := repository;
      this.launchManager := launchManager;
      calls := [];
    }

    method FetchTasks(b: Bootstrap)
      requires Valid()
      modifies this, repository, launchManager
      ensures Valid()
      ensures var st := FetchTasksStep(old(State()), repository.engine, b);
        State() == st.sys && calls == old(calls) + st.calls
    {
      if launchManager.IsFirstLaunch() {
        RefreshData(b);
      } else {
        FetchLocal(b.load);
      }
    }

    method SearchTasks(query: string, io: Io)
      requires Valid()
      modifies this
      ensures Valid() && State() == old(State())
      ensures calls == old(calls) + SearchStep(old(State()), repository.engine, query, io).calls
    {
      calls := calls + [RepoSearch(query)];
      var result := repository.SearchTasks(query, io);
      calls := calls + [Deliver(result)];
    }

    method ToggleTask(taskId: int, newCompleted: bool, update: Io, load: Io)
      requires Valid()
      modifies this, repository
      ensures Valid()
      ensures var st := ToggleStep(old(State()), repository.engine, taskId, newCompleted, update, load);
        State() == st.sys && calls == old(calls) + st.calls
    {
      calls := calls + [RepoUpdate(taskId, TogglePatch(newCompleted))];
      var result := repository.UpdateTask(taskId, None, None, None, Some(newCompleted), update);
      match result
      case Pass => FetchLocal(load);
      case Fail(e) => calls := calls + [PresenterDidFail(e)];
    }

    method DeleteTask(taskId: int, del: Io, load: Io)
      requires Valid()
      modifies this, repository
      ensures Valid()
      ensures var st := DeleteStep(old(State()), repository.engine, taskId, del, load);
        State() == st.sys && calls == old(calls) + st.calls
    {
      calls := calls + [RepoDelete(taskId)];
      var result := repository.DeleteTask(taskId, del);
      match result
      case Pass => FetchLocal(load);
      case Fail(e) => calls := calls + [PresenterDidFail(e)];
    }

    /** `refreshData` (private in the app). */
    method RefreshData(b: Bootstrap)
      requires Valid()
      modifies this, repository, launchManager
      ensures Valid()
      ensures var st := RefreshStep(old(State()), repository.engine, b);
        State() == st.sys && calls == old(calls) + st.calls
    {
      calls := calls + [RepoFetchRemote];
      var remote := repository.FetchRemoteTodos(b.response);
      match remote
      case Failure(e) => calls := calls + [PresenterDidFail(e)];
      case Success(todos) => SaveFetched(todos, b);
    }

    /** The `saveTasks` call of `refreshData` and its completion handler. */
    method SaveFetched(todos: seq<TaskItem>, b: Bootstrap)
      requires Valid()
      modifies this, repository, launchManager
      ensures Valid()
      ensures var st := SaveFetchedStep(old(State()), repository.engine, todos, b);
        State() == st.sys && calls == old(calls) + st.calls
    {
      ghost var start := State();
      ghost var before := calls;
      calls := calls + [RepoSave(todos)];
      var saveResult := repository.SaveTasks(todos, b.clock, b.save);
      ghost var w := Store.SaveTasks(start.rows, todos, b.clock, b.save);
      assert repository.rows == w.rows && saveResult == w.outcome;
      match saveResult
      case Fail(e) => calls := calls + [PresenterDidFail(e)];
      case Pass =>
        launchManager.MarkAppLaunched();
        calls := calls + [LaunchMarked];
        ghost var marked := Sys(w.rows, MarkLaunched(start.defaults));
        assert State() == marked;
        ghost var middle := calls;
        FetchLocal(b.load);
        assert calls == middle + FetchLocalStep(marked, repository.engine, b.load).calls;
        assert middle == before + [RepoSave(todos), LaunchMarked];
    }

    /** `clearAndRefresh` (private in the app). */
    method ClearAndRefresh(clear: Io, b: Bootstrap)
      requires Valid()
      modifies this, repository, launchManager
      ensures Valid()
      ensures var st := ClearAndRefreshStep(old(State()), repository.engine, clear, b);
        State() == st.sys && calls == old(calls) + st.calls
    {
      calls := calls + [RepoClear];
      var clearResult := repository.ClearLocalTasks(clear);
      match clearResult
      case Fail(e) => calls := calls + [PresenterDidFail(e)];
      case Pass => RefreshData(b);
    }

    /** `fetchLocal` (private in the app). */
    method FetchLocal(load: Io)
      requires Valid()
      modifies this
      ensures Valid() && State() == old(State())
      ensures calls == old(calls) + FetchLocalStep(old(State()), repository.engine, load).calls
    {
      calls := calls + [RepoFetchLocal];
      var result := repository.FetchLocalTodos(load);
      calls := calls + [Deliver(result)];
    }
  }
}
