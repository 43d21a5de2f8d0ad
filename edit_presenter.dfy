/**
 * `TaskEditPresenterImpl`: decides what leaving the edit screen does, and
 * relays the save's outcome to the view and to the list screen.
 *
 * The view and the delegate are held weakly; `viewAttached` and
 * `delegateAttached` stand for whether each is still there, and a call on
 * one that is gone is skipped. Calls on the view and the interactor are
 * recorded in `events`; the delegate is the list presenter itself.
 */
module EditPresenter {
  import opened Results
  import opened Models
  import opened Text
  import opened Store
  import opened EditInteractor
  import ListPresenter

  /** The alert shown when the title is blank but the details are not. */
  const EmptyTitleMessage: string :=
    "Заголовок зачем-то не может быть пустым \U{1F937}\U{200D}\U{2642}\U{FE0F}"

  /** What `didTapBack(title:details:)` does. */
  datatype BackDecision =
    | CloseView
    | RejectEmptyTitle
    | UpdateExisting(id: int, title: string, details: string)
    | CreateNew(title: string, details: string)

  /**
   * `didTapBack(title:details:)`: both fields blank closes the screen
   * without saving; a blank title alone is refused; otherwise the trimmed
   * fields update the task being edited, or create a new one.
   */
  function DecideBack(title: Option<string>, details: Option<string>, task: Option<TaskListEntity>): (d: BackDecision)
    ensures d.CloseView? <==> IsBlank(OrElse(title, "")) && IsBlank(OrElse(details, ""))
    ensures d.RejectEmptyTitle? <==> IsBlank(OrElse(title, "")) && !IsBlank(OrElse(details, ""))
    ensures d.UpdateExisting? <==> !IsBlank(OrElse(title, "")) && task.Some?
    ensures d.CreateNew? <==> !IsBlank(OrElse(title, "")) && task.None?
    ensures d.UpdateExisting? ==> d.id == task.value.id
    ensures (d.UpdateExisting? || d.CreateNew?) ==>
      && d.title == Trim(OrElse(title, "")) && d.title != []
      && d.details == Trim(OrElse(details, ""))
  {
    var trimmedTitle := Trim(OrElse(title, ""));
    var trimmedDescription := Trim(OrElse(details, ""));
    if trimmedTitle == [] && trimmedDescription == [] then CloseView
    else if trimmedTitle == [] then RejectEmptyTitle
    else if task.Some? then UpdateExisting(task.value.id, trimmedTitle, trimmedDescription)
    else CreateNew(trimmedTitle, trimmedDescription)
  }

  /** A call the edit presenter makes on its view, its interactor or its delegate. */
  datatype EditEvent =
    | ViewShowTask(task: Option<TaskListEntity>)
    | ViewClose
    | ViewShowError(message: string)
    | InteractorUpdateTask(id: int, title: string, details: Option<string>)
    | InteractorCreateTask(title: string, details: Option<string>)
    | DelegateDidFinishEditing

  /** The calls a back tap makes, given whether the view is still there. */
  function BackEvents(d: BackDecision, viewAttached: bool): (r: seq<EditEvent>)
    ensures d.CloseView? ==> r == (if viewAttached then [ViewClose] else [])
    ensures d.RejectEmptyTitle? ==> r == (if viewAttached then [ViewShowError(EmptyTitleMessage)] else [])
    ensures d.UpdateExisting? ==> r == [InteractorUpdateTask(d.id, d.title, Some(d.details))]
    ensures d.CreateNew? ==> r == [InteractorCreateTask(d.title, Some(d.details))]
    ensures viewAttached ==> |r| == 1
  {
    match d
    case CloseView => if viewAttached then [ViewClose] else []
    case RejectEmptyTitle => if viewAttached then [ViewShowError(EmptyTitleMessage)] else []
    case UpdateExisting(id, t, ds) => [InteractorUpdateTask(id, t, Some(ds))]
    case CreateNew(t, ds) => [InteractorCreateTask(t, Some(ds))]
  }

  /** A back tap never asks the interactor to save a blank title. */
  lemma NeverSavesBlankTitle(title: Option<string>, details: Option<string>, task: Option<TaskListEntity>, viewAttached: bool)
    ensures forall e :: e in BackEvents(DecideBack(title, details, task), viewAttached) ==>
      (e.InteractorUpdateTask? || e.InteractorCreateTask?) ==> !IsBlank(e.title) && e.title == Trim(e.title)
  {
    var d := DecideBack(title, details, task);
    if d.UpdateExisting? || d.CreateNew? {
      TrimIdempotent(OrElse(title, ""));
    }
  }

  /**
   * Saving an edit of a stored task stores the trimmed title and details
   * and keeps the task's id, creation date and completion state.
   */
  lemma SavedEditIsTrimmed(rows: seq<TaskEntity>, title: Option<string>, details: Option<string>,
                           task: TaskListEntity, io: Io)
    requires UniqueIds(rows) && task.id in Ids(rows)
    requires io.readFault.None? && io.writeFault.None?
    requires !IsBlank(OrElse(title, ""))
    ensures var d := DecideBack(title, details, Some(task));
      var w := Update(rows, task.id, EditPatch(d.title, Some(d.details)), io);
      var before := Lookup(rows, task.id).value;
      && w.outcome == Pass
      && Lookup(w.rows, task.id) == Some(before.(title := Some(Trim(OrElse(title, ""))),
                                                details := Some(Trim(OrElse(details, "")))))
  {
    var d := DecideBack(title, details, Some(task));
    EditKeepsRest(rows, task.id, d.title, Some(d.details), io);
  }

  class TaskEditPresenterImpl {
    /** Whether the weakly held view is still there. */
    var viewAttached: bool
    /** Whether the weakly held delegate is still there. */
    var delegateAttached: bool
    const delegate: ListPresenter.TaskListPresenterImpl
    /** The task being edited; none when creating one. */
    const task: Option<TaskListEntity>
    /** Every call made on the view, the interactor and the delegate so far, oldest first. */
    var events: seq<EditEvent>

    constructor (task: Option<TaskListEntity>, delegate: ListPresenter.TaskListPresenterImpl)
      ensures viewAttached && delegateAttached && events == []
      ensures this.task == task && this.delegate == delegate
    {
      viewAttached := true;
      delegateAttached := true;
      this.delegate := delegate;
      this.task := task;
      events := [];
    }

    method ViewDidLoad()
      modifies this
      ensures viewAttached == old(viewAttached) && delegateAttached == old(delegateAttached)
      ensures events == old(events) + (if viewAttached then [ViewShowTask(task)] else [])
    {
      if viewAttached {
        events := events + [ViewShowTask(task)];
      }
    }

    method DidTapBack(title: Option<string>, details: Option<string>)
      modifies this
      ensures viewAttached == old(viewAttached) && delegateAttached == old(delegateAttached)
      ensures events == old(events) + BackEvents(DecideBack(title, details, task), viewAttached)
    {
      var trimmedTitle := Trim(OrElse(title, ""));
      var trimmedDescription := Trim(OrElse(details, ""));
      if trimmedTitle == [] && trimmedDescription == [] {
        if viewAttached {
          events := events + [ViewClose];
        }
        return;
      }
      if trimmedTitle == [] {
        if viewAttached {
          events := events + [ViewShowError(EmptyTitleMessage)];
        }
        return;
      }
      match task
      case Some(t) => events := events + [InteractorUpdateTask(t.id, trimmedTitle, Some(trimmedDescription))];
      case None => events := events + [InteractorCreateTask(trimmedTitle, Some(trimmedDescription))];
    }

    /** `didFinishSaving`: tell the list screen to reload, then close. */
    method DidFinishSaving()
      modifies this, delegate
      ensures viewAttached == old(viewAttached) && delegateAttached == old(delegateAttached)
      ensures events == old(events) + (if delegateAttached then [DelegateDidFinishEditing] else [])
                                     + (if viewAttached then [ViewClose] else [])
      ensures delegate.viewAttached == old(delegate.viewAttached)
      ensures delegate.events == old(delegate.events) +
        (if delegateAttached
         then ListPresenter.ViewCalls(delegate.viewAttached, [ListPresenter.ViewShowLoading]) + [ListPresenter.InteractorFetchTasks]
         else [])
    {
      if delegateAttached {
        events := events + [DelegateDidFinishEditing];
        delegate.DidFinishEditingTask();
      }
      if viewAttached {
        events := events + [ViewClose];
      }
    }

    /** `didFail(with:)`: the view shows the error's localized description. */
    method DidFail(error: Error)
      modifies this
      ensures viewAttached == old(viewAttached) && delegateAttached == old(delegateAttached)
      ensures events == old(events) + (if viewAttached then [ViewShowError(error.description)] else [])
    {
      if viewAttached {
        events := events + [ViewShowError(error.description)];
      }
    }
  }
}
