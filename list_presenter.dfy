/**
 * `TaskListPresenterImpl`: turns the list screen's events into calls on the
 * view, the interactor and the router.
 *
 * The view is held weakly, and each `view?.` call is skipped once it is
 * gone; `viewAttached` stands for whether it is still there. Each call the
 * presenter makes is recorded in `events`.
 */
module ListPresenter {
  import opened Results
  import opened Models
  import opened Text

  /** A call the list presenter makes on its view, interactor or router. */
  datatype ListEvent =
    | ViewShowLoading
    | ViewHideLoading
    | ViewShowTasks(tasks: seq<TaskListEntity>)
    | ViewShowError(message: string)
    | InteractorFetchTasks
    | InteractorSearchTasks(query: string)
    | InteractorToggleTask(taskId: int, newCompleted: bool)
    | InteractorDeleteTask(taskId: int)
    /** `presentTaskEdit(from:task:delegate:)`, with this presenter as the delegate. */
    | RouterPresentTaskEdit(task: Option<TaskListEntity>)

  /** The calls made only while the view is still there. */
  function ViewCalls(viewAttached: bool, calls: seq<ListEvent>): (r: seq<ListEvent>)
    ensures viewAttached ==> r == calls
    ensures !viewAttached ==> r == []
  {
    if viewAttached then calls else []
  }

  /**
   * `didUpdateSearchQuery`: a query that trims to nothing reloads the whole
   * list; any other query is passed on as typed, untrimmed.
   */
  function SearchDispatch(query: string): (e: ListEvent)
    ensures e == InteractorFetchTasks <==> IsBlank(query)
    ensures !IsBlank(query) ==> e == InteractorSearchTasks(query)
    ensures e.InteractorFetchTasks? || e.InteractorSearchTasks?
  {
    if IsBlank(query) then InteractorFetchTasks else InteractorSearchTasks(query)
  }

  /** `toggleTaskCompletion`: ask for the opposite of the shown state. */
  function ToggleRequest(task: TaskListEntity): (e: ListEvent)
    ensures e.InteractorToggleTask? && e.taskId == task.id
    ensures e.newCompleted != task.isCompleted
  {
    InteractorToggleTask(task.id, !task.isCompleted)
  }

  /** A query padded with whitespace dispatches exactly as the bare query would, up to the text passed on. */
  lemma PaddedQueryDispatch(query: string, pad: string)
    requires forall i :: 0 <= i < |pad| ==> IsWhitespaceOrNewline(pad[i])
    ensures SearchDispatch(pad + query + pad).InteractorFetchTasks? <==> SearchDispatch(query).InteractorFetchTasks?
  {
    BlankPadded(query, pad);
  }

  /** Toggling a row shown with the state the first toggle asks for asks for the original state back. */
  lemma ToggleTwiceAsksOriginal(task: TaskListEntity)
    ensures ToggleRequest(task.(isCompleted := ToggleRequest(task).newCompleted)).newCompleted == task.isCompleted
  {
  }

  class TaskListPresenterImpl {
    /** Whether the weakly held view is still there. */
    var viewAttached: bool
    /** Every call made so far, oldest first. */
    var events: seq<ListEvent>

    constructor ()
      ensures viewAttached && events == []
    {
      viewAttached := true;
      events := [];
    }

    method ViewDidLoad()
      modifies this
      ensures viewAttached == old(viewAttached)
      ensures events == old(events) + ViewCalls(viewAttached, [ViewShowLoading]) + [InteractorFetchTasks]
    {
      if viewAttached {
        events := events + [ViewShowLoading];
      }
      events := events + [InteractorFetchTasks];
    }

    method DidLoad(tasks: seq<TaskListEntity>)
      modifies this
      ensures viewAttached == old(viewAttached)
      ensures events == old(events) + ViewCalls(viewAttached, [ViewHideLoading, ViewShowTasks(tasks)])
    {
      if viewAttached {
        events := events + [ViewHideLoading, ViewShowTasks(tasks)];
      }
    }

    /** `didFail(with:)`: the view shows the error's localized description. */
    method DidFail(error: Error)
      modifies this
      ensures viewAttached == old(viewAttached)
      ensures events == old(events) + ViewCalls(viewAttached, [ViewHideLoading, ViewShowError(error.description)])
    {
      if viewAttached {
        events := events + [ViewHideLoading, ViewShowError(error.description)];
      }
    }

    method DidUpdateSearchQuery(query: string)
      modifies this
      ensures viewAttached == old(viewAttached)
      ensures events == old(events) + [SearchDispatch(query)]
    {
      if IsBlank(query) {
        events := events + [InteractorFetchTasks];
      } else {
        events := events + [InteractorSearchTasks(query)];
      }
    }

    method ToggleTaskCompletion(task: TaskListEntity)
      modifies this
      ensures viewAttached == old(viewAttached)
      ensures events == old(events) + [ToggleRequest(task)]
    {
      events := events + [InteractorToggleTask(task.id, !task.isCompleted)];
    }

    /** `didTapCreate`: nothing happens once the view is gone. */
    method DidTapCreate()
      modifies this
      ensures viewAttached == old(viewAttached)
      ensures events == old(events) + ViewCalls(viewAttached, [RouterPresentTaskEdit(None)])
    {
      if !viewAttached {
        return;
      }
      events := events + [RouterPresentTaskEdit(None)];
    }

    /** `didTapEdit(for:)`: nothing happens once the view is gone. */
    method DidTapEdit(task: TaskListEntity)
      modifies this
      ensures viewAttached == old(viewAttached)
      ensures events == old(events) + ViewCalls(viewAttached, [RouterPresentTaskEdit(Some(task))])
    {
      if !viewAttached {
        return;
      }
      events := events + [RouterPresentTaskEdit(Some(task))];
    }

    method DeleteTask(id: int)
      modifies this
      ensures viewAttached == old(viewAttached)
      ensures events == old(events) + ViewCalls(viewAttached, [ViewShowLoading]) + [InteractorDeleteTask(id)]
    {
      if viewAttached {
        events := events + [ViewShowLoading];
      }
      events := events + [InteractorDeleteTask(id)];
    }

    /** `didFinishEditingTask`, the edit screen's delegate callback: reload the list. */
    method DidFinishEditingTask()
      modifies this
      ensures viewAttached == old(viewAttached)
      ensures events == old(events) + ViewCalls(viewAttached, [ViewShowLoading]) + [InteractorFetchTasks]
    {
      if viewAttached {
        events := events + [ViewShowLoading];
      }
      events := events + [InteractorFetchTasks];
    }
  }
}
