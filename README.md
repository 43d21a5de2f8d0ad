# TaskManagerEffectiveTrial, modelled in Dafny

TaskManagerEffectiveTrial is an iOS to-do list app. On its first launch it
downloads a list of to-dos, stores them in Core Data and marks the app as
launched. After that it only works on the local store: listing (newest
first), title search, create, edit, toggle and delete. The screens follow
the VIPER pattern: view, interactor, presenter, entity and router.

This project models:

- The task store behind `TaskRepositoryImpl`. The Core Data table is a
  sequence of rows with unique ids, and the repository is a class holding it.
- The first-launch bootstrap in `TaskListInteractorImpl`, with the
  `LaunchManagerImpl` flag kept in a key-value map of user defaults.
- The decision rules of the two presenters.
- The forwarding done by the edit interactor.
- The entity-to-record mapping `toDTO`.

Modules, one per file:

| file | module | models |
|---|---|---|
| `results.dfy` | `Results` | `Option`, `Result`, and `Outcome` (a `Result<Void, Error>`) |
| `text.dfy` | `Text` | trimming of `whitespacesAndNewlines`, substring containment, decimal rendering |
| `models.dfy` | `Models` | the record types `TaskItem`, `TaskResponse`, `TaskEntity`, `TaskListEntity`, `Error` |
| `dto.dfy` | `Dto` | `TaskEntity.toDTO()` |
| `store.dfy` | `Store` | the table and what each repository operation does to it, with their properties |
| `repository.dfy` | `Repository` | `TaskRepositoryImpl`, a class whose methods are proved to follow `Store` |
| `launch.dfy` | `Launch` | the user-defaults map, the JSON `Bool` round trip, `LaunchManagerImpl` |
| `list_interactor.dfy` | `ListInteractor` | `TaskListInteractorImpl`, and a `Step` function per use case |
| `list_presenter.dfy` | `ListPresenter` | `TaskListPresenterImpl` |
| `edit_interactor.dfy` | `EditInteractor` | `TaskEditInteractorImpl` |
| `edit_presenter.dfy` | `EditPresenter` | `TaskEditPresenterImpl` and the back-button decision |

Modelling choices:

- **Inputs from outside are parameters.**
  - Each persistence call gets an `Io(readFault, writeFault)`. It says whether the fetch or execute fails, and whether `context.save()` fails.
  - The network's decoded `Result<TaskResponse, Error>` is a parameter.
  - Each `Date()` reading is a parameter. `saveTasks` gets a clock `nat -> Instant`, one reading per item.
  - The date formatter and the case and diacritic folding of `CONTAINS[cd]` are uninterpreted functions, held in an `Engine`.
  - `Instant` is seconds since 1970, as a `real`.
- **Saving is an upsert.** `saveTasks` sets `NSMergeByPropertyObjectTrumpMergePolicy` and relies on a uniqueness constraint on `id`. The model reads that as insert-or-replace by id. When one batch repeats an id, the model lets the last item win; Core Data does not document which of two objects inserted into one context under the same constrained id survives, so this is a modelling choice.
- **A duplicate id on create is a failure.** `createTask` keeps the default error merge policy, so a new row whose second-based id already exists fails to save. The error is Cocoa error 133021 (`ConstraintConflict`), and the table is unchanged.
- **Clearing acts on the store directly.** `clearLocalTasks` runs an `NSBatchDeleteRequest`, which bypasses the context. So if the save after a successful execute fails, the rows are already gone but failure is reported.
- **A found row is always saved.** `updateTask` assigns all four attributes and then saves when `context.hasChanges`. An assignment marks the object changed even when the value is equal, so the model attempts the save for every found row. An update that changes nothing leaves the table as it was but still fails when the save fails.
- **Rows without a date sort last.** In the listing, rows with the same `createdAt` stay in stored order, and a nil `createdAt` counts as the oldest.
- **An empty search needle matches nothing**, as in Foundation's substring search.
- **Objects held weakly are booleans.**
  - The presenters hold their view and delegate weakly. `viewAttached` and `delegateAttached` say whether each is still there, and calls on an object that is gone are skipped.
  - The interactors' weak references to their presenter are taken to be present.
- **Callbacks are recorded in "calls" traces**: `calls`, `events` and `reports`. Each use case's callback chain runs to completion in order.

## Model

| member | source | states |
|---|---|---|
| Text.Trim | TaskManagerEffectiveTrial/Modules/TaskEdit/TaskEditPresenter.swift:37-38 | the result is the slice of the input from its first to its last non-whitespace character: everything before and after it is whitespace, and it neither starts nor ends with whitespace; it is empty exactly when every character is whitespace or a newline |
| Text.IsBlank | TaskManagerEffectiveTrial/Modules/TaskList/TaskListPresenter.swift:45 | a string trims to nothing exactly when every character is whitespace or a newline |
| Text.TrimIdempotent | TaskManagerEffectiveTrial/Modules/TaskEdit/TaskEditPresenter.swift:37-38 | trimming a trimmed string changes nothing |
| Text.BlankPadded | TaskManagerEffectiveTrial/Modules/TaskList/TaskListPresenter.swift:45 | surrounding a string with whitespace does not change whether it trims to nothing |
| Text.NatToDecimal | TaskManagerEffectiveTrial/Core/Repository/TaskRepository.swift:151 | a non-empty string of decimal digits without a leading zero that reads back as the number |
| Text.IntToDecimal | TaskManagerEffectiveTrial/Core/Repository/TaskRepository.swift:151 | the interpolated id: a minus sign exactly when the id is negative, then only digits, reading back as the id |
| Text.Contains | TaskManagerEffectiveTrial/Core/Repository/TaskRepository.swift:88 | `CONTAINS`: the needle occurs as a contiguous block of the text, and an empty needle is found nowhere; `ContainsInfix` shows a non-empty needle is found wherever it is written |
| Text.ContainsInfix | TaskManagerEffectiveTrial/Core/Repository/TaskRepository.swift:88 | a non-empty string is contained in any text that has it as a block, so in particular in itself |
| Models.TruncateTowardZero | TaskManagerEffectiveTrial/Core/Repository/TaskRepository.swift:126 | `Int64(Date().timeIntervalSince1970)` drops the fraction toward zero: never above a non-negative reading, never below a negative one, and less than one away |
| Dto.ToDTO | TaskManagerEffectiveTrial/Core/Networking/Models/TaskEntity+DTO.swift:4-17 | id and completion are copied; a nil title, nil details or nil date become ""; otherwise the title and details are copied and the date is the formatter's image of `createdAt` |
| Dto.ToDTOs | TaskManagerEffectiveTrial/Core/Repository/TaskRepository.swift:73 | one record per row, in the rows' order, each `toDTO` of its row |
| Store.UpdateNotFound | TaskManagerEffectiveTrial/Core/Repository/TaskRepository.swift:149-151 | the update's not-found error has domain `TaskRepositoryError` and code 404 |
| Store.DeleteNotFound | TaskManagerEffectiveTrial/Core/Repository/TaskRepository.swift:183-185 | the delete's not-found error has domain `TaskRepositoryError` and code 404 |
| Store.IndexOf | TaskManagerEffectiveTrial/Core/Repository/TaskRepository.swift:143-148 | the fetch `id == taskId` with limit 1 finds the first row with that id, and finds none exactly when no row has it |
| Store.Lookup | TaskManagerEffectiveTrial/Core/Repository/TaskRepository.swift:143-148 | a row is found exactly when its id is stored, and the row found carries that id |
| Store.Upsert | TaskManagerEffectiveTrial/Core/Repository/TaskRepository.swift:43-54 | after inserting a row under the merge policy, ids stay unique |
| Store.UpsertFrame | TaskManagerEffectiveTrial/Core/Repository/TaskRepository.swift:43-54 | the id set gains the row's id, the count grows only for a new id, the row is stored under its id, and every other id maps to what it did before |
| Store.Hydrate | TaskManagerEffectiveTrial/Core/Repository/TaskRepository.swift:46-53 | the row for a remote item keeps its id, `userId` and completion, takes `todo` as title, the fixed placeholder as details and the clock reading as `createdAt` |
| Store.SaveAll | TaskManagerEffectiveTrial/Core/Repository/TaskRepository.swift:45-54 | after the `forEach` the ids are still unique |
| Store.SaveAllIds | TaskManagerEffectiveTrial/Core/Repository/TaskRepository.swift:45-54 | after the `forEach` the stored ids are the old ids plus every item's id |
| Store.SaveAllLookup | TaskManagerEffectiveTrial/Core/Repository/TaskRepository.swift:43-54 | each id holds the row hydrated from the last item with that id (the last duplicate wins), or the old row when no item has it |
| Store.SaveAllKeepsOthers | TaskManagerEffectiveTrial/Core/Repository/TaskRepository.swift:43-54 | a row whose id no item carries is left as it was |
| Store.SaveAllRepeat | TaskManagerEffectiveTrial/Core/Repository/TaskRepository.swift:43-54 | saving the same items again with the same readings stores the same row under every id |
| Store.InsertSorted | TaskManagerEffectiveTrial/Core/Repository/TaskRepository.swift:68-69 | inserting into a list sorted by `createdAt` descending keeps it sorted and adds exactly that row |
| Store.SortSorted | TaskManagerEffectiveTrial/Core/Repository/TaskRepository.swift:68-69 | the result is sorted by `createdAt` descending and is a permutation of the input |
| Store.FilterSortCommute | TaskManagerEffectiveTrial/Core/Repository/TaskRepository.swift:88-90 | sorting then keeping the matching rows gives the same sequence as keeping them then sorting |
| Store.SaveTasks | TaskManagerEffectiveTrial/Core/Repository/TaskRepository.swift:41-63 | a failed save stores no item and reports the error; a successful one keeps ids unique and stores every item's id |
| Store.SortByRecency | TaskManagerEffectiveTrial/Core/Repository/TaskRepository.swift:68-69 | the `createdAt` descending sort descriptor as a stable insertion sort; `SortSorted` proves the result sorted and a permutation |
| Store.Listing | TaskManagerEffectiveTrial/Core/Repository/TaskRepository.swift:67-72 | the rows of the unfiltered fetch; `ListingOrder` proves each row appears exactly once, newest first |
| Store.ListingOrder | TaskManagerEffectiveTrial/Core/Repository/TaskRepository.swift:67-72 | the listing holds every row exactly once (same multiset), newest first |
| Store.FetchLocal | TaskManagerEffectiveTrial/Core/Repository/TaskRepository.swift:65-83 | a fetch failure is reported unchanged; otherwise the records of the listing |
| Store.Filter | TaskManagerEffectiveTrial/Core/Repository/TaskRepository.swift:88-90 | holds exactly the rows of the table that satisfy the predicate, and a sorted table stays sorted |
| Store.TitleMatches | TaskManagerEffectiveTrial/Core/Repository/TaskRepository.swift:88 | `title CONTAINS[cd] query` on one row: a nil title never matches, otherwise containment of the folded query in the folded title; `SearchRowsSpec` shows the search returns exactly the matching rows |
| Store.SearchRows | TaskManagerEffectiveTrial/Core/Repository/TaskRepository.swift:87-92 | the search fetch: the predicate applied, then the sort descriptor; `SearchRowsSpec` states what it returns |
| Store.SearchRowsSpec | TaskManagerEffectiveTrial/Core/Repository/TaskRepository.swift:87-92 | exactly the stored rows whose folded title contains the folded query, newest first; equal to the listing with the non-matching rows left out |
| Store.Search | TaskManagerEffectiveTrial/Core/Repository/TaskRepository.swift:85-103 | a fetch failure is reported unchanged; otherwise the records of the matching rows |
| Store.Clear | TaskManagerEffectiveTrial/Core/Repository/TaskRepository.swift:105-120 | a failed execute changes nothing; once the execute succeeds the table is empty; success is reported exactly when both the execute and the save succeed |
| Store.NewRow | TaskManagerEffectiveTrial/Core/Repository/TaskRepository.swift:124-130 | the new row's id is the truncated first reading, its title and details are the arguments, `createdAt` is the second reading, it is not completed and its `userId` is 0 |
| Store.Create | TaskManagerEffectiveTrial/Core/Repository/TaskRepository.swift:122-139 | succeeds exactly when the new id is not stored and the save succeeds, and then appends the new row; on failure the table is unchanged; the `date` argument plays no part |
| Store.CreateStores | TaskManagerEffectiveTrial/Core/Repository/TaskRepository.swift:124-134 | after a successful create the new row is stored under its id and every other id maps to what it did before |
| Store.Apply | TaskManagerEffectiveTrial/Core/Repository/TaskRepository.swift:156-159 | each attribute takes the new value when one is passed and keeps the old one otherwise; id and `userId` never change |
| Store.Update | TaskManagerEffectiveTrial/Core/Repository/TaskRepository.swift:141-169 | a fetch failure is reported; an absent id fails with the 404 error; a found row is always saved, so the outcome is then the save's; every failure leaves the table unchanged; ids stay unique |
| Store.UpdatePresent | TaskManagerEffectiveTrial/Core/Repository/TaskRepository.swift:156-164 | a successful update stores the patched row under its id, keeps the id set, and leaves every other row as it was |
| Store.UpdateNothing | TaskManagerEffectiveTrial/Core/Repository/TaskRepository.swift:156-163 | an update with every argument nil leaves the table unchanged and succeeds exactly when the save does |
| Store.ToggleTwiceRestores | TaskManagerEffectiveTrial/Core/Repository/TaskRepository.swift:156-164 | negating a row's completion and then restoring it gives back the original table |
| Store.Delete | TaskManagerEffectiveTrial/Core/Repository/TaskRepository.swift:171-192 | a fetch failure is reported; an absent id fails with the 404 error; every failure leaves the table unchanged; success removes exactly that id from the id set |
| Store.DeletePresent | TaskManagerEffectiveTrial/Core/Repository/TaskRepository.swift:178-181 | deleting a stored id succeeds, removes one row, leaves that id absent and every other row as it was |
| Repository.TaskRepositoryImpl.constructor | TaskManagerEffectiveTrial/Core/Repository/TaskRepository.swift:24-27 | the repository starts over the given table with unique ids |
| Repository.TaskRepositoryImpl.FetchRemoteTodos | TaskManagerEffectiveTrial/Core/Repository/TaskRepository.swift:29-39 | the response's `todos` on success, the network error unchanged on failure |
| Repository.TaskRepositoryImpl.SaveTasks | TaskManagerEffectiveTrial/Core/Repository/TaskRepository.swift:41-63 | the loop over the items leaves the table and outcome that `Store.SaveTasks` gives |
| Repository.TaskRepositoryImpl.ToDTOList | TaskManagerEffectiveTrial/Core/Repository/TaskRepository.swift:73 | the loop builds exactly `Dto.ToDTOs` of the fetched rows |
| Repository.TaskRepositoryImpl.FetchLocalTodos | TaskManagerEffectiveTrial/Core/Repository/TaskRepository.swift:65-83 | returns `Store.FetchLocal` of the table and does not change it |
| Repository.TaskRepositoryImpl.SearchTasks | TaskManagerEffectiveTrial/Core/Repository/TaskRepository.swift:85-103 | returns `Store.Search` of the table and does not change it |
| Repository.TaskRepositoryImpl.ClearLocalTasks | TaskManagerEffectiveTrial/Core/Repository/TaskRepository.swift:105-120 | the new table and the outcome are those of `Store.Clear` |
| Repository.TaskRepositoryImpl.CreateTask | TaskManagerEffectiveTrial/Core/Repository/TaskRepository.swift:122-139 | the new table and the outcome are those of `Store.Create` |
| Repository.TaskRepositoryImpl.UpdateTask | TaskManagerEffectiveTrial/Core/Repository/TaskRepository.swift:141-169 | the fetched row is patched in place; the new table and the outcome are those of `Store.Update` |
| Repository.TaskRepositoryImpl.DeleteTask | TaskManagerEffectiveTrial/Core/Repository/TaskRepository.swift:171-192 | the new table and the outcome are those of `Store.Delete` |
| Launch.DecodeBool | TaskManagerEffectiveTrial/Core/Utilities/UserDefaultsManager.swift:44-53 | decodes `true` or `false`, up to surrounding JSON whitespace, and nothing else |
| Launch.DecodeEncode | TaskManagerEffectiveTrial/Core/Utilities/UserDefaultsManager.swift:34-53 | decoding the stored encoding of a `Bool` gives it back |
| Launch.GetBool | TaskManagerEffectiveTrial/Core/Utilities/UserDefaultsManager.swift:44-53 | nil when the key is absent or holds no `Data`; otherwise the decoding of the data |
| Launch.SetBool | TaskManagerEffectiveTrial/Core/Utilities/UserDefaultsManager.swift:34-42 | reading the key back gives the value written, and every other key is unchanged |
| Launch.EncodeBool | TaskManagerEffectiveTrial/Core/Utilities/UserDefaultsManager.swift:34-38 | the `JSONEncoder` text of a `Bool`; `DecodeEncode` shows the decoder gives the value back |
| Launch.FirstLaunch | TaskManagerEffectiveTrial/Core/Utilities/LaunchManager.swift:16-19 | `!(get ?? false)`; `FirstLaunchExactly` shows it holds exactly when the key does not decode to `true` |
| Launch.FirstLaunchExactly | TaskManagerEffectiveTrial/Core/Utilities/LaunchManager.swift:16-19 | it is a first launch exactly when the key does not decode to `true`; in particular when the key is absent |
| Launch.MarkLaunched | TaskManagerEffectiveTrial/Core/Utilities/LaunchManager.swift:21-23 | writes the `didLaunchBefore` key and no other |
| Launch.MarkedIsNotFirstLaunch | TaskManagerEffectiveTrial/Core/Utilities/LaunchManager.swift:16-23 | after marking, it is not a first launch |
| Launch.MarkIdempotent | TaskManagerEffectiveTrial/Core/Utilities/LaunchManager.swift:21-23 | marking twice gives the defaults that marking once gives |
| Launch.LaunchManagerImpl.constructor | TaskManagerEffectiveTrial/Core/Utilities/LaunchManager.swift:12-14 | the manager starts over the given defaults |
| Launch.LaunchManagerImpl.IsFirstLaunch | TaskManagerEffectiveTrial/Core/Utilities/LaunchManager.swift:16-19 | true exactly when the key does not decode to `true`; as a function it cannot change the defaults |
| Launch.LaunchManagerImpl.MarkAppLaunched | TaskManagerEffectiveTrial/Core/Utilities/LaunchManager.swift:21-23 | the defaults become `MarkLaunched` of the old ones, and it is then not a first launch |
| ListInteractor.Deliver | TaskManagerEffectiveTrial/Modules/TaskList/TaskListInteractor.swift:102-107 | success goes to `didLoad` with the same tasks, failure to `didFail` with the same error |
| ListInteractor.TogglePatch | TaskManagerEffectiveTrial/Modules/TaskList/TaskListInteractor.swift:42-47 | the toggle's update passes only the completion state |
| ListInteractor.FetchLocalStep | TaskManagerEffectiveTrial/Modules/TaskList/TaskListInteractor.swift:99-111 | one local fetch whose result is forwarded by `Deliver`, with nothing changed; the local reads in `FirstLaunchHydrates`, `ToggleSetsCompletion` and `DeleteReports` are this step |
| ListInteractor.RemoteTodos | TaskManagerEffectiveTrial/Core/Repository/TaskRepository.swift:29-39 | the response's `todos` on success and the error unchanged on failure; `FirstLaunchHydrates` and `RemoteFailureRetries` state the two cases of a refresh |
| ListInteractor.SaveFetchedStep | TaskManagerEffectiveTrial/Modules/TaskList/TaskListInteractor.swift:72-81 | save the fetched items; on success mark the app launched and read local, on failure report it; `FirstLaunchHydrates` and `SaveFailureLeavesUnmarked` state both cases |
| ListInteractor.RefreshStep | TaskManagerEffectiveTrial/Modules/TaskList/TaskListInteractor.swift:68-86 | remote fetch, then `SaveFetchedStep`; `FirstLaunchHydrates`, `RemoteFailureRetries` and `SaveFailureLeavesUnmarked` state the outcome of each branch |
| ListInteractor.SearchStep | TaskManagerEffectiveTrial/Modules/TaskList/TaskListInteractor.swift:30-39 | one search whose result is forwarded by `Deliver`; `SearchForwards` states it changes nothing and never fetches remote |
| ListInteractor.ClearAndRefreshStep | TaskManagerEffectiveTrial/Modules/TaskList/TaskListInteractor.swift:88-97 | clear, then refresh on success or report on failure; `ClearThenRefresh` states all three cases |
| ListInteractor.FetchTasksStep | TaskManagerEffectiveTrial/Modules/TaskList/TaskListInteractor.swift:22-28 | the table keeps unique ids |
| ListInteractor.ToggleStep | TaskManagerEffectiveTrial/Modules/TaskList/TaskListInteractor.swift:41-55 | the table keeps unique ids |
| ListInteractor.DeleteStep | TaskManagerEffectiveTrial/Modules/TaskList/TaskListInteractor.swift:57-66 | the table keeps unique ids |
| ListInteractor.RunFetches | TaskManagerEffectiveTrial/Modules/TaskList/TaskListInteractor.swift:22-28 | repeated `fetchTasks` calls keep ids unique |
| ListInteractor.LaterLaunchReadsLocal | TaskManagerEffectiveTrial/Modules/TaskList/TaskListInteractor.swift:22-28 | on a later launch `fetchTasks` only reads local and delivers the result: no remote fetch, no mark, no change |
| ListInteractor.FirstLaunchHydrates | TaskManagerEffectiveTrial/Modules/TaskList/TaskListInteractor.swift:68-86 | a first launch with fetch and save succeeding runs fetch remote, save, mark, read local in that order; the flag is then set; the presenter gets the records of the local listing, not the remote items |
| ListInteractor.RemoteFailureRetries | TaskManagerEffectiveTrial/Modules/TaskList/TaskListInteractor.swift:68-86 | a failed remote fetch reports `didFail`, changes nothing, leaves the flag unset, and the next `fetchTasks` fetches remote again |
| ListInteractor.SaveFailureLeavesUnmarked | TaskManagerEffectiveTrial/Modules/TaskList/TaskListInteractor.swift:72-79 | a failed save reports `didFail`, never calls `markAppLaunched`, and changes nothing |
| ListInteractor.HydratedNeverFetchesRemote | TaskManagerEffectiveTrial/Modules/TaskList/TaskListInteractor.swift:22-28 | once the flag is set, any number of `fetchTasks` calls never fetch remote and never change the table or defaults |
| ListInteractor.FetchesRemoteOnce | TaskManagerEffectiveTrial/Modules/TaskList/TaskListInteractor.swift:22-86 | after a successful first launch, any number of further `fetchTasks` calls make exactly one remote fetch in total |
| ListInteractor.SearchForwards | TaskManagerEffectiveTrial/Modules/TaskList/TaskListInteractor.swift:30-39 | search forwards the repository's result (the matching records, or the error) unchanged; it never fetches remote or marks, and changes nothing |
| ListInteractor.ToggleSetsCompletion | TaskManagerEffectiveTrial/Modules/TaskList/TaskListInteractor.swift:41-55 | a successful toggle sends only the completion state, sets it on that row and on nothing else, and reloads local |
| ListInteractor.ToggleFailureReports | TaskManagerEffectiveTrial/Modules/TaskList/TaskListInteractor.swift:48-53 | a failed toggle reports the same error, changes nothing and does not reload |
| ListInteractor.DeleteReports | TaskManagerEffectiveTrial/Modules/TaskList/TaskListInteractor.swift:57-66 | a failed delete reports the same error and never `didLoad`; a successful one reloads local |
| ListInteractor.ClearThenRefresh | TaskManagerEffectiveTrial/Modules/TaskList/TaskListInteractor.swift:88-97 | a failed execute reports `didFail` and changes nothing; an executed clear whose save fails reports `didFail` over the now empty table; neither fetches remote; after a successful clear the bootstrap runs on the empty table |
| ListInteractor.TaskListInteractorImpl.constructor | TaskManagerEffectiveTrial/Modules/TaskList/TaskListInteractor.swift:16-19 | the interactor holds the given repository and launch manager and has made no calls |
| ListInteractor.TaskListInteractorImpl.FetchTasks | TaskManagerEffectiveTrial/Modules/TaskList/TaskListInteractor.swift:22-28 | the new table, defaults and calls are those of `FetchTasksStep` |
| ListInteractor.TaskListInteractorImpl.SearchTasks | TaskManagerEffectiveTrial/Modules/TaskList/TaskListInteractor.swift:30-39 | the calls are those of `SearchStep`, and the state is unchanged |
| ListInteractor.TaskListInteractorImpl.ToggleTask | TaskManagerEffectiveTrial/Modules/TaskList/TaskListInteractor.swift:41-55 | the new table and calls are those of `ToggleStep` |
| ListInteractor.TaskListInteractorImpl.DeleteTask | TaskManagerEffectiveTrial/Modules/TaskList/TaskListInteractor.swift:57-66 | the new table and calls are those of `DeleteStep` |
| ListInteractor.TaskListInteractorImpl.RefreshData | TaskManagerEffectiveTrial/Modules/TaskList/TaskListInteractor.swift:68-86 | the new table, defaults and calls are those of `RefreshStep` |
| ListInteractor.TaskListInteractorImpl.SaveFetched | TaskManagerEffectiveTrial/Modules/TaskList/TaskListInteractor.swift:72-81 | the save, then on success the launch flag and the local read: the new table, defaults and calls are those of `SaveFetchedStep` |
| ListInteractor.TaskListInteractorImpl.ClearAndRefresh | TaskManagerEffectiveTrial/Modules/TaskList/TaskListInteractor.swift:88-97 | the new table, defaults and calls are those of `ClearAndRefreshStep` |
| ListInteractor.TaskListInteractorImpl.FetchLocal | TaskManagerEffectiveTrial/Modules/TaskList/TaskListInteractor.swift:99-111 | the calls are those of `FetchLocalStep`, and the state is unchanged |
| ListPresenter.SearchDispatch | TaskManagerEffectiveTrial/Modules/TaskList/TaskListPresenter.swift:44-50 | a query that trims to nothing fetches all tasks, and only such a query does; any other query is searched for as typed, untrimmed |
| ListPresenter.ToggleRequest | TaskManagerEffectiveTrial/Modules/TaskList/TaskListPresenter.swift:52-54 | the toggle asks for the same id with the negated completion state |
| ListPresenter.PaddedQueryDispatch | TaskManagerEffectiveTrial/Modules/TaskList/TaskListPresenter.swift:44-50 | padding a query with whitespace does not change whether it fetches all tasks |
| ListPresenter.ToggleTwiceAsksOriginal | TaskManagerEffectiveTrial/Modules/TaskList/TaskListPresenter.swift:52-54 | toggling the toggled task asks for the original state |
| ListPresenter.TaskListPresenterImpl.constructor | TaskManagerEffectiveTrial/Modules/TaskList/TaskListPresenter.swift:20-27 | the presenter starts with its view present and no calls made |
| ListPresenter.TaskListPresenterImpl.ViewDidLoad | TaskManagerEffectiveTrial/Modules/TaskList/TaskListPresenter.swift:29-32 | shows loading if the view is present, then fetches tasks |
| ListPresenter.TaskListPresenterImpl.DidLoad | TaskManagerEffectiveTrial/Modules/TaskList/TaskListPresenter.swift:34-37 | hides loading and shows exactly the given tasks, if the view is present |
| ListPresenter.TaskListPresenterImpl.DidFail | TaskManagerEffectiveTrial/Modules/TaskList/TaskListPresenter.swift:39-42 | hides loading and shows the error's description, if the view is present |
| ListPresenter.TaskListPresenterImpl.DidUpdateSearchQuery | TaskManagerEffectiveTrial/Modules/TaskList/TaskListPresenter.swift:44-50 | makes exactly the call `SearchDispatch` chooses |
| ListPresenter.TaskListPresenterImpl.ToggleTaskCompletion | TaskManagerEffectiveTrial/Modules/TaskList/TaskListPresenter.swift:52-54 | makes exactly the call `ToggleRequest` gives |
| ListPresenter.TaskListPresenterImpl.DidTapCreate | TaskManagerEffectiveTrial/Modules/TaskList/TaskListPresenter.swift:56-59 | routes to the edit screen with no task, and does nothing when the view is gone |
| ListPresenter.TaskListPresenterImpl.DidTapEdit | TaskManagerEffectiveTrial/Modules/TaskList/TaskListPresenter.swift:61-64 | routes to the edit screen with the given task, and does nothing when the view is gone |
| ListPresenter.TaskListPresenterImpl.DeleteTask | TaskManagerEffectiveTrial/Modules/TaskList/TaskListPresenter.swift:66-69 | shows loading if the view is present, then asks to delete exactly that id |
| ListPresenter.TaskListPresenterImpl.DidFinishEditingTask | TaskManagerEffectiveTrial/Modules/TaskEdit/TaskEditPresenter.swift:71-76 | shows loading if the view is present, then fetches tasks |
| EditInteractor.Report | TaskManagerEffectiveTrial/Modules/TaskEdit/TaskEditInteractor.swift:18-23 | `didFinishSaving` exactly on success; on failure `didFail` with the same error |
| EditInteractor.EditPatch | TaskManagerEffectiveTrial/Modules/TaskEdit/TaskEditInteractor.swift:28-33 | the edit's update passes the title and details, and nil for the date and the completion state |
| EditInteractor.EditKeepsRest | TaskManagerEffectiveTrial/Modules/TaskEdit/TaskEditInteractor.swift:27-42 | a successful edit sets the title, and the details when given, and keeps id, date, completion and owner |
| EditInteractor.TaskEditInteractorImpl.constructor | TaskManagerEffectiveTrial/Modules/TaskEdit/TaskEditInteractor.swift:12-14 | the interactor holds the given repository and has reported nothing |
| EditInteractor.TaskEditInteractorImpl.CreateTask | TaskManagerEffectiveTrial/Modules/TaskEdit/TaskEditInteractor.swift:16-25 | forwards title and details unchanged; the table becomes that of `Store.Create`, and its outcome is reported |
| EditInteractor.TaskEditInteractorImpl.UpdateTask | TaskManagerEffectiveTrial/Modules/TaskEdit/TaskEditInteractor.swift:27-42 | forwards id, title and details with no date and no completion state; the table becomes that of `Store.Update`, and its outcome is reported |
| EditPresenter.DecideBack | TaskManagerEffectiveTrial/Modules/TaskEdit/TaskEditPresenter.swift:36-55 | nil counts as ""; both fields blank closes; only the title blank is refused; otherwise it updates the edited task's id or creates; exactly one of the four, with the trimmed, non-empty title and the trimmed details |
| EditPresenter.BackEvents | TaskManagerEffectiveTrial/Modules/TaskEdit/TaskEditPresenter.swift:40-54 | close and the exact empty-title alert go to the view only when it is present; update and create pass the trimmed details; with the view present, one call per tap |
| EditPresenter.NeverSavesBlankTitle | TaskManagerEffectiveTrial/Modules/TaskEdit/TaskEditPresenter.swift:36-55 | no back tap asks to save a title that is blank or untrimmed |
| EditPresenter.SavedEditIsTrimmed | TaskManagerEffectiveTrial/Modules/TaskEdit/TaskEditPresenter.swift:37-51 | saving an edit of a stored task stores the trimmed title and details and keeps everything else in the row |
| EditPresenter.TaskEditPresenterImpl.constructor | TaskManagerEffectiveTrial/Modules/TaskEdit/TaskEditPresenter.swift:21-30 | the presenter starts with its view and delegate present and the given task |
| EditPresenter.TaskEditPresenterImpl.ViewDidLoad | TaskManagerEffectiveTrial/Modules/TaskEdit/TaskEditPresenter.swift:32-34 | shows the initial task unchanged, if the view is present |
| EditPresenter.TaskEditPresenterImpl.DidTapBack | TaskManagerEffectiveTrial/Modules/TaskEdit/TaskEditPresenter.swift:36-55 | makes exactly the calls `BackEvents` gives for `DecideBack` |
| EditPresenter.TaskEditPresenterImpl.DidFinishSaving | TaskManagerEffectiveTrial/Modules/TaskEdit/TaskEditPresenter.swift:57-62 | the presenter's log records the delegate notification before the close, each only if its target is present; the delegate's own log gains the list screen's reload calls |
| EditPresenter.TaskEditPresenterImpl.DidFail | TaskManagerEffectiveTrial/Modules/TaskEdit/TaskEditPresenter.swift:64-68 | shows the error's description, if the view is present |

## Left out

- The UIKit views, routers, `AppDelegate` and `AppDependency` are not modelled. They are screens, navigation and assembly. The router's delegate argument is always the list presenter itself, so it is not recorded.
- `NetworkServiceImpl` and `APIEndpoints` are not modelled (URLSession, JSON decoding). Their decoded response is a parameter.
- `CoreDataManager` and Core Data itself are not modelled: predicate and sort-descriptor evaluation, contexts, and `save()`. The in-memory table replaces them, and each call's failures are the `Io` parameter.
- The uniqueness constraint on `id` is assumed; the data model that would declare it is not part of this model.
- The asynchronous parts are not modelled: `performBackgroundTask`, `DispatchQueue.main.async` hops, and concurrent calls. Each callback chain runs to completion in order.
- Weak captures of `self` that may be deallocated before a callback runs are not modelled. The interactors' `presenter` is taken to be present.
- `Date()`, the "dd/MM/yy" `DateFormatter`, and the case and diacritic folding of `CONTAINS[cd]` are parameters or uninterpreted functions. Unicode case mapping and locale behaviour are therefore not captured.
- `UserDefaultsManagerImpl.remove` is not modelled; nothing in the core uses it. The `print` calls on encode or decode errors are not modelled either: they are output only, and encoding a `Bool` cannot fail.
- Launch.DecodeBool: accepts exactly `true` or `false` with JSON whitespace around them. Other inputs `JSONDecoder` would accept, such as escapes inside the data, are not distinguished, because the app only ever stores its own encoding.
- Models.TruncateTowardZero: does not model the trap `Int64(_:)` raises for a reading outside the Int64 range. Ids, `userId` and the id in error messages are unbounded integers, so Int64 overflow is not modelled.
- Store.Create: a create whose id collides with a stored row is modelled as the constraint error. This rests on the default merge policy of the create's context, which is not visible in this code.
- The test suite's mocks are not modelled; the lemmas state the scenarios those tests drive.
