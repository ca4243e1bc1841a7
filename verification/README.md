# Task API store and handlers, modelled in Dafny

A model of the task-management service's in-memory task store
(`src/services/taskService.ts`) and the request handlers that sit on top of
it (`src/controllers/taskController.ts`). The store is a sequence of `Task`
records. Every store operation is a pure function from the old sequence to
the new one plus its result. Each handler maps the store and a parsed
request to the new store and a response (status code and body).

Files:

- `wrappers.dfy` defines `Option`, the store's "absent" signal. `GetOr` is the `??` operator.
- `tasks.dfy` defines the `Task` record and the create and update input shapes.
- `task_service.dfy` holds the store operations (list, lookup, create, update, delete, clear). It also defines the predicates `HasId`, `IsFirstMatch` and `UniqueIds`.
- `store_properties.dfy` holds lemmas across store operations: read-back, delete as a filter, unique ids, timestamps, merge, and whole operation sequences.
- `task_controller.dfy` holds the five handlers with their status-code and validation policy.
- `controller_properties.dfy` holds lemmas across handler calls, including the documented end-to-end request sequence.

Lookup and update act on the first task carrying an id (`find`/`findIndex`).
Delete removes every task carrying it (`filter`). Identifiers are random, so
duplicates are possible. The model keeps that asymmetry, and the lemmas
show its consequences: `CollidingIdShadowsNewTask` and `DeleteRemovesEveryMatch`.
Uniqueness of identifiers is never assumed. It is a predicate (`UniqueIds`)
that the operations preserve when each create is given a fresh id.

## Model

| member | source | states |
|---|---|---|
| TaskService.FindIndex | src/services/taskService.ts:41-44 | None exactly when no task carries the id; otherwise the index of the first task that does |
| TaskService.GetAll | src/services/taskService.ts:13-15 | the listing has the store's length and the store's tasks at the same positions (insertion order) |
| TaskService.GetById | src/services/taskService.ts:18-20 | None exactly when no task carries the id; otherwise the task at the first matching position |
| TaskService.CreateTask | src/services/taskService.ts:25-37 | length grows by one; earlier tasks unchanged in place; new last task has the given id and title, completed false, both timestamps equal to now, and description = input or '' when omitted |
| TaskService.Merge | src/services/taskService.ts:47-53 | each supplied field (including false and '') overrides, each omitted field is kept; id and createdAt kept; updatedAt becomes now |
| TaskService.UpdateTask | src/services/taskService.ts:40-57 | absent id: None and the store unchanged; present id: only the first matching position is replaced, by the merged task, and length is kept |
| TaskService.Without | src/services/taskService.ts:62 | the filter drops exactly the tasks carrying the id; length drops by their count |
| TaskService.CountId | src/services/taskService.ts:61-63 | the number of tasks carrying the id is positive exactly when the id is present |
| TaskService.DeleteTask | src/services/taskService.ts:60-64 | the length comparison reports true exactly when the id was present; afterwards no task carries the id and every other task remains |
| TaskService.ClearAll | src/services/taskService.ts:67-69 | the store becomes empty |
| StoreProperties.GetAfterCreate | src/services/taskService.ts:25-37 | with a fresh id, looking that id up after create returns the created task |
| StoreProperties.CollidingIdShadowsNewTask | src/services/taskService.ts:19 | with a colliding id, lookup after create still returns the older task |
| StoreProperties.GetAfterUpdate | src/services/taskService.ts:41-56 | after a successful update, lookup returns the merged task |
| StoreProperties.GetAfterDelete | src/services/taskService.ts:60-64 | after delete, lookup of that id finds nothing |
| StoreProperties.ClearForgetsEverything | src/services/taskService.ts:67-69 | after clear, the listing is empty and every lookup fails |
| StoreProperties.WithoutAppend | src/services/taskService.ts:62 | filtering distributes over concatenation, so survivors keep their relative order |
| StoreProperties.WithoutSingleton | src/services/taskService.ts:62 | a single task is dropped exactly when it carries the id |
| StoreProperties.DeleteAbsentIsIdentity | src/services/taskService.ts:60-64 | deleting an absent id reports false and leaves the store identical |
| StoreProperties.DeleteRemovesEveryMatch | src/services/taskService.ts:62 | two tasks sharing an id are both removed by one delete |
| StoreProperties.CreatePreservesUniqueIds | src/services/taskService.ts:25-37 | create with a fresh id keeps ids unique |
| StoreProperties.UpdatePreservesUniqueIds | src/services/taskService.ts:47-55 | update keeps ids unique, since the spread keeps the id |
| StoreProperties.WithoutPreservesUniqueIds | src/services/taskService.ts:62 | filtering keeps ids unique |
| StoreProperties.DeletePreservesUniqueIds | src/services/taskService.ts:60-64 | delete keeps ids unique |
| StoreProperties.CountIdUnique | src/services/taskService.ts:62 | with unique ids, an id is carried at most once |
| StoreProperties.UniqueDeleteRemovesOne | src/services/taskService.ts:60-64 | with unique ids, delete shrinks the store by exactly one if the id is present, else by none |
| StoreProperties.CreateKeepsTimesOrdered | src/services/taskService.ts:26-33 | create keeps createdAt <= updatedAt for every task |
| StoreProperties.UpdateKeepsTimesOrdered | src/services/taskService.ts:47-53 | if the clock has not gone back, update keeps createdAt <= updatedAt |
| StoreProperties.UpdateAdvancesTime | src/services/taskService.ts:52 | if the clock has not gone back, the updated task's updatedAt is no earlier than before |
| StoreProperties.DeleteKeepsTimesOrdered | src/services/taskService.ts:60-64 | delete keeps createdAt <= updatedAt |
| StoreProperties.MergeNothing | src/services/taskService.ts:47-53 | an update supplying no field changes only updatedAt |
| StoreProperties.MergeIdempotent | src/services/taskService.ts:47-53 | applying the same update twice at the same time equals applying it once |
| StoreProperties.MergeFalsyOverrides | src/services/taskService.ts:49-51 | explicit '' and false override non-empty and true values |
| StoreProperties.StepPreservesUniqueIds | src/services/taskService.ts:25-64 | each create, update or delete keeps ids unique, given a fresh id on create |
| StoreProperties.SizeTracksCreatesAndRemovals | src/services/taskService.ts:25-64 | with fresh ids, after any operation sequence the listing's length is the start size plus creates minus deletes that reported a removal |
| TaskController.GetTasks | src/controllers/taskController.ts:5-8 | always 200 with every task in store order; store untouched |
| TaskController.GetTask | src/controllers/taskController.ts:11-21 | 404 "Task not found" exactly when the id is absent, else 200 with the first matching task; store untouched |
| TaskController.CreateTask | src/controllers/taskController.ts:24-35 | 400 with the title message and no store change exactly when the title is not a non-empty string; else 201, one task appended with that title, the id, description or '', completed false |
| TaskController.UpdateTask | src/controllers/taskController.ts:38-50 | no validation; 404 and no change exactly when the id is absent, else 200 with the merged task written over the first match |
| TaskController.DeleteTask | src/controllers/taskController.ts:53-63 | 204 with empty body exactly when the id was present; else 404 and no change; afterwards no task carries the id |
| ControllerProperties.ListAfterClearAndCreate | src/controllers/taskController.ts:5-8 | after reset the list is 200 []; after one accepted create it holds exactly that task |
| ControllerProperties.DeleteThenGetNotFound | src/controllers/taskController.ts:53-63 | after a 204 delete, get of the same id answers 404 |
| ControllerProperties.DeleteUnknownKeepsSize | src/controllers/taskController.ts:57-59 | deleting an unknown id answers 404 and keeps the store's size |
| ControllerProperties.RejectedCreateKeepsStore | src/controllers/taskController.ts:28-31 | a rejected title yields exactly 400 with the title message and the same store |
| ControllerProperties.CreateKeepsNonEmptyTitles | src/controllers/taskController.ts:28-34 | creation through the handler keeps every stored title non-empty |
| ControllerProperties.UpdateAcceptsEmptyTitle | src/controllers/taskController.ts:40-49 | an update with title '' on a present id answers 200 and stores the empty title, breaking the non-empty-title invariant |
| ControllerProperties.BuyMilkScenario | src/controllers/taskController.ts:24-63 | with a fresh id: POST answers 201 ('' description, not completed), GET 200 with the task, PUT completed 200 with the title kept, DELETE 204, GET 404 |

## Left out

- Identifier generation (`generateId`, `Math.random()`) is left out. The id is a parameter of create. Uniqueness is not claimed; lemmas that need it take a fresh id or `UniqueIds` as a precondition.
- The clock (`new Date()`) is left out. Time is a supplied natural number. `createdAt <= updatedAt` is proved only under the explicit assumption that the clock never goes back (`ClockNotBefore`). The code does not enforce this.
- `getAllTasks` returns the live array, so callers can mutate the store through it. The model returns a value copy.
- Express plumbing is left out: the JSON body parser, `/health`, `/`, the catch-all 404 in `src/app.ts`, the route wiring in `src/routes/tasks.ts`, and the request/response objects. JSON serialisation on the wire is also left out.
- JavaScript dynamic typing is modelled only for the creation title, whose guard depends on it. There, a small JSON value type and JavaScript truthiness are modelled. Numbers are integers, so NaN is not represented.
- TaskController.CreateTask takes the description as an optional string. In the source, a non-string description is passed through unchecked and stored if truthy.
- TaskController.UpdateTask takes typed optional fields. The source stores whatever JSON value is sent, even a wrong type. A JSON `null` behaves as omitted under `??` and is modelled as None.
- The `../models/task` type definitions are not part of this model. The task and input shapes are taken from how the store builds and reads them.
- The test harness and `jest.config.js` are left out.
- The store is a module-level variable in the source. Here it is passed in and returned explicitly; the single-threaded run-to-completion behaviour makes the two equivalent.
