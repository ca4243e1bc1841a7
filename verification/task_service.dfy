/** The in-memory task store. The source keeps one module-level array and
    mutates it; here the store is a value and every operation returns the new
    store beside its result. Identifier generation and the clock are
    parameters (`newId`, `now`). */
module TaskService {
  import opened Wrappers
  import opened Tasks

  /** The tasks in insertion order. */
  type Store = seq<Task>

  /** Some task in the store carries `id`. */
  predicate HasId(store: Store, id: Id)
  {
    exists i :: 0 <= i < |store| && store[i].id == id
  }

  /** Position `i` is the first one whose task carries `id`. */
  predicate IsFirstMatch(store: Store, id: Id, i: int)
  {
    && 0 <= i < |store|
    && store[i].id == id
    && forall j :: 0 <= j < i ==> store[j].id != id
  }

  /** No two tasks share an identifier. The store does not enforce this:
      identifiers are random and nothing checks them for collisions. */
  predicate UniqueIds(store: Store)
  {
    forall i, j :: 0 <= i < |store| && 0 <= j < |store| && i != j ==> store[i].id != store[j].id
  }

  /** How many tasks carry `id`. */
  function CountId(store: Store, id: Id): (n: nat)
    ensures n <= |store|
    ensures n > 0 <==> HasId(store, id)
    decreases |store|
  {
    if |store| == 0 then 0
    else
      var rest := CountId(store[1..], id);
      assert forall k :: 1 <= k < |store| ==> store[k] == store[1..][k - 1];
      (if store[0].id == id then 1 else 0) + rest
  }

  /** There is at most one first match. */
  lemma FirstMatchUnique(store: Store, id: Id, i: int, j: int)
    requires IsFirstMatch(store, id, i) && IsFirstMatch(store, id, j)
    ensures i == j
  {
  }

  /** `tasks.findIndex(task => task.id === id)`, with None for -1: the first
      position whose task carries `id`. */
  function FindIndex(store: Store, id: Id): (r: Option<nat>)
    ensures r.None? <==> !HasId(store, id)
    ensures r.Some? ==> IsFirstMatch(store, id, r.value)
    decreases |store|
  {
    if |store| == 0 then None
    else if store[0].id == id then Some(0)
    else
      var rest := FindIndex(store[1..], id);
      match rest
      case None =>
        assert forall j :: 1 <= j < |store| ==> store[j] == store[1..][j - 1];
        None
      case Some(k) =>
        assert forall j :: 1 <= j < k + 1 ==> store[j] == store[1..][j - 1];
        Some(k + 1)
  }

  /** getAllTasks: the current contents, in insertion order. The source hands
      out the live array; here the caller receives a value. */
  function GetAll(store: Store): (r: seq<Task>)
    ensures |r| == |store|
    ensures forall i :: 0 <= i < |r| ==> r[i] == store[i]
  {
    store
  }

  /** getTaskById: `tasks.find(task => task.id === id)`. */
  function GetById(store: Store, id: Id): (r: Option<Task>)
    ensures r.None? <==> !HasId(store, id)
    ensures r.Some? ==> exists i :: IsFirstMatch(store, id, i) && r.value == store[i]
  {
    match FindIndex(store, id)
    case None => None
    case Some(i) => Some(store[i])
  }

  datatype Created = Created(store: Store, task: Task)

  /** `input.description || ''`: any falsy description (omitted or empty)
      becomes the empty string. */
  function DescriptionOrEmpty(description: Option<string>): string
  {
    if description.Some? && description.value != "" then description.value else ""
  }

  /** createTask: builds a task with the generated id `newId` and the time
      `now`, appends it, and returns it. */
  function CreateTask(store: Store, input: CreateInput, newId: Id, now: Timestamp): (r: Created)
    ensures |r.store| == |store| + 1
    ensures forall i :: 0 <= i < |store| ==> r.store[i] == store[i]
    ensures r.store[|store|] == r.task
    ensures r.task.id == newId
    ensures r.task.title == input.title
    ensures input.description.Some? ==> r.task.description == input.description.value
    ensures input.description.None? ==> r.task.description == ""
    ensures !r.task.completed
    ensures r.task.createdAt == now && r.task.updatedAt == now
  {
    var task := Task(
      id := newId,
      title := input.title,
      description := DescriptionOrEmpty(input.description),
      completed := false,
      createdAt := now,
      updatedAt := now);
    Created(store + [task], task)
  }

  /** The record spread of updateTask: each supplied field overrides the old
      one (`??` only skips an omitted field, so `false` and `''` override),
      the identifier and creation time are kept, and the update time is `now`. */
  function Merge(existing: Task, input: UpdateInput, now: Timestamp): (t: Task)
    ensures t.id == existing.id
    ensures t.createdAt == existing.createdAt
    ensures t.updatedAt == now
    ensures input.title.Some? ==> t.title == input.title.value
    ensures input.title.None? ==> t.title == existing.title
    ensures input.description.Some? ==> t.description == input.description.value
    ensures input.description.None? ==> t.description == existing.description
    ensures input.completed.Some? ==> t.completed == input.completed.value
    ensures input.completed.None? ==> t.completed == existing.completed
  {
    existing.(
      title := input.title.GetOr(existing.title),
      description := input.description.GetOr(existing.description),
      completed := input.completed.GetOr(existing.completed),
      updatedAt := now)
  }

  datatype Updated = Updated(store: Store, task: Option<Task>)

  /** updateTask: merges `input` into the FIRST task carrying `id` and writes
      it back in place; an absent id leaves the store as it was. */
  function UpdateTask(store: Store, id: Id, input: UpdateInput, now: Timestamp): (r: Updated)
    ensures r.task.None? <==> !HasId(store, id)
    ensures r.task.None? ==> r.store == store
    ensures r.task.Some? ==>
      exists i :: IsFirstMatch(store, id, i)
        && r.task.value == Merge(store[i], input, now)
        && |r.store| == |store|
        && r.store[i] == r.task.value
        && forall j :: 0 <= j < |store| && j != i ==> r.store[j] == store[j]
  {
    match FindIndex(store, id)
    case None => Updated(store, None)
    case Some(i) =>
      var updated := Merge(store[i], input, now);
      Updated(store[i := updated], Some(updated))
  }

  /** `tasks.filter(task => task.id !== id)`: every task carrying `id` is
      dropped, the others keep their order. */
  function Without(store: Store, id: Id): (r: Store)
    ensures |r| == |store| - CountId(store, id)
    ensures forall t :: t in r <==> t in store && t.id != id
    decreases |store|
  {
    if |store| == 0 then []
    else
      var rest := Without(store[1..], id);
      assert forall t :: t in store <==> t == store[0] || t in store[1..] by {
        assert store == [store[0]] + store[1..];
      }
      (if store[0].id != id then [store[0]] else []) + rest
  }

  datatype Deleted = Deleted(store: Store, removed: bool)

  /** deleteTask: filters out every task carrying `id` and reports whether
      the store became shorter. */
  function DeleteTask(store: Store, id: Id): (r: Deleted)
    ensures r.removed <==> HasId(store, id)
    ensures !HasId(r.store, id)
    ensures forall t :: t in r.store <==> t in store && t.id != id
    ensures |r.store| == |store| - CountId(store, id)
  {
    var remaining := Without(store, id);
    assert forall i :: 0 <= i < |remaining| ==> remaining[i] in remaining;
    Deleted(remaining, |remaining| < |store|)
  }

  /** clearAllTasks: the store becomes empty. */
  function ClearAll(): (r: Store)
    ensures |r| == 0
  {
    []
  }
}
