/** Properties that relate several store operations: reading back what was
    written, the invariants the operations keep, and the bookkeeping of a
    whole sequence of operations. */
module StoreProperties {
  import opened Wrappers
  import opened Tasks
  import opened TaskService

  // ---------------------------------------------------------------------
  // Reading back

  /** A task created under an identifier nobody holds yet is what a lookup
      of that identifier returns afterwards. */
  lemma GetAfterCreate(store: Store, input: CreateInput, newId: Id, now: Timestamp)
    requires !HasId(store, newId)
    ensures GetById(CreateTask(store, input, newId, now).store, newId)
         == Some(CreateTask(store, input, newId, now).task)
  {
  }

  /** When the generated identifier collides with an older task, a lookup
      keeps answering with the older task: the new one is unreachable by id. */
  lemma CollidingIdShadowsNewTask(store: Store, input: CreateInput, newId: Id, now: Timestamp)
    requires HasId(store, newId)
    ensures GetById(CreateTask(store, input, newId, now).store, newId) == GetById(store, newId)
  {
  }

  /** After a successful update, a lookup of the same identifier returns the
      merged task. */
  lemma GetAfterUpdate(store: Store, id: Id, input: UpdateInput, now: Timestamp)
    requires HasId(store, id)
    ensures GetById(UpdateTask(store, id, input, now).store, id) == UpdateTask(store, id, input, now).task
  {
  }

  /** After a delete, a lookup of the deleted identifier finds nothing, even
      when several tasks carried it. */
  lemma GetAfterDelete(store: Store, id: Id)
    ensures GetById(DeleteTask(store, id).store, id) == None
  {
  }

  /** After clearing, the listing is empty and no identifier is found. */
  lemma ClearForgetsEverything(id: Id)
    ensures GetAll(ClearAll()) == []
    ensures GetById(ClearAll(), id) == None
  {
  }

  // ---------------------------------------------------------------------
  // Delete as a filter

  /** Filtering distributes over concatenation, so the surviving tasks keep
      their relative order. */
  lemma {:induction false} WithoutAppend(a: Store, b: Store, id: Id)
    ensures Without(a + b, id) == Without(a, id) + Without(b, id)
    decreases |a|
  {
    if |a| == 0 {
      assert a + b == b;
    } else {
      assert (a + b)[1..] == a[1..] + b;
      WithoutAppend(a[1..], b, id);
    }
  }

  /** A one-task store loses its task exactly when the task carries `id`. */
  lemma WithoutSingleton(t: Task, id: Id)
    ensures Without([t], id) == if t.id == id then [] else [t]
  {
  }

  /** Deleting an identifier nobody carries returns "not removed" and leaves
      the store exactly as it was. */
  lemma {:induction false} DeleteAbsentIsIdentity(store: Store, id: Id)
    requires !HasId(store, id)
    ensures DeleteTask(store, id) == Deleted(store, false)
    decreases |store|
  {
    if |store| > 0 {
      assert store[0].id != id;
      assert !HasId(store[1..], id) by {
        assert forall k :: 0 <= k < |store| - 1 ==> store[1..][k] == store[k + 1];
      }
      DeleteAbsentIsIdentity(store[1..], id);
      assert store == [store[0]] + store[1..];
    }
  }

  /** Delete removes every task carrying the identifier, not just the first:
      a store holding two tasks with the same id is emptied by one delete. */
  lemma DeleteRemovesEveryMatch(a: Task, b: Task)
    requires a.id == b.id
    ensures DeleteTask([a, b], a.id) == Deleted([], true)
  {
  }

  // ---------------------------------------------------------------------
  // Unique identifiers: an invariant the callers must supply fresh ids for

  /** Appending a task under a fresh identifier keeps identifiers unique. */
  lemma CreatePreservesUniqueIds(store: Store, input: CreateInput, newId: Id, now: Timestamp)
    requires UniqueIds(store)
    requires !HasId(store, newId)
    ensures UniqueIds(CreateTask(store, input, newId, now).store)
  {
  }

  /** Update never changes an identifier, so uniqueness survives it. */
  lemma UpdatePreservesUniqueIds(store: Store, id: Id, input: UpdateInput, now: Timestamp)
    requires UniqueIds(store)
    ensures UniqueIds(UpdateTask(store, id, input, now).store)
  {
  }

  /** Filtering keeps uniqueness. */
  lemma {:induction false} WithoutPreservesUniqueIds(store: Store, id: Id)
    requires UniqueIds(store)
    ensures UniqueIds(Without(store, id))
    decreases |store|
  {
    if |store| > 0 {
      var tail := store[1..];
      assert UniqueIds(tail) by {
        forall i, j | 0 <= i < |tail| && 0 <= j < |tail| && i != j
          ensures tail[i].id != tail[j].id
        {
          assert tail[i] == store[i + 1] && tail[j] == store[j + 1];
        }
      }
      WithoutPreservesUniqueIds(tail, id);
      var rest := Without(tail, id);
      if store[0].id != id {
        var r := [store[0]] + rest;
        forall k | 0 <= k < |rest|
          ensures rest[k].id != store[0].id
        {
          assert rest[k] in rest;
          assert rest[k] in tail;
          var m :| 0 <= m < |tail| && tail[m] == rest[k];
          assert store[m + 1] == rest[k];
        }
        forall i, j | 0 <= i < |r| && 0 <= j < |r| && i != j
          ensures r[i].id != r[j].id
        {
          if i > 0 && j > 0 {
            assert r[i] == rest[i - 1] && r[j] == rest[j - 1];
          } else if i == 0 {
            assert r[j] == rest[j - 1];
          } else {
            assert r[i] == rest[i - 1];
          }
        }
      }
    }
  }

  /** Delete keeps uniqueness. */
  lemma DeletePreservesUniqueIds(store: Store, id: Id)
    requires UniqueIds(store)
    ensures UniqueIds(DeleteTask(store, id).store)
  {
    WithoutPreservesUniqueIds(store, id);
  }

  /** With unique identifiers, an identifier is carried at most once. */
  lemma {:induction false} CountIdUnique(store: Store, id: Id)
    requires UniqueIds(store)
    ensures CountId(store, id) <= 1
    decreases |store|
  {
    if |store| > 0 {
      var tail := store[1..];
      assert UniqueIds(tail) by {
        forall i, j | 0 <= i < |tail| && 0 <= j < |tail| && i != j
          ensures tail[i].id != tail[j].id
        {
          assert tail[i] == store[i + 1] && tail[j] == store[j + 1];
        }
      }
      CountIdUnique(tail, id);
      if store[0].id == id {
        assert forall k :: 0 <= k < |tail| ==> tail[k] == store[k + 1];
        assert !HasId(tail, id);
      }
    }
  }

  /** With unique identifiers, a successful delete removes exactly one task
      and a failed one removes none. */
  lemma UniqueDeleteRemovesOne(store: Store, id: Id)
    requires UniqueIds(store)
    ensures |DeleteTask(store, id).store| == if HasId(store, id) then |store| - 1 else |store|
  {
    CountIdUnique(store, id);
  }

  // ---------------------------------------------------------------------
  // Timestamps: ordered as long as the supplied clock never goes back

  /** Every task was last updated no earlier than it was created. */
  predicate TimesOrdered(store: Store)
  {
    forall i :: 0 <= i < |store| ==> store[i].createdAt <= store[i].updatedAt
  }

  /** The clock reading `now` is not earlier than any recorded time. */
  predicate ClockNotBefore(store: Store, now: Timestamp)
  {
    forall i :: 0 <= i < |store| ==> store[i].updatedAt <= now
  }

  /** Create keeps timestamps ordered. */
  lemma CreateKeepsTimesOrdered(store: Store, input: CreateInput, newId: Id, now: Timestamp)
    requires TimesOrdered(store)
    ensures TimesOrdered(CreateTask(store, input, newId, now).store)
  {
  }

  /** Update keeps timestamps ordered when the clock has not gone back. */
  lemma UpdateKeepsTimesOrdered(store: Store, id: Id, input: UpdateInput, now: Timestamp)
    requires TimesOrdered(store)
    requires ClockNotBefore(store, now)
    ensures TimesOrdered(UpdateTask(store, id, input, now).store)
  {
  }

  /** Update's new time is never earlier than the old one, given a clock that
      has not gone back. */
  lemma UpdateAdvancesTime(store: Store, id: Id, input: UpdateInput, now: Timestamp)
    requires HasId(store, id)
    requires ClockNotBefore(store, now)
    ensures GetById(store, id).value.updatedAt <= UpdateTask(store, id, input, now).task.value.updatedAt
  {
  }

  /** Delete keeps timestamps ordered. */
  lemma DeleteKeepsTimesOrdered(store: Store, id: Id)
    requires TimesOrdered(store)
    ensures TimesOrdered(DeleteTask(store, id).store)
  {
  }

  // ---------------------------------------------------------------------
  // Merge

  /** An update that supplies nothing only moves the update time. */
  lemma MergeNothing(existing: Task, now: Timestamp)
    ensures Merge(existing, NoChanges, now) == existing.(updatedAt := now)
  {
  }

  /** Applying the same update twice at the same time is the same as once. */
  lemma MergeIdempotent(existing: Task, input: UpdateInput, now: Timestamp)
    ensures Merge(Merge(existing, input, now), input, now) == Merge(existing, input, now)
  {
  }

  /** Explicit `false` and empty-string values override, unlike a
      default-if-falsy rule would. */
  lemma MergeFalsyOverrides(existing: Task, now: Timestamp)
    requires existing.completed && existing.title != "" && existing.description != ""
    ensures var t := Merge(existing, UpdateInput(Some(""), Some(""), Some(false)), now);
      t.title == "" && t.description == "" && !t.completed
  {
  }

  // ---------------------------------------------------------------------
  // Sequences of operations

  datatype Op =
    | Create(input: CreateInput, newId: Id, now: Timestamp)
    | Update(id: Id, change: UpdateInput, at: Timestamp)
    | Delete(id: Id)

  /** The store after one operation. */
  function Step(store: Store, op: Op): Store
  {
    match op
    case Create(input, newId, now) => CreateTask(store, input, newId, now).store
    case Update(id, change, at) => UpdateTask(store, id, change, at).store
    case Delete(id) => DeleteTask(store, id).store
  }

  /** The store after each operation in turn. */
  function Run(store: Store, ops: seq<Op>): Store
    decreases |ops|
  {
    if |ops| == 0 then store else Run(Step(store, ops[0]), ops[1..])
  }

  /** The number of creations in `ops`. */
  function Creates(ops: seq<Op>): nat
    decreases |ops|
  {
    if |ops| == 0 then 0 else (if ops[0].Create? then 1 else 0) + Creates(ops[1..])
  }

  /** The number of deletes in `ops` that report a removal, run from `store`. */
  function Removals(store: Store, ops: seq<Op>): nat
    decreases |ops|
  {
    if |ops| == 0 then 0
    else
      (if ops[0].Delete? && DeleteTask(store, ops[0].id).removed then 1 else 0)
        + Removals(Step(store, ops[0]), ops[1..])
  }

  /** Every creation in `ops`, run from `store`, uses an identifier that no
      task held at that moment. */
  predicate FreshCreates(store: Store, ops: seq<Op>)
    decreases |ops|
  {
    |ops| == 0 ||
    ((ops[0].Create? ==> !HasId(store, ops[0].newId)) && FreshCreates(Step(store, ops[0]), ops[1..]))
  }

  /** One step keeps identifiers unique when a creation uses a fresh one. */
  lemma StepPreservesUniqueIds(store: Store, op: Op)
    requires UniqueIds(store)
    requires op.Create? ==> !HasId(store, op.newId)
    ensures UniqueIds(Step(store, op))
  {
    match op
    case Create(input, newId, now) => CreatePreservesUniqueIds(store, input, newId, now);
    case Update(id, change, at) => UpdatePreservesUniqueIds(store, id, change, at);
    case Delete(id) => DeletePreservesUniqueIds(store, id);
  }

  /** The listing's length is the starting size plus the creations minus the
      deletes that reported a removal, provided every creation used a fresh
      identifier. With colliding identifiers one delete can remove several
      tasks and the count no longer holds. */
  lemma {:induction false} SizeTracksCreatesAndRemovals(store: Store, ops: seq<Op>)
    requires UniqueIds(store)
    requires FreshCreates(store, ops)
    ensures |GetAll(Run(store, ops))| == |store| + Creates(ops) - Removals(store, ops)
    decreases |ops|
  {
    if |ops| > 0 {
      var op := ops[0];
      StepPreservesUniqueIds(store, op);
      SizeTracksCreatesAndRemovals(Step(store, op), ops[1..]);
      match op
      case Create(input, newId, now) =>
      case Update(id, change, at) =>
      case Delete(id) => UniqueDeleteRemovesOne(store, id);
    }
  }
}
