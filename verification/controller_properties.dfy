/** Properties of the handlers across several requests: the request sequences
    the API promises, and where the promised title invariant does and does
    not hold. */
module ControllerProperties {
  import opened Wrappers
  import opened Tasks
  import Service = TaskService
  import StoreProperties
  import opened TaskController

  /** Every task in the store has a non-empty title. */
  predicate NonEmptyTitles(store: Service.Store)
  {
    forall i :: 0 <= i < |store| ==> store[i].title != ""
  }

  /** After a reset the listing is empty; after one accepted creation it
      holds exactly the created task. */
  lemma ListAfterClearAndCreate(title: string, newId: Id, now: Timestamp)
    requires title != ""
    ensures GetTasks(Service.ClearAll()).response == Response(200, TaskListBody([]))
    ensures
      var post := CreateTask(Service.ClearAll(), CreateRequest(Some(JString(title)), None), newId, now);
      && post.response.body.TaskBody?
      && GetTasks(post.store).response == Response(200, TaskListBody([post.response.body.task]))
      && post.response.body.task.title == title
  {
  }

  /** Once a delete answered 204, fetching the same id answers 404. */
  lemma DeleteThenGetNotFound(store: Service.Store, id: Id)
    requires DeleteTask(store, id).response.status == 204
    ensures GetTask(DeleteTask(store, id).store, id).response == NotFound
  {
  }

  /** Deleting an unknown id twice in a row answers 404 both times and the
      store keeps its size. */
  lemma DeleteUnknownKeepsSize(store: Service.Store, id: Id)
    requires !Service.HasId(store, id)
    ensures DeleteTask(store, id).response.status == 404
    ensures |DeleteTask(store, id).store| == |store|
  {
  }

  /** A rejected creation request (title missing, empty, or not a string)
      never grows the store. */
  lemma RejectedCreateKeepsStore(store: Service.Store, request: CreateRequest, newId: Id, now: Timestamp)
    requires TitleRejected(request.title)
    ensures CreateTask(store, request, newId, now) == Handled(store, Response(400, ErrorBody(TitleRequiredMessage)))
  {
  }

  /** Creation through the handler keeps every title non-empty. */
  lemma CreateKeepsNonEmptyTitles(store: Service.Store, request: CreateRequest, newId: Id, now: Timestamp)
    requires NonEmptyTitles(store)
    ensures NonEmptyTitles(CreateTask(store, request, newId, now).store)
  {
  }

  /** Update does not validate: an empty title is accepted with 200 and
      stored, so the non-empty-title invariant does not survive updates. */
  lemma UpdateAcceptsEmptyTitle(store: Service.Store, id: Id, now: Timestamp)
    requires Service.HasId(store, id)
    ensures var h := UpdateTask(store, id, UpdateInput(Some(""), None, None), now);
      && h.response.status == 200
      && h.response.body.TaskBody?
      && h.response.body.task.title == ""
      && !NonEmptyTitles(h.store)
  {
  }

  /** The documented request sequence, on any store where the generated id
      is fresh: POST {title: "Buy milk"} answers 201 with an empty description
      and completed false; GET answers 200 with that title; PUT
      {completed: true} answers 200 with completed true and the title
      unchanged; DELETE answers 204; a second GET answers 404. */
  lemma BuyMilkScenario(store: Service.Store, newId: Id, t0: Timestamp, t1: Timestamp)
    requires !Service.HasId(store, newId)
    ensures
      var post := CreateTask(store, CreateRequest(Some(JString("Buy milk")), None), newId, t0);
      var get := GetTask(post.store, newId);
      var put := UpdateTask(get.store, newId, UpdateInput(None, None, Some(true)), t1);
      var del := DeleteTask(put.store, newId);
      var gone := GetTask(del.store, newId);
      && post.response.status == 201
      && post.response.body.TaskBody?
      && post.response.body.task.id == newId
      && post.response.body.task.description == ""
      && !post.response.body.task.completed
      && get.response == Response(200, TaskBody(post.response.body.task))
      && put.response.status == 200
      && put.response.body.TaskBody?
      && put.response.body.task.completed
      && put.response.body.task.title == "Buy milk"
      && del.response.status == 204
      && gone.response == NotFound
  {
  }
}
