/** The request handlers: each maps a parsed request and the current store to
    the new store and the response (status and body). Routing, the HTTP
    objects and JSON on the wire are not part of this model. */
module TaskController {
  import opened Wrappers
  import opened Tasks
  import Service = TaskService
  import StoreProperties

  /** A parsed JSON value, as much of it as the handlers inspect. Numbers are
      integers here; NaN is not represented. */
  datatype Json =
    | JNull
    | JBool(b: bool)
    | JNumber(n: int)
    | JString(s: string)
    | JArray(items: seq<Json>)
    | JObject(fields: seq<(string, Json)>)

  /** JavaScript truthiness of a JSON value. */
  predicate Truthy(v: Json)
  {
    match v
    case JNull => false
    case JBool(b) => b
    case JNumber(n) => n != 0
    case JString(s) => s != ""
    case JArray(_) => true
    case JObject(_) => true
  }

  const NotFoundMessage: string := "Task not found"
  const TitleRequiredMessage: string := "Title is required and must be a string"

  datatype Body =
    | TaskBody(task: Task)
    | TaskListBody(tasks: seq<Task>)
    | ErrorBody(error: string)
    | EmptyBody

  datatype Response = Response(status: nat, body: Body)

  /** A handler's outcome: the store afterwards and the response sent. */
  datatype Handled = Handled(store: Service.Store, response: Response)

  const NotFound: Response := Response(404, ErrorBody(NotFoundMessage))

  /** The body of a creation request: the title as whatever JSON value was
      sent (None when the key is missing), and the optional description. */
  datatype CreateRequest = CreateRequest(title: Option<Json>, description: Option<string>)

  /** `!title || typeof title !== 'string'`: the creation guard. */
  predicate TitleRejected(title: Option<Json>)
  {
    title.None? || !Truthy(title.value) || !title.value.JString?
  }

  /** GET /api/tasks: always 200 with every task, store untouched. */
  function GetTasks(store: Service.Store): (h: Handled)
    ensures h.store == store
    ensures h.response.status == 200
    ensures h.response.body.TaskListBody?
    ensures |h.response.body.tasks| == |store|
    ensures forall i :: 0 <= i < |store| ==> h.response.body.tasks[i] == store[i]
  {
    Handled(store, Response(200, TaskListBody(Service.GetAll(store))))
  }

  /** GET /api/tasks/:id: 404 exactly when no task carries `id`, otherwise
      200 with the first task that does. */
  function GetTask(store: Service.Store, id: Id): (h: Handled)
    ensures h.store == store
    ensures h.response.status == 404 <==> !Service.HasId(store, id)
    ensures h.response.status == 404 ==> h.response == NotFound
    ensures h.response.status != 404 ==>
      && h.response.status == 200
      && (exists i :: Service.IsFirstMatch(store, id, i) && h.response.body == TaskBody(store[i]))
  {
    match Service.GetById(store, id)
    case None => Handled(store, NotFound)
    case Some(task) => Handled(store, Response(200, TaskBody(task)))
  }

  /** POST /api/tasks: 400 and no change unless the title is a non-empty
      string; otherwise 201 with the task appended under `newId` at `now`. */
  function CreateTask(store: Service.Store, request: CreateRequest, newId: Id, now: Timestamp): (h: Handled)
    ensures h.response.status == 400 <==>
      !(request.title.Some? && request.title.value.JString? && request.title.value.s != "")
    ensures h.response.status == 400 ==>
      h.store == store && h.response.body == ErrorBody(TitleRequiredMessage)
    ensures h.response.status != 400 ==>
      && h.response.status == 201
      && |h.store| == |store| + 1
      && (forall i :: 0 <= i < |store| ==> h.store[i] == store[i])
      && h.response.body == TaskBody(h.store[|store|])
      && h.store[|store|].id == newId
      && h.store[|store|].title == request.title.value.s
      && !h.store[|store|].completed
      && h.store[|store|].description == request.description.GetOr("")
      && h.store[|store|].createdAt == now
      && h.store[|store|].updatedAt == now
  {
    if TitleRejected(request.title) then
      Handled(store, Response(400, ErrorBody(TitleRequiredMessage)))
    else
      var created := Service.CreateTask(store, CreateInput(request.title.value.s, request.description), newId, now);
      Handled(created.store, Response(201, TaskBody(created.task)))
  }

  /** PUT /api/tasks/:id: no validation; the supplied fields go to the store
      as they are. 404 exactly when no task carries `id`, otherwise 200 with
      the merged task written over the first match. */
  function UpdateTask(store: Service.Store, id: Id, request: UpdateInput, now: Timestamp): (h: Handled)
    ensures h.response.status == 404 <==> !Service.HasId(store, id)
    ensures h.response.status == 404 ==> h.store == store && h.response == NotFound
    ensures h.response.status != 404 ==>
      && h.response.status == 200
      && (exists i :: Service.IsFirstMatch(store, id, i)
           && h.response.body == TaskBody(Service.Merge(store[i], request, now))
           && h.store == store[i := Service.Merge(store[i], request, now)])
  {
    var updated := Service.UpdateTask(store, id, request, now);
    match updated.task
    case None => Handled(store, NotFound)
    case Some(task) =>
      var i :| Service.IsFirstMatch(store, id, i)
        && task == Service.Merge(store[i], request, now)
        && |updated.store| == |store|
        && updated.store[i] == task
        && forall j :: 0 <= j < |store| && j != i ==> updated.store[j] == store[j];
      assert updated.store == store[i := task];
      Handled(updated.store, Response(200, TaskBody(task)))
  }

  /** DELETE /api/tasks/:id: 204 with no body exactly when some task carried
      `id` (all of them are gone afterwards), otherwise 404 and no change. */
  function DeleteTask(store: Service.Store, id: Id): (h: Handled)
    ensures h.response.status == 204 <==> Service.HasId(store, id)
    ensures h.response.status != 204 ==> h.store == store && h.response == NotFound
    ensures h.response.status == 204 ==> h.response.body == EmptyBody
    ensures !Service.HasId(h.store, id)
    ensures forall t :: t in h.store <==> t in store && t.id != id
  {
    var deleted := Service.DeleteTask(store, id);
    if !deleted.removed then
      StoreProperties.DeleteAbsentIsIdentity(store, id);
      Handled(deleted.store, NotFound)
    else
      Handled(deleted.store, Response(204, EmptyBody))
  }
}
