/**
 * The browser's task store (store/taskStore.ts): the list of tasks the board shows, a loading
 * flag and an error text. Each API call is represented by its outcome, a success carrying the
 * server's answer or a failure carrying the error the call rejects with.
 */
module ClientTasks {
  import opened Wrappers
  import opened Entities

  /**
   * A task as the client holds it. `status` is kept as the raw string received, since
   * nothing on the client checks it on arrival.
   */
  datatype ClientTask = ClientTask(
    id: int,
    title: string,
    description: Option<string>,
    status: string,
    order: int,
    creatorName: string,
    createdAt: string)

  /** The client's UpdateTaskRequest: every field optional. */
  datatype TaskChanges = TaskChanges(
    title: Option<string> := None,
    description: Option<string> := None,
    status: Option<Status> := None,
    order: Option<int> := None)

  /** The error an API call rejects with. */
  datatype ApiError = ApiError(message: string)

  const FetchFailedMessage := "태스크를 불러오는데 실패했습니다."

  /** `{ ...t, ...data }`: each field present in `data` replaces the task's. */
  function Spread(t: ClientTask, data: TaskChanges): (r: ClientTask)
    ensures r.id == t.id && r.creatorName == t.creatorName && r.createdAt == t.createdAt
    ensures data.title.Some? ==> r.title == data.title.value
    ensures data.title.None? ==> r.title == t.title
    ensures data.description.Some? ==> r.description == data.description
    ensures data.description.None? ==> r.description == t.description
    ensures data.status.Some? ==> r.status == StatusName(data.status.value)
    ensures data.status.None? ==> r.status == t.status
    ensures data.order.Some? ==> r.order == data.order.value
    ensures data.order.None? ==> r.order == t.order
  {
    t.(title := if data.title.Some? then data.title.value else t.title,
       description := if data.description.Some? then data.description else t.description,
       status := if data.status.Some? then StatusName(data.status.value) else t.status,
       order := if data.order.Some? then data.order.value else t.order)
  }

  /** The optimistic list of updateTask: every task with the id gets the changes. */
  function ApplyChanges(ts: seq<ClientTask>, id: int, data: TaskChanges): (r: seq<ClientTask>)
    ensures |r| == |ts|
    ensures forall i | 0 <= i < |ts| :: r[i].id == ts[i].id
    ensures forall i | 0 <= i < |ts| && ts[i].id != id :: r[i] == ts[i]
    ensures forall i | 0 <= i < |ts| && ts[i].id == id :: r[i] == Spread(ts[i], data)
  {
    seq(|ts|, i requires 0 <= i < |ts| => if ts[i].id == id then Spread(ts[i], data) else ts[i])
  }

  /** The optimistic list of deleteTask: `filter((t) => t.id !== id)`. */
  function RemoveById(ts: seq<ClientTask>, id: int): (r: seq<ClientTask>)
    ensures |r| <= |ts|
    ensures forall t :: t in r <==> t in ts && t.id != id
  {
    if ts == [] then []
    else RemoveById(ts[..|ts| - 1], id) + (if ts[|ts| - 1].id != id then [ts[|ts| - 1]] else [])
  }

  /** `find((t) => t.id === id)`: the first task with the id, if any. */
  function FindById(ts: seq<ClientTask>, id: int): (r: Option<ClientTask>)
    ensures r.None? <==> forall t | t in ts :: t.id != id
    ensures r.Some? ==> exists i | 0 <= i < |ts| ::
      ts[i] == r.value && ts[i].id == id && forall j | 0 <= j < i :: ts[j].id != id
  {
    if ts == [] then None
    else if ts[0].id == id then Some(ts[0])
    else
      var r := FindById(ts[1..], id);
      assert forall t | t in ts :: t == ts[0] || t in ts[1..];
      if r.Some? then
        var i :| 0 <= i < |ts[1..]| && ts[1..][i] == r.value && ts[1..][i].id == id
          && forall j | 0 <= j < i :: ts[1..][j].id != id;
        assert ts[i + 1] == r.value && forall j | 0 <= j < i + 1 :: ts[j].id != id;
        r
      else r
  }

  /** The changes moveTask sends: status and order only. */
  function MoveChanges(newStatus: Status, newOrder: int): TaskChanges
  {
    TaskChanges(status := Some(newStatus), order := Some(newOrder))
  }

  /** Filtering distributes over concatenation, so the kept tasks stay in their order. */
  lemma {:induction false} RemoveByIdAppend(a: seq<ClientTask>, b: seq<ClientTask>, id: int)
    ensures RemoveById(a + b, id) == RemoveById(a, id) + RemoveById(b, id)
    decreases |b|
  {
    if b == [] {
      assert a + b == a;
    } else {
      var last := b[|b| - 1];
      assert (a + b)[..|a + b| - 1] == a + b[..|b| - 1];
      RemoveByIdAppend(a, b[..|b| - 1], id);
    }
  }

  /** Removing an id no task has changes nothing; removing it twice is removing it once. */
  lemma {:induction false} RemoveByIdAbsent(ts: seq<ClientTask>, id: int)
    requires forall t | t in ts :: t.id != id
    ensures RemoveById(ts, id) == ts
    decreases |ts|
  {
    if ts != [] {
      var init, last := ts[..|ts| - 1], ts[|ts| - 1];
      assert ts == init + [last];
      assert last in ts;
      assert forall t | t in init :: t in ts;
      RemoveByIdAbsent(init, id);
    }
  }

  lemma RemoveByIdIdempotent(ts: seq<ClientTask>, id: int)
    ensures RemoveById(RemoveById(ts, id), id) == RemoveById(ts, id)
  {
    RemoveByIdAbsent(RemoveById(ts, id), id);
  }

  /** Re-applying the same changes does nothing more, and no changes do nothing at all. */
  lemma ApplyChangesIdempotent(ts: seq<ClientTask>, id: int, data: TaskChanges)
    ensures ApplyChanges(ApplyChanges(ts, id, data), id, data) == ApplyChanges(ts, id, data)
    ensures ApplyChanges(ts, id, TaskChanges()) == ts
  {
  }

  /** A move touches only the status and order of the moved task; everything else is kept. */
  lemma MoveKeepsTheRest(ts: seq<ClientTask>, id: int, newStatus: Status, newOrder: int, i: int)
    requires 0 <= i < |ts|
    ensures var r := ApplyChanges(ts, id, MoveChanges(newStatus, newOrder));
      && r[i].(status := ts[i].status, order := ts[i].order) == ts[i]
      && (ts[i].id == id ==> r[i].status == StatusName(newStatus) && r[i].order == newOrder)
      && (ts[i].id != id ==> r[i] == ts[i])
  {
  }

  class TaskStore {
    var tasks: seq<ClientTask>
    var isLoading: bool
    var error: Option<string>

    constructor ()
      ensures tasks == [] && !isLoading && error == None
    {
      tasks := [];
      isLoading := false;
      error := None;
    }

    /** The first `set` of fetchTasks, before the request is answered. */
    method BeginFetch()
      modifies this
      ensures isLoading && error == None && tasks == old(tasks)
    {
      isLoading := true;
      error := None;
    }

    /** The `set` once the request is answered: the new list, or the error text and the old list. */
    method EndFetch(response: Result<seq<ClientTask>, ApiError>)
      modifies this
      ensures !isLoading
      ensures response.Success? ==> tasks == response.value && error == old(error)
      ensures response.Failure? ==> tasks == old(tasks) && error == Some(FetchFailedMessage)
    {
      match response
      case Success(data) =>
        tasks := data;
        isLoading := false;
      case Failure(_) =>
        error := Some(FetchFailedMessage);
        isLoading := false;
    }

    /** fetchTasks: never rejects; a failure is recorded in `error`. */
    method FetchTasks(response: Result<seq<ClientTask>, ApiError>)
      modifies this
      ensures !isLoading
      ensures response.Success? ==> tasks == response.value && error == None
      ensures response.Failure? ==> tasks == old(tasks) && error == Some(FetchFailedMessage)
    {
      BeginFetch();
      EndFetch(response);
    }

    /** createTask: the created task is appended; a failed request changes nothing and rejects. */
    method CreateTask(response: Result<ClientTask, ApiError>) returns (thrown: Option<ApiError>)
      modifies this`tasks
      ensures response.Success? ==> tasks == old(tasks) + [response.value] && thrown == None
      ensures response.Failure? ==> tasks == old(tasks) && thrown == Some(response.error)
    {
      match response
      case Success(created) =>
        tasks := tasks + [created];
        thrown := None;
      case Failure(e) =>
        thrown := Some(e);
    }

    /**
     * updateTask: the changes are shown at once (`shown`); a failed request puts back exactly
     * the list from before the call and rejects with the request's error.
     */
    method UpdateTask(id: int, data: TaskChanges, response: Result<(), ApiError>)
      returns (thrown: Option<ApiError>, ghost shown: seq<ClientTask>)
      modifies this`tasks
      ensures shown == ApplyChanges(old(tasks), id, data)
      ensures response.Success? ==> tasks == shown && thrown == None
      ensures response.Failure? ==> tasks == old(tasks) && thrown == Some(response.error)
    {
      var previousTasks := tasks;
      tasks := ApplyChanges(tasks, id, data);
      shown := tasks;
      match response
      case Success(_) =>
        thrown := None;
      case Failure(e) =>
        tasks := previousTasks;
        thrown := Some(e);
    }

    /** deleteTask: the task disappears at once; a failed request puts the old list back. */
    method DeleteTask(id: int, response: Result<(), ApiError>)
      returns (thrown: Option<ApiError>, ghost shown: seq<ClientTask>)
      modifies this`tasks
      ensures shown == RemoveById(old(tasks), id)
      ensures response.Success? ==> tasks == shown && thrown == None
      ensures response.Failure? ==> tasks == old(tasks) && thrown == Some(response.error)
    {
      var previousTasks := tasks;
      tasks := RemoveById(tasks, id);
      shown := tasks;
      match response
      case Success(_) =>
        thrown := None;
      case Failure(e) =>
        tasks := previousTasks;
        thrown := Some(e);
    }

    /** moveTask: nothing for an unknown id; otherwise an update of status and order only. */
    method MoveTask(activeId: int, newStatus: Status, newOrder: int, response: Result<(), ApiError>)
      returns (thrown: Option<ApiError>)
      modifies this`tasks
      ensures FindById(old(tasks), activeId).None? ==> tasks == old(tasks) && thrown == None
      ensures FindById(old(tasks), activeId).Some? && response.Success? ==>
        tasks == ApplyChanges(old(tasks), activeId, MoveChanges(newStatus, newOrder)) && thrown == None
      ensures FindById(old(tasks), activeId).Some? && response.Failure? ==>
        tasks == old(tasks) && thrown == Some(response.error)
    {
      var task := FindById(tasks, activeId);
      if task.Some? {
        ghost var shown;
        thrown, shown := UpdateTask(activeId, MoveChanges(newStatus, newOrder), response);
      } else {
        thrown := None;
      }
    }
  }
}
