/**
 * The task service (service/TaskService.kt and its Java twin): listing, creating, updating
 * and deleting tasks on behalf of an authenticated requester, whose identity (the email the
 * token names) is a parameter.
 *
 * Each operation is first stated on values, as a function from the tables to an `Effect`;
 * the service class then carries the operation out on the repositories, loading and mutating
 * a `Task` entity as the source does, and is proved to produce that effect.
 */
module Tasks {
  import opened Wrappers
  import opened Entities
  import opened Errors
  import opened Repositories

  datatype CreateTaskRequest = CreateTaskRequest(title: string, description: Option<string> := None)

  /** A partial update: an absent (null) field means "leave unchanged". */
  datatype UpdateTaskRequest = UpdateTaskRequest(
    title: Option<string> := None,
    description: Option<string> := None,
    status: Option<Status> := None,
    order: Option<int> := None)

  datatype TaskDto = TaskDto(
    id: int,
    title: string,
    description: Option<string>,
    status: Status,
    order: Option<int>,
    creatorName: string,
    createdAt: DateTime)

  /** What an operation returns or throws, and the task table after it. */
  datatype Effect<T> = Effect(result: Result<T, ServiceError>, rows: map<int, TaskRow>)

  const UserNotFound := ServiceError(UsernameNotFound, Some(UserNotFoundMessage))
  const NotFound := ServiceError(TaskNotFound, Some(TaskNotFoundMessage))
  const Forbidden := ServiceError(UnauthorizedAccess, Some(NoPermissionMessage))

  /**
   * mapToDto: the client's view of a row. It carries every field as stored except the owner,
   * of whom it gives the name, and updatedAt.
   */
  function ToDto(row: TaskRow): (d: TaskDto)
    ensures d.creatorName == row.user.name
    ensures TaskRow(d.id, d.title, d.description, d.status, d.order, row.user, d.createdAt, row.updatedAt) == row
  {
    TaskDto(row.id, row.title, row.description, row.status, row.order, row.user.name, row.createdAt)
  }

  /** The ownership test of updateTask and deleteTask: the owner's username is the requester. */
  function OwnedBy(row: TaskRow, username: string): (owned: bool)
    ensures owned <==> row.user.email == username
  {
    row.user.Username() == username
  }

  /** getUser: the user registered under an email, else UsernameNotFoundException. */
  function GetUser(users: map<string, User>, email: string): (r: Result<User, ServiceError>)
    ensures r.Success? <==> email in users
    ensures r.Success? ==> r.value == users[email]
    ensures r.Success? && UsersKeyed(users) ==> r.value.Username() == email && r.value.id.Some?
    ensures r.Failure? ==> r.error == UserNotFound
  {
    if email in users then Success(users[email]) else Failure(UserNotFound)
  }

  /** The table invariant the services keep: keys, and owners that are registered users. */
  predicate Consistent(users: map<string, User>, rows: map<int, TaskRow>, nextId: int)
  {
    && UsersKeyed(users)
    && RowsKeyed(rows, nextId) && 1 <= nextId
    && (forall k | k in rows :: rows[k].order.Some?)
    && forall k | k in rows :: rows[k].user.email in users && users[rows[k].user.email] == rows[k].user
  }

  // ---------------------------------------------------------------------------------------
  // getTasks

  /** Ascending by order; the model puts a null order first (how the database orders nulls is not fixed). */
  predicate OrderLe(a: Option<int>, b: Option<int>)
  {
    a.None? || (b.Some? && a.value <= b.value)
  }

  predicate SortedByOrder(s: seq<TaskRow>)
  {
    forall i, j | 0 <= i < j < |s| :: OrderLe(s[i].order, s[j].order)
  }

  predicate DistinctIds(s: seq<TaskRow>)
  {
    forall i, j | 0 <= i < j < |s| :: s[i].id != s[j].id
  }

  function InsertByOrder(x: TaskRow, s: seq<TaskRow>): (r: seq<TaskRow>)
    ensures multiset(r) == multiset(s) + multiset{x}
  {
    if s == [] then [x]
    else if OrderLe(x.order, s[0].order) then [x] + s
    else
      assert s == [s[0]] + s[1..];
      [s[0]] + InsertByOrder(x, s[1..])
  }

  /** The ordering of findAllByUserOrderByOrderAsc, by insertion; a permutation of its input. */
  function SortByOrder(s: seq<TaskRow>): (r: seq<TaskRow>)
    ensures multiset(r) == multiset(s)
  {
    if s == [] then []
    else
      assert s == [s[0]] + s[1..];
      InsertByOrder(s[0], SortByOrder(s[1..]))
  }

  lemma {:induction false} InsertKeepsSorted(x: TaskRow, s: seq<TaskRow>)
    requires SortedByOrder(s)
    ensures SortedByOrder(InsertByOrder(x, s))
    decreases s
  {
    if s != [] && !OrderLe(x.order, s[0].order) {
      var rest := InsertByOrder(x, s[1..]);
      InsertKeepsSorted(x, s[1..]);
      forall i | 0 <= i < |rest| ensures OrderLe(s[0].order, rest[i].order) {
        assert rest[i] in multiset(rest);
        if rest[i] != x {
          assert rest[i] in s[1..];
          var j :| 0 <= j < |s[1..]| && s[1..][j] == rest[i];
          assert s[j + 1] == rest[i];
        }
      }
    }
  }

  lemma {:induction false} InsertKeepsDistinct(x: TaskRow, s: seq<TaskRow>)
    requires DistinctIds(s) && forall y | y in s :: y.id != x.id
    ensures DistinctIds(InsertByOrder(x, s))
    decreases s
  {
    if s != [] && !OrderLe(x.order, s[0].order) {
      var rest := InsertByOrder(x, s[1..]);
      assert forall y | y in s[1..] :: y in s;
      InsertKeepsDistinct(x, s[1..]);
      forall i | 0 <= i < |rest| ensures s[0].id != rest[i].id {
        assert rest[i] in multiset(rest);
        if rest[i] != x {
          assert rest[i] in s[1..];
          var j :| 0 <= j < |s[1..]| && s[1..][j] == rest[i];
          assert s[j + 1] == rest[i];
        }
      }
    }
  }

  /** The sort orders its input, and keeps distinct ids distinct. */
  lemma {:induction false} SortByOrderSorts(s: seq<TaskRow>)
    ensures SortedByOrder(SortByOrder(s))
    ensures DistinctIds(s) ==> DistinctIds(SortByOrder(s))
    decreases s
  {
    if s != [] {
      SortByOrderSorts(s[1..]);
      InsertKeepsSorted(s[0], SortByOrder(s[1..]));
      if DistinctIds(s) {
        var rest := SortByOrder(s[1..]);
        forall y | y in rest ensures y.id != s[0].id {
          assert y in multiset(rest);
          var j :| 0 <= j < |s[1..]| && s[1..][j] == y;
          assert s[j + 1] == y;
        }
        InsertKeepsDistinct(s[0], rest);
      }
    }
  }

  /** The rows owned by a user with an id below `bound`, by ascending id. */
  function OwnedRows(rows: map<int, TaskRow>, user: User, bound: int): (s: seq<TaskRow>)
    requires forall k | k in rows :: rows[k].id == k
    ensures forall y | y in s :: y.id in rows && rows[y.id] == y && y.user == user && y.id < bound
    ensures forall i, j | 0 <= i < j < |s| :: s[i].id < s[j].id
    ensures forall k | k in rows && 0 <= k < bound && rows[k].user == user :: rows[k] in s
    decreases bound
  {
    if bound <= 0 then []
    else
      var last := bound - 1;
      OwnedRows(rows, user, last) + (if last in rows && rows[last].user == user then [rows[last]] else [])
  }

  function ToDtos(s: seq<TaskRow>): (ds: seq<TaskDto>)
    ensures |ds| == |s| && forall i | 0 <= i < |s| :: ds[i] == ToDto(s[i])
  {
    seq(|s|, i requires 0 <= i < |s| => ToDto(s[i]))
  }

  /** findAllByUserOrderByOrderAsc: exactly the user's rows, each once, in ascending order. */
  function FindAllByUserOrderByOrderAsc(rows: map<int, TaskRow>, nextId: int, user: User): (s: seq<TaskRow>)
    requires RowsKeyed(rows, nextId)
    ensures forall y | y in s :: y.id in rows && rows[y.id] == y && y.user == user
    ensures forall k | k in rows && rows[k].user == user :: rows[k] in s
    ensures DistinctIds(s) && SortedByOrder(s)
  {
    var owned := OwnedRows(rows, user, nextId);
    var sorted := SortByOrder(owned);
    SortByOrderSorts(owned);
    assert forall y :: y in sorted <==> y in owned by {
      forall y ensures y in sorted <==> y in owned {
        assert y in sorted <==> y in multiset(sorted);
      }
    }
    sorted
  }

  /**
   * getTasks: fails when the requester is not a user; otherwise exactly the requester's
   * tasks, each once, each as stored, in ascending order.
   */
  function ListTasks(users: map<string, User>, rows: map<int, TaskRow>, nextId: int, username: string)
    : (r: Result<seq<TaskDto>, ServiceError>)
    requires RowsKeyed(rows, nextId)
    ensures r.Failure? <==> username !in users
    ensures r.Failure? ==> r.error == UserNotFound
    ensures r.Success? ==> forall d | d in r.value ::
      d.id in rows && rows[d.id].user == users[username] && d == ToDto(rows[d.id])
    ensures r.Success? ==> forall k | k in rows && rows[k].user == users[username] :: ToDto(rows[k]) in r.value
    ensures r.Success? ==> forall i, j | 0 <= i < j < |r.value| :: r.value[i].id != r.value[j].id
    ensures r.Success? ==> forall i, j | 0 <= i < j < |r.value| :: OrderLe(r.value[i].order, r.value[j].order)
  {
    var user := GetUser(users, username);
    if user.Failure? then Failure(user.error)
    else
      var found := FindAllByUserOrderByOrderAsc(rows, nextId, user.value);
      DtosOfRows(rows, user.value, found);
      Success(ToDtos(found))
  }

  /** Mapping rows to DTOs keeps what the query promises, now said of the DTOs. */
  lemma DtosOfRows(rows: map<int, TaskRow>, user: User, found: seq<TaskRow>)
    requires forall y | y in found :: y.id in rows && rows[y.id] == y && y.user == user
    requires forall k | k in rows && rows[k].user == user :: rows[k] in found
    requires DistinctIds(found) && SortedByOrder(found)
    ensures var ds := ToDtos(found);
      && (forall d | d in ds :: d.id in rows && rows[d.id].user == user && d == ToDto(rows[d.id]))
      && (forall k | k in rows && rows[k].user == user :: ToDto(rows[k]) in ds)
      && (forall i, j | 0 <= i < j < |ds| :: ds[i].id != ds[j].id)
      && (forall i, j | 0 <= i < j < |ds| :: OrderLe(ds[i].order, ds[j].order))
  {
    var ds := ToDtos(found);
    forall d | d in ds ensures d.id in rows && rows[d.id].user == user && d == ToDto(rows[d.id]) {
      var i :| 0 <= i < |ds| && ds[i] == d;
      assert found[i] in found;
    }
    forall k | k in rows && rows[k].user == user ensures ToDto(rows[k]) in ds {
      var i :| 0 <= i < |found| && found[i] == rows[k];
      assert ds[i] == ToDto(rows[k]);
    }
  }

  // ---------------------------------------------------------------------------------------
  // createTask

  /**
   * createTask: fails when the requester is not a user; otherwise inserts, under the next id,
   * a TODO task owned by the requester, ordered by the clock, with the request's text.
   */
  function CreateSpec(users: map<string, User>, rows: map<int, TaskRow>, nextId: int, username: string,
                      request: CreateTaskRequest, millis: int,
                      createdNow: DateTime, updatedNow: DateTime): (o: Effect<TaskDto>)
    requires RowsKeyed(rows, nextId) && 1 <= nextId
    ensures o.result.Failure? <==> username !in users
    ensures o.result.Failure? ==> o.result.error == UserNotFound && o.rows == rows
    ensures o.result.Success? ==>
      && nextId !in rows
      && o.rows.Keys == rows.Keys + {nextId}
      && (forall k | k in rows :: o.rows[k] == rows[k])
      && o.rows[nextId].id == nextId
      && o.rows[nextId].title == request.title
      && o.rows[nextId].description == request.description
      && o.rows[nextId].status == TODO
      && o.rows[nextId].order == Some(millis)
      && o.rows[nextId].user == users[username]
      && o.rows[nextId].createdAt == createdNow && o.rows[nextId].updatedAt == updatedNow
      && o.result.value == ToDto(o.rows[nextId])
  {
    match GetUser(users, username)
    case Failure(e) => Effect(Failure(e), rows)
    case Success(user) =>
      var row := TaskRow(nextId, request.title, request.description, TODO, Some(millis), user, createdNow, updatedNow);
      Effect(Success(ToDto(row)), rows[nextId := row])
  }

  // ---------------------------------------------------------------------------------------
  // updateTask

  /** `after` is `before` with the request's present fields written and nothing else changed. */
  predicate MergedFrom(after: TaskRow, before: TaskRow, request: UpdateTaskRequest)
  {
    && after.id == before.id && after.user == before.user && after.createdAt == before.createdAt
    && after.title == (if request.title.Some? then request.title.value else before.title)
    && after.description == (if request.description.Some? then request.description else before.description)
    && after.status == (if request.status.Some? then request.status.value else before.status)
    && after.order == (if request.order.Some? then request.order else before.order)
  }

  /** The field-by-field update: each present field replaces the stored one. */
  function Merge(row: TaskRow, request: UpdateTaskRequest): (r: TaskRow)
    ensures MergedFrom(r, row, request)
    ensures r.updatedAt == row.updatedAt
  {
    row.(
      title := if request.title.Some? then request.title.value else row.title,
      description := if request.description.Some? then request.description else row.description,
      status := if request.status.Some? then request.status.value else row.status,
      order := if request.order.Some? then request.order else row.order)
  }

  /**
   * updateTask: a missing id is TaskNotFound, then a foreign task is UnauthorizedAccess, both
   * without any change; otherwise only that task changes, as the request says, and its
   * updatedAt is refreshed exactly when something changed.
   */
  function UpdateSpec(rows: map<int, TaskRow>, username: string, taskId: int,
                      request: UpdateTaskRequest, now: DateTime): (o: Effect<TaskDto>)
    ensures taskId !in rows ==> o == Effect(Failure(NotFound), rows)
    ensures taskId in rows && !OwnedBy(rows[taskId], username) ==> o == Effect(Failure(Forbidden), rows)
    ensures taskId in rows && OwnedBy(rows[taskId], username) ==>
      && o.result.Success?
      && o.rows.Keys == rows.Keys
      && (forall k | k in rows && k != taskId :: o.rows[k] == rows[k])
      && MergedFrom(o.rows[taskId], rows[taskId], request)
      && o.rows[taskId].updatedAt == (if Merge(rows[taskId], request) == rows[taskId] then rows[taskId].updatedAt else now)
      && o.result.value == ToDto(o.rows[taskId])
  {
    if taskId !in rows then Effect(Failure(NotFound), rows)
    else if !OwnedBy(rows[taskId], username) then Effect(Failure(Forbidden), rows)
    else
      var saved := Flushed(rows[taskId], Merge(rows[taskId], request), now);
      Effect(Success(ToDto(saved)), rows[taskId := saved])
  }

  // ---------------------------------------------------------------------------------------
  // deleteTask

  /**
   * deleteTask: the same two checks in the same order, both without any change; otherwise
   * exactly that task is removed.
   */
  function DeleteSpec(rows: map<int, TaskRow>, username: string, taskId: int): (o: Effect<()>)
    ensures taskId !in rows ==> o == Effect(Failure(NotFound), rows)
    ensures taskId in rows && !OwnedBy(rows[taskId], username) ==> o == Effect(Failure(Forbidden), rows)
    ensures taskId in rows && OwnedBy(rows[taskId], username) ==>
      && o.result.Success?
      && o.rows.Keys == rows.Keys - {taskId}
      && (forall k | k in o.rows :: o.rows[k] == rows[k])
  {
    if taskId !in rows then Effect(Failure(NotFound), rows)
    else if !OwnedBy(rows[taskId], username) then Effect(Failure(Forbidden), rows)
    else Effect(Success(()), rows - {taskId})
  }

  // ---------------------------------------------------------------------------------------
  // Properties relating the operations

  /** An update with every field absent changes nothing, not even updatedAt. */
  lemma EmptyUpdateChangesNothing(rows: map<int, TaskRow>, username: string, taskId: int, now: DateTime)
    requires taskId in rows && OwnedBy(rows[taskId], username)
    ensures UpdateSpec(rows, username, taskId, UpdateTaskRequest(), now)
         == Effect(Success(ToDto(rows[taskId])), rows)
  {
    assert rows[taskId := rows[taskId]] == rows;
  }

  /** Repeating an update changes nothing more. */
  lemma UpdateIdempotent(rows: map<int, TaskRow>, username: string, taskId: int,
                         request: UpdateTaskRequest, now: DateTime, later: DateTime)
    ensures var once := UpdateSpec(rows, username, taskId, request, now);
      UpdateSpec(once.rows, username, taskId, request, later).rows == once.rows
  {
    var once := UpdateSpec(rows, username, taskId, request, now);
    if taskId in rows && OwnedBy(rows[taskId], username) {
      var saved := once.rows[taskId];
      assert Merge(saved, request) == saved;
      assert once.rows[taskId := saved] == once.rows;
    }
  }

  /** A requester never changes or removes a task they do not own, whatever the operation. */
  lemma ForeignTasksUntouched(rows: map<int, TaskRow>, username: string, taskId: int,
                              request: UpdateTaskRequest, now: DateTime, k: int)
    requires k in rows && !OwnedBy(rows[k], username)
    ensures k in UpdateSpec(rows, username, taskId, request, now).rows
    ensures UpdateSpec(rows, username, taskId, request, now).rows[k] == rows[k]
    ensures k in DeleteSpec(rows, username, taskId).rows
    ensures DeleteSpec(rows, username, taskId).rows[k] == rows[k]
  {
  }

  /** Deleting is not idempotent: a second delete of the same id is TaskNotFound. */
  lemma SecondDeleteFails(rows: map<int, TaskRow>, username: string, taskId: int)
    requires DeleteSpec(rows, username, taskId).result.Success?
    ensures var after := DeleteSpec(rows, username, taskId).rows;
      DeleteSpec(after, username, taskId) == Effect(Failure(NotFound), after)
  {
  }

  /** The listing and the ownership test agree: a stored task is listed exactly for its owner. */
  lemma ListedIffOwned(users: map<string, User>, rows: map<int, TaskRow>, nextId: int, username: string, k: int)
    requires Consistent(users, rows, nextId)
    requires username in users && k in rows
    ensures ToDto(rows[k]) in ListTasks(users, rows, nextId, username).value <==> OwnedBy(rows[k], username)
  {
    var listed := ListTasks(users, rows, nextId, username).value;
    if ToDto(rows[k]) in listed {
      var d :| d in listed && d == ToDto(rows[k]);
      assert d.id == k;
    }
  }

  /** A task just created shows up in its creator's list, as a TODO with the request's text. */
  lemma CreatedTaskIsListed(users: map<string, User>, rows: map<int, TaskRow>, nextId: int, username: string,
                            request: CreateTaskRequest, millis: int, createdNow: DateTime, updatedNow: DateTime)
    requires Consistent(users, rows, nextId)
    requires username in users
    ensures var o := CreateSpec(users, rows, nextId, username, request, millis, createdNow, updatedNow);
      && o.result.Success?
      && RowsKeyed(o.rows, nextId + 1)
      && var listed := ListTasks(users, o.rows, nextId + 1, username);
      && listed.Success?
      && o.result.value in listed.value
      && o.result.value.status == TODO
      && o.result.value.title == request.title
      && o.result.value.description == request.description
  {
    var o := CreateSpec(users, rows, nextId, username, request, millis, createdNow, updatedNow);
    assert o.rows[nextId].user == users[username];
  }

  /** In a consistent table every task has an order, so the listing is ascending by value. */
  lemma ListedOrdersAscend(users: map<string, User>, rows: map<int, TaskRow>, nextId: int, username: string)
    requires Consistent(users, rows, nextId) && username in users
    ensures var listed := ListTasks(users, rows, nextId, username).value;
      forall i, j | 0 <= i < j < |listed| ::
        listed[i].order.Some? && listed[j].order.Some? && listed[i].order.value <= listed[j].order.value
  {
    var listed := ListTasks(users, rows, nextId, username).value;
    forall i | 0 <= i < |listed| ensures listed[i].order.Some? {
      assert listed[i] in listed;
    }
  }

  /** Every operation keeps the table invariant. */
  lemma OperationsKeepConsistency(users: map<string, User>, rows: map<int, TaskRow>, nextId: int,
                                  username: string, taskId: int, create: CreateTaskRequest,
                                  update: UpdateTaskRequest, millis: int, createdNow: DateTime,
                                  updatedNow: DateTime, now: DateTime)
    requires Consistent(users, rows, nextId)
    ensures var o := CreateSpec(users, rows, nextId, username, create, millis, createdNow, updatedNow);
      Consistent(users, o.rows, if o.result.Success? then nextId + 1 else nextId)
    ensures Consistent(users, UpdateSpec(rows, username, taskId, update, now).rows, nextId)
    ensures Consistent(users, DeleteSpec(rows, username, taskId).rows, nextId)
  {
  }

  // ---------------------------------------------------------------------------------------
  // The service

  class TaskService {
    const taskRepository: TaskRepository
    const userRepository: UserRepository

    ghost predicate Valid()
      reads taskRepository, userRepository
    {
      && taskRepository.Valid() && userRepository.Valid()
      && Consistent(userRepository.byEmail, taskRepository.rows, taskRepository.nextId)
    }

    constructor (taskRepository: TaskRepository, userRepository: UserRepository)
      requires taskRepository.Valid() && userRepository.Valid()
      requires Consistent(userRepository.byEmail, taskRepository.rows, taskRepository.nextId)
      ensures this.taskRepository == taskRepository && this.userRepository == userRepository
      ensures Valid()
    {
      this.taskRepository := taskRepository;
      this.userRepository := userRepository;
    }

    /** getTasks, read off the two repositories. */
    function GetTasks(username: string): (r: Result<seq<TaskDto>, ServiceError>)
      reads taskRepository, userRepository
      requires Valid()
      ensures r.Failure? <==> username !in userRepository.byEmail
      ensures r == ListTasks(userRepository.byEmail, taskRepository.rows, taskRepository.nextId, username)
    {
      ListTasks(userRepository.byEmail, taskRepository.rows, taskRepository.nextId, username)
    }

    method CreateTask(username: string, request: CreateTaskRequest, millis: int,
                      createdNow: DateTime, updatedNow: DateTime)
      returns (r: Result<TaskDto, ServiceError>)
      requires Valid()
      modifies taskRepository
      ensures Valid()
      ensures Effect(r, taskRepository.rows)
           == CreateSpec(userRepository.byEmail, old(taskRepository.rows), old(taskRepository.nextId),
                         username, request, millis, createdNow, updatedNow)
      ensures taskRepository.nextId == old(taskRepository.nextId) + (if r.Success? then 1 else 0)
    {
      var user := userRepository.FindByEmail(username);
      if user.None? {
        return Failure(UserNotFound);
      }
      var task := new Task(title := request.title, description := request.description, status := TODO,
                           order := Some(millis), user := user.value,
                           createdNow := createdNow, updatedNow := updatedNow);
      var saved := taskRepository.Save(task, updatedNow);
      r := Success(ToDto(saved));
    }

    method UpdateTask(username: string, taskId: int, request: UpdateTaskRequest, now: DateTime)
      returns (r: Result<TaskDto, ServiceError>)
      requires Valid()
      modifies taskRepository
      ensures Valid()
      ensures Effect(r, taskRepository.rows) == UpdateSpec(old(taskRepository.rows), username, taskId, request, now)
      ensures taskRepository.nextId == old(taskRepository.nextId)
    {
      var found := taskRepository.FindById(taskId);
      if found.None? {
        return Failure(NotFound);
      }
      var task := new Task.Load(found.value);
      if task.user.Username() != username {
        return Failure(Forbidden);
      }
      if request.title.Some? {
        task.title := request.title.value;
      }
      if request.description.Some? {
        task.description := request.description;
      }
      if request.status.Some? {
        task.status := request.status.value;
      }
      if request.order.Some? {
        task.order := request.order;
      }
      assert task.RowWith(taskId) == Merge(found.value, request);
      var saved := taskRepository.Save(task, now);
      r := Success(ToDto(saved));
    }

    method DeleteTask(username: string, taskId: int) returns (r: Result<(), ServiceError>)
      requires Valid()
      modifies taskRepository
      ensures Valid()
      ensures Effect(r, taskRepository.rows) == DeleteSpec(old(taskRepository.rows), username, taskId)
      ensures taskRepository.nextId == old(taskRepository.nextId)
    {
      var found := taskRepository.FindById(taskId);
      if found.None? {
        return Failure(NotFound);
      }
      if found.value.user.Username() != username {
        return Failure(Forbidden);
      }
      taskRepository.Delete(taskId);
      r := Success(());
    }
  }
}
