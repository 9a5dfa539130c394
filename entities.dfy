/**
 * The persistent entities of the backend: users and tasks (entity/User.kt, entity/Task.kt).
 * Wall-clock instants (LocalDateTime.now()) are passed in as numbers.
 */
module Entities {
  import opened Wrappers

  /** The three board columns, stored by name (TaskStatus, @Enumerated(EnumType.STRING)). */
  datatype Status = TODO | IN_PROGRESS | DONE

  type DateTime = int

  /** The name under which a status is stored and sent as JSON. */
  function StatusName(s: Status): string
  {
    match s
    case TODO => "TODO"
    case IN_PROGRESS => "IN_PROGRESS"
    case DONE => "DONE"
  }

  /** Reads a status back from its name; any other string is not a status. */
  function ParseStatus(raw: string): (r: Option<Status>)
    ensures r.Some? ==> StatusName(r.value) == raw
    ensures r.None? ==> forall s: Status :: StatusName(s) != raw
  {
    if raw == "TODO" then Some(TODO)
    else if raw == "IN_PROGRESS" then Some(IN_PROGRESS)
    else if raw == "DONE" then Some(DONE)
    else None
  }

  lemma ParseStatusName(s: Status)
    ensures ParseStatus(StatusName(s)) == Some(s)
  {
  }

  /**
   * A user account. Every field is immutable; `id` is null until the database assigns it,
   * and `deleted` defaults to false.
   */
  datatype User = User(
    id: Option<int> := None,
    name: string,
    password: string,
    email: string,
    deleted: bool := false,
    createdAt: DateTime)
  {
    /** The login identity seen by Spring Security, and compared by the ownership checks. */
    function Username(): string { email }

    /** The stored (already encoded) password. */
    function Password(): string { password }

    function Authorities(): set<string> { {} }

    predicate IsAccountNonExpired() { true }

    predicate IsAccountNonLocked() { true }

    predicate IsCredentialsNonExpired() { true }

    predicate IsEnabled() { !deleted }
  }

  /** What the UserDetails view of a user reports, for every user. */
  lemma UserDetailsView(u: User)
    ensures u.Username() == u.email && u.Password() == u.password
    ensures u.IsEnabled() <==> !u.deleted
    ensures u.Authorities() == {}
    ensures u.IsAccountNonExpired() && u.IsAccountNonLocked() && u.IsCredentialsNonExpired()
  {
  }

  /** A user built with only the required fields is enabled and not yet persisted. */
  lemma NewUserIsEnabled(name: string, password: string, email: string, now: DateTime)
    ensures var u := User(name := name, password := password, email := email, createdAt := now);
      !u.deleted && u.IsEnabled() && u.id.None? && u.Username() == email && u.Password() == password
  {
  }

  /** A row of the tasks table, as the repository stores and returns it. */
  datatype TaskRow = TaskRow(
    id: int,
    title: string,
    description: Option<string>,
    status: Status,
    order: Option<int>,
    user: User,
    createdAt: DateTime,
    updatedAt: DateTime)

  /**
   * The task entity. `id`, `user` (the owner) and `createdAt` are constants; only title,
   * description, status, order and updatedAt can change after construction.
   */
  class Task {
    const id: Option<int>
    var title: string
    var description: Option<string>
    var status: Status
    var order: Option<int>
    const user: User
    const createdAt: DateTime
    var updatedAt: DateTime

    /**
     * The primary constructor with the entity's defaults. Each timestamp defaults to its own
     * reading of the clock, so the two need not be equal.
     */
    constructor (id: Option<int> := None, title: string, description: Option<string> := None,
                 status: Status := TODO, order: Option<int> := None, user: User,
                 createdNow: DateTime, updatedNow: DateTime)
      ensures this.id == id && this.title == title && this.description == description
      ensures this.status == status && this.order == order && this.user == user
      ensures this.createdAt == createdNow && this.updatedAt == updatedNow
    {
      this.id := id;
      this.title := title;
      this.description := description;
      this.status := status;
      this.order := order;
      this.user := user;
      this.createdAt := createdNow;
      this.updatedAt := updatedNow;
    }

    /** The managed entity the persistence layer builds when it loads a row. */
    constructor Load(row: TaskRow)
      ensures id == Some(row.id) && RowWith(row.id) == row
    {
      id := Some(row.id);
      title := row.title;
      description := row.description;
      status := row.status;
      order := row.order;
      user := row.user;
      createdAt := row.createdAt;
      updatedAt := row.updatedAt;
    }

    /** The row this entity is written as, under the given key. */
    function RowWith(key: int): TaskRow
      reads this
    {
      TaskRow(key, title, description, status, order, user, createdAt, updatedAt)
    }

    /** The @PreUpdate callback: refreshes `updatedAt`, and nothing else. */
    method OnPreUpdate(now: DateTime)
      modifies this`updatedAt
      ensures updatedAt == now
    {
      updatedAt := now;
    }
  }

  /**
   * The row written when a loaded row `stored` is flushed with entity state `current`:
   * an unchanged entity issues no UPDATE, so @PreUpdate runs only for a changed one.
   */
  function Flushed(stored: TaskRow, current: TaskRow, now: DateTime): (r: TaskRow)
    ensures r.(updatedAt := current.updatedAt) == current
    ensures r.updatedAt == if current == stored then stored.updatedAt else now
  {
    if current == stored then stored else current.(updatedAt := now)
  }
}
