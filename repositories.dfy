/**
 * The two tables behind the services. Only what the services use is kept: lookups by key,
 * save (insert with a generated id, or write back a loaded entity) and delete.
 */
module Repositories {
  import opened Wrappers
  import opened Entities

  /** Every row sits under its own id, and ids come from an IDENTITY counter starting at 1. */
  predicate RowsKeyed(rows: map<int, TaskRow>, nextId: int)
  {
    forall k | k in rows :: rows[k].id == k && 0 < k < nextId
  }

  /** Every stored user sits under its own (unique) email and has been given an id. */
  predicate UsersKeyed(users: map<string, User>)
  {
    forall e | e in users :: users[e].email == e && users[e].id.Some?
  }

  /** User ids come from an IDENTITY counter: each is below it, and no two users share one. */
  predicate UserIdsIssued(users: map<string, User>, nextId: int)
  {
    && (forall e | e in users :: users[e].id.Some? && 0 < users[e].id.value < nextId)
    && (forall e1, e2 | e1 in users && e2 in users && e1 != e2 :: users[e1].id != users[e2].id)
  }

  class UserRepository {
    var byEmail: map<string, User>
    var nextId: int

    ghost predicate Valid()
      reads this
    {
      UsersKeyed(byEmail) && UserIdsIssued(byEmail, nextId) && 1 <= nextId
    }

    constructor ()
      ensures Valid() && byEmail == map[] && nextId == 1
    {
      byEmail := map[];
      nextId := 1;
    }

    /** findByEmail: the user stored under the email, or none. */
    function FindByEmail(email: string): (r: Option<User>)
      reads this
      ensures r.Some? <==> email in byEmail
      ensures r.Some? ==> r.value == byEmail[email]
      ensures r.Some? && Valid() ==> r.value.email == email && r.value.id.Some?
    {
      if email in byEmail then Some(byEmail[email]) else None
    }

    /** existsByEmail: agrees with findByEmail. */
    function ExistsByEmail(email: string): (exists_: bool)
      reads this
      ensures exists_ <==> FindByEmail(email).Some?
    {
      email in byEmail
    }

    /** Persists a new user: the database assigns the next id. */
    method Save(user: User) returns (saved: User)
      requires Valid()
      requires user.id.None? && user.email !in byEmail
      modifies this
      ensures Valid()
      ensures saved == user.(id := Some(old(nextId)))
      ensures byEmail == old(byEmail)[user.email := saved] && nextId == old(nextId) + 1
    {
      saved := user.(id := Some(nextId));
      byEmail := byEmail[user.email := saved];
      nextId := nextId + 1;
    }
  }

  class TaskRepository {
    var rows: map<int, TaskRow>
    var nextId: int

    ghost predicate Valid()
      reads this
    {
      RowsKeyed(rows, nextId) && 1 <= nextId
    }

    constructor ()
      ensures Valid() && rows == map[] && nextId == 1
    {
      rows := map[];
      nextId := 1;
    }

    /** findById: the row stored under the id, or none. */
    function FindById(id: int): (r: Option<TaskRow>)
      reads this
      ensures r.Some? <==> id in rows
      ensures r.Some? ==> r.value == rows[id]
      ensures r.Some? && Valid() ==> r.value.id == id && 0 < id < nextId
    {
      if id in rows then Some(rows[id]) else None
    }

    /**
     * Saves an entity: a new one (no id) is inserted under the next id; a loaded one is
     * written back, and its @PreUpdate callback runs only if it differs from the stored row.
     */
    method Save(task: Task, now: DateTime) returns (saved: TaskRow)
      requires Valid()
      requires task.id.Some? ==> task.id.value in rows
      modifies this, task`updatedAt
      ensures Valid()
      ensures task.id.None? ==>
        && saved == old(task.RowWith(nextId))
        && rows == old(rows)[saved.id := saved]
        && nextId == old(nextId) + 1
      ensures task.id.Some? ==>
        && saved == Flushed(old(rows)[task.id.value], old(task.RowWith(task.id.value)), now)
        && rows == old(rows)[task.id.value := saved]
        && nextId == old(nextId)
    {
      if task.id.None? {
        saved := task.RowWith(nextId);
        rows := rows[nextId := saved];
        nextId := nextId + 1;
      } else {
        var key := task.id.value;
        if task.RowWith(key) != rows[key] {
          task.OnPreUpdate(now);
        }
        saved := task.RowWith(key);
        rows := rows[key := saved];
      }
    }

    method Delete(id: int)
      requires Valid()
      modifies this
      ensures Valid()
      ensures rows == old(rows) - {id} && nextId == old(nextId)
    {
      rows := rows - {id};
    }
  }
}
