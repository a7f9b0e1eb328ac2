/**
 * The two tables behind the backend, `User` and `Task`, as the handlers see
 * them through the database client: rows keyed by an auto-incremented id,
 * a unique username, and a task's owner referring to a user.
 */
module Db {
  import opened Wrappers

  /** A user row. `password` holds the bcrypt hash, never the plaintext. */
  datatype User = User(id: int, username: string, password: string)

  /** A task row: the client's `Task` shape plus the owner's id. */
  datatype Task = Task(id: int, title: string, description: Option<string>, isComplete: bool, userId: int)

  class Store {
    var users: map<int, User>
    var tasks: map<int, Task>
    /** The ids the next inserted rows receive (auto-increment from 1). */
    var nextUserId: int
    var nextTaskId: int

    /** The table invariants: each row sits under its own id, below the
        counter; usernames are unique; every task's owner exists. */
    ghost predicate Valid()
      reads this
    {
      && 1 <= nextUserId && 1 <= nextTaskId
      && (forall id :: id in users ==> 1 <= id < nextUserId && users[id].id == id)
      && (forall id :: id in tasks ==> 1 <= id < nextTaskId && tasks[id].id == id)
      && (forall a, b :: a in users && b in users && users[a].username == users[b].username ==> a == b)
      && (forall id :: id in tasks ==> tasks[id].userId in users)
    }

    constructor ()
      ensures Valid()
      ensures users == map[] && tasks == map[] && nextUserId == 1 && nextTaskId == 1
    {
      users, tasks := map[], map[];
      nextUserId, nextTaskId := 1, 1;
    }

    /** `findUnique({ where: { username } })`: the one row with that name,
        if there is one. */
    function FindUserByName(name: string): (r: Option<User>)
      reads this
      requires Valid()
      ensures r.Some? <==> exists id :: id in users && users[id].username == name
      ensures r.Some? ==> r.value.id in users && users[r.value.id] == r.value && r.value.username == name
    {
      if exists id :: id in users && users[id].username == name then
        var id :| id in users && users[id].username == name;
        Some(users[id])
      else
        None
    }

    /** `findUnique({ where: { id } })` on the task table. */
    function FindTask(id: int): (r: Option<Task>)
      reads this
    {
      if id in tasks then Some(tasks[id]) else None
    }

    /** `findMany({ where: { userId } })`: exactly the tasks owned by `owner`,
        each once, in ascending id order. */
    function TasksOwnedBy(owner: int): (r: seq<Task>)
      reads this
      requires Valid()
      ensures forall k :: 0 <= k < |r| ==> r[k].id in tasks && tasks[r[k].id] == r[k] && r[k].userId == owner
      ensures forall id :: id in tasks && tasks[id].userId == owner ==> tasks[id] in r
      ensures forall i, j :: 0 <= i < j < |r| ==> r[i].id < r[j].id
    {
      Scan(tasks, owner, 1, nextTaskId)
    }
  }

  /** The rows of `tasks` owned by `owner` with ids in `[lo, hi)`, by id. */
  function Scan(tasks: map<int, Task>, owner: int, lo: int, hi: int): (r: seq<Task>)
    requires forall id :: id in tasks ==> tasks[id].id == id
    ensures forall k :: 0 <= k < |r| ==> lo <= r[k].id < hi && r[k].id in tasks && tasks[r[k].id] == r[k] && r[k].userId == owner
    ensures forall id :: lo <= id < hi && id in tasks && tasks[id].userId == owner ==> tasks[id] in r
    ensures forall i, j :: 0 <= i < j < |r| ==> r[i].id < r[j].id
    decreases hi - lo
  {
    if lo >= hi then []
    else
      var rest := Scan(tasks, owner, lo + 1, hi);
      if lo in tasks && tasks[lo].userId == owner then [tasks[lo]] + rest else rest
  }
}
