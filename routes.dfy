/**
 * The route handlers of the backend. Handlers that change a table are
 * methods on the shared `Store`; those that only read are functions. Each
 * protected handler first runs the `Authenticate` gate and acts for the
 * caller its claims name, never for an id taken from the request body.
 */
module Routes {
  import opened Wrappers
  import opened Text
  import opened Crypto
  import opened Db
  import opened Http
  import opened Auth

  // ---------------------------------------------------------------------
  // POST /auth/register and POST /auth/login
  // ---------------------------------------------------------------------

  /** `POST /auth/register`. Missing or empty fields and a taken username are
      answered with 400 and change nothing; otherwise exactly one user row is
      added, holding the bcrypt hash of the password (drawn with `salt`), and
      its new id is returned with 201. */
  method Register(store: Store, p: Provider, username: Option<string>, password: Option<string>, salt: nat)
    returns (r: Response)
    requires store.Valid()
    modifies store
    ensures store.Valid()
    ensures !Truthy(username) || !Truthy(password) ==> r == MissingCredentials && unchanged(store)
    ensures Truthy(username) && Truthy(password) && old(store.FindUserByName(username.value)).Some? ==>
              r == UserExists && unchanged(store)
    ensures Truthy(username) && Truthy(password) && old(store.FindUserByName(username.value)).None? ==>
              var id := old(store.nextUserId);
              && r == Response(201, UserCreated("User created", id))
              && id !in old(store.users)
              && store.users == old(store.users)[id := User(id, username.value, p.hash(password.value, SaltRounds, salt))]
              && store.tasks == old(store.tasks)
              && store.nextUserId == id + 1 && store.nextTaskId == old(store.nextTaskId)
    ensures Truthy(username) && Truthy(password) ==> store.FindUserByName(username.value).Some?
    ensures r.status == 201 && Sound(p) ==> forall now :: Login(store, p, username, password, now).status == 200
  {
    if !Truthy(username) || !Truthy(password) {
      return MissingCredentials;
    }
    var existing := store.FindUserByName(username.value);
    if existing.Some? {
      return UserExists;
    }
    var hashed := p.hash(password.value, SaltRounds, salt);
    var id := store.nextUserId;
    store.users := store.users[id := User(id, username.value, hashed)];
    store.nextUserId := id + 1;
    r := Response(201, UserCreated("User created", id));
    assert store.users[id].username == username.value;
  }

  /** `POST /auth/login`. Reads the user table and changes nothing. Missing
      fields give 400 "Username and password required"; an unknown username
      and a wrong password give the very same 400 "Invalid credentials"; on
      success the token signs exactly the `{id, username}` of the matching
      row, for one hour from `now`. */
  function Login(store: Store, p: Provider, username: Option<string>, password: Option<string>, now: int): (r: Response)
    reads store
    requires store.Valid()
    ensures !Truthy(username) || !Truthy(password) ==> r == MissingCredentials
    ensures r.status == 200 <==>
              && Truthy(username) && Truthy(password)
              && exists id :: id in store.users && store.users[id].username == username.value
                              && p.compare(password.value, store.users[id].password)
    ensures Truthy(username) && Truthy(password) && r.status != 200 ==> r == InvalidCredentials
    ensures r.status == 200 ==>
              exists id :: id in store.users && store.users[id].username == username.value
                           && r == Response(200, TokenIssued(p.sign(Claims(id, username.value), TokenLifetime, now)))
  {
    if !Truthy(username) || !Truthy(password) then MissingCredentials
    else match store.FindUserByName(username.value)
      case None => InvalidCredentials
      case Some(user) =>
        if !p.compare(password.value, user.password) then InvalidCredentials
        else Response(200, TokenIssued(p.sign(Claims(user.id, user.username), TokenLifetime, now)))
  }

  /** Logging in twice with different unknown names, or with a wrong
      password, cannot be told apart from the response. */
  lemma LoginFailuresAreIndistinguishable(store: Store, p: Provider, u1: string, w1: string, u2: string, w2: string, t1: int, t2: int)
    requires store.Valid()
    requires u1 != "" && w1 != "" && u2 != "" && w2 != ""
    requires Login(store, p, Some(u1), Some(w1), t1).status != 200
    requires Login(store, p, Some(u2), Some(w2), t2).status != 200
    ensures Login(store, p, Some(u1), Some(w1), t1) == Login(store, p, Some(u2), Some(w2), t2)
  {
  }

  /** The token a successful login returns, sent back as `Bearer <token>`,
      passes the gate as the logged-in user for the next hour, then fails. */
  lemma LoginTokenAuthenticates(store: Store, p: Provider, username: string, password: string, issuedAt: int, now: int)
    requires store.Valid() && Sound(p)
    requires Login(store, p, Some(username), Some(password), issuedAt).status == 200
    requires issuedAt <= now
    ensures var token := Login(store, p, Some(username), Some(password), issuedAt).body.token;
            var user := store.FindUserByName(username).value;
            Authenticate(p, Some("Bearer " + token), now) ==
              if now < issuedAt + TokenLifetime then Granted(Claims(user.id, user.username)) else Denied(InvalidToken)
  {
    var user := store.FindUserByName(username).value;
    assert Login(store, p, Some(username), Some(password), issuedAt).body.token
      == p.sign(Claims(user.id, user.username), TokenLifetime, issuedAt);
    var token := p.sign(Claims(user.id, user.username), TokenLifetime, issuedAt);
    assert "Bearer " + token == "Bearer" + " " + token;
    SignedTokenOpensGate(p, "Bearer", Claims(user.id, user.username), issuedAt, now);
  }

  // ---------------------------------------------------------------------
  // GET /tasks
  // ---------------------------------------------------------------------

  /** `GET /tasks`. Behind the gate; answers exactly the caller's tasks, each
      once, and touches no table. */
  function ListTasks(store: Store, p: Provider, header: Option<string>, now: int): (r: Response)
    reads store
    requires store.Valid()
    ensures Authenticate(p, header, now).Denied? ==> r == Authenticate(p, header, now).response
    ensures Authenticate(p, header, now).Granted? ==>
              var caller := Authenticate(p, header, now).user.id;
              && r.status == 200 && r.body.TaskList?
              && (forall k :: 0 <= k < |r.body.tasks| ==>
                    r.body.tasks[k].userId == caller && r.body.tasks[k].id in store.tasks
                    && store.tasks[r.body.tasks[k].id] == r.body.tasks[k])
              && (forall id :: id in store.tasks && store.tasks[id].userId == caller ==> store.tasks[id] in r.body.tasks)
              && (forall i, j :: 0 <= i < j < |r.body.tasks| ==> r.body.tasks[i].id != r.body.tasks[j].id)
  {
    match Authenticate(p, header, now)
    case Denied(response) => response
    case Granted(user) => Response(200, TaskList(store.TasksOwnedBy(user.id)))
  }

  // ---------------------------------------------------------------------
  // POST /tasks
  // ---------------------------------------------------------------------

  /** `POST /tasks`. Behind the gate; a missing or empty title is answered
      with 400 and changes nothing. Otherwise exactly one task is added, with
      the given title and description, not complete, owned by the caller the
      token names. ASSUMED from the schema, which is not part of this model:
      `isComplete` defaults to false, and the owner must be an existing user
      (a foreign key), the database failing the insert with 500 otherwise. */
  method CreateTask(store: Store, p: Provider, header: Option<string>, now: int, title: Option<string>, description: Option<string>)
    returns (r: Response)
    requires store.Valid()
    modifies store
    ensures store.Valid()
    ensures !IsSuccess(r) ==> unchanged(store)
    ensures var gate := Authenticate(p, header, now);
            && (gate.Denied? ==> r == gate.response)
            && (gate.Granted? && !Truthy(title) ==> r == TitleRequired)
            && (gate.Granted? && Truthy(title) && gate.user.id !in old(store.users) ==> r == InternalError)
    ensures var gate := Authenticate(p, header, now);
            gate.Granted? && Truthy(title) && gate.user.id in old(store.users) ==>
              var id := old(store.nextTaskId);
              var task := Task(id, title.value, description, false, gate.user.id);
              && r == Response(201, TaskBody(task))
              && id !in old(store.tasks)
              && store.tasks == old(store.tasks)[id := task]
              && store.users == old(store.users)
              && store.nextTaskId == id + 1 && store.nextUserId == old(store.nextUserId)
  {
    var gate := Authenticate(p, header, now);
    if gate.Denied? {
      return gate.response;
    }
    if !Truthy(title) {
      return TitleRequired;
    }
    if gate.user.id !in store.users {
      return InternalError;
    }
    var id := store.nextTaskId;
    var task := Task(id, title.value, description, false, gate.user.id);
    store.tasks := store.tasks[id := task];
    store.nextTaskId := id + 1;
    r := Response(201, TaskBody(task));
  }

  // ---------------------------------------------------------------------
  // PUT /tasks/:id and DELETE /tasks/:id
  // ---------------------------------------------------------------------

  /** The update data `{ title, description, isComplete }`: a field left
      `undefined` (`None`) keeps the row's value. The id and the owner are
      never part of it. */
  function ApplyUpdate(t: Task, title: Option<string>, description: Option<string>, isComplete: Option<bool>): (r: Task)
    ensures r.id == t.id && r.userId == t.userId
  {
    t.(title := title.GetOr(t.title),
       description := if description.Some? then description else t.description,
       isComplete := isComplete.GetOr(t.isComplete))
  }

  /** Sending the same update data twice has the effect of sending it once. */
  lemma UpdateIsIdempotent(t: Task, title: Option<string>, description: Option<string>, isComplete: Option<bool>)
    ensures ApplyUpdate(ApplyUpdate(t, title, description, isComplete), title, description, isComplete)
         == ApplyUpdate(t, title, description, isComplete)
  {
  }

  /** Update data with every field `undefined` leaves the row as it was. */
  lemma EmptyUpdateKeepsTask(t: Task)
    ensures ApplyUpdate(t, None, None, None) == t
  {
  }

  /** Toggling completion twice, as the client's toggle button does, gives
      back the original row. */
  lemma ToggleTwiceRestores(t: Task)
    ensures ApplyUpdate(ApplyUpdate(t, None, None, Some(!t.isComplete)), None, None, Some(t.isComplete)) == t
  {
  }

  /** Whether the caller may act on the row with id `key`: the row exists and
      is the caller's. An absent row and another user's row are refused the
      same way. */
  predicate OwnedBy(store: Store, key: int, caller: int)
    reads store
  {
    key in store.tasks && store.tasks[key].userId == caller
  }

  /** `PUT /tasks/:id`. Behind the gate. The route parameter is read with
      `parseInt(id, 10)` once, and that same key addresses both the
      ownership lookup and the update. A key that is not a number is
      rejected by the database (500, ASSUMED: its client refuses a `NaN`
      key); an absent task and another user's task both give 403 "Not
      authorized"; all three change nothing. Otherwise only the target row
      changes, keeping its id and owner. The title is not re-validated. */
  method UpdateTask(store: Store, p: Provider, header: Option<string>, now: int, idParam: string,
                    title: Option<string>, description: Option<string>, isComplete: Option<bool>)
    returns (r: Response)
    requires store.Valid()
    modifies store
    ensures store.Valid()
    ensures !IsSuccess(r) ==> unchanged(store)
    ensures var gate := Authenticate(p, header, now);
            var key := ParseInt(idParam);
            && (gate.Denied? ==> r == gate.response)
            && (gate.Granted? && key.None? ==> r == InternalError)
            && (gate.Granted? && key.Some? && !old(OwnedBy(store, key.value, gate.user.id)) ==> r == NotAuthorized)
    ensures var gate := Authenticate(p, header, now);
            var key := ParseInt(idParam);
            gate.Granted? && key.Some? && old(OwnedBy(store, key.value, gate.user.id)) ==>
              var updated := ApplyUpdate(old(store.tasks[key.value]), title, description, isComplete);
              && r == Response(200, TaskBody(updated))
              && store.tasks == old(store.tasks)[key.value := updated]
              && store.users == old(store.users)
              && store.nextTaskId == old(store.nextTaskId) && store.nextUserId == old(store.nextUserId)
  {
    var gate := Authenticate(p, header, now);
    if gate.Denied? {
      return gate.response;
    }
    var key := ParseInt(idParam);
    if key.None? {
      return InternalError;
    }
    var task := store.FindTask(key.value);
    if task.None? || task.value.userId != gate.user.id {
      return NotAuthorized;
    }
    var updated := ApplyUpdate(task.value, title, description, isComplete);
    store.tasks := store.tasks[key.value := updated];
    r := Response(200, TaskBody(updated));
  }

  /** `DELETE /tasks/:id`. The same gate, key and ownership check as the
      update; on success exactly the target row is removed and every other
      row is unchanged. */
  method DeleteTask(store: Store, p: Provider, header: Option<string>, now: int, idParam: string)
    returns (r: Response)
    requires store.Valid()
    modifies store
    ensures store.Valid()
    ensures !IsSuccess(r) ==> unchanged(store)
    ensures var gate := Authenticate(p, header, now);
            var key := ParseInt(idParam);
            && (gate.Denied? ==> r == gate.response)
            && (gate.Granted? && key.None? ==> r == InternalError)
            && (gate.Granted? && key.Some? && !old(OwnedBy(store, key.value, gate.user.id)) ==> r == NotAuthorized)
    ensures var gate := Authenticate(p, header, now);
            var key := ParseInt(idParam);
            gate.Granted? && key.Some? && old(OwnedBy(store, key.value, gate.user.id)) ==>
              && r == Response(200, Confirmation("Task deleted"))
              && store.tasks == old(store.tasks) - {key.value}
              && |store.tasks| == |old(store.tasks)| - 1
              && store.users == old(store.users)
              && store.nextTaskId == old(store.nextTaskId) && store.nextUserId == old(store.nextUserId)
  {
    var gate := Authenticate(p, header, now);
    if gate.Denied? {
      return gate.response;
    }
    var key := ParseInt(idParam);
    if key.None? {
      return InternalError;
    }
    var task := store.FindTask(key.value);
    if task.None? || task.value.userId != gate.user.id {
      return NotAuthorized;
    }
    store.tasks := store.tasks - {key.value};
    r := Response(200, Confirmation("Task deleted"));
  }

  /** Two callers with different ids are shown disjoint task lists. */
  lemma ListsAreIsolated(store: Store, p: Provider, h1: Option<string>, h2: Option<string>, now: int)
    requires store.Valid()
    requires Authenticate(p, h1, now).Granted? && Authenticate(p, h2, now).Granted?
    requires Authenticate(p, h1, now).user.id != Authenticate(p, h2, now).user.id
    ensures forall t :: t in ListTasks(store, p, h1, now).body.tasks ==> t !in ListTasks(store, p, h2, now).body.tasks
  {
  }
}
