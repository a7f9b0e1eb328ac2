/**
 * Sequences of requests, as a client issues them, and what the handlers'
 * contracts alone let one conclude about their outcome.
 */
module Scenarios {
  import opened Wrappers
  import opened Text
  import opened Crypto
  import opened Db
  import opened Http
  import opened Auth
  import opened Routes

  /** Registering one username twice: the second attempt is always refused
      with "User already exists", whether the first created the user or the
      name was taken before. */
  method RegisterTwice(store: Store, p: Provider, name: string, pw1: string, pw2: string, salt1: nat, salt2: nat)
    returns (first: Response, second: Response)
    requires store.Valid() && name != "" && pw1 != "" && pw2 != ""
    modifies store
    ensures store.Valid()
    ensures first.status == 201 || first == UserExists
    ensures second == UserExists
  {
    first := Register(store, p, Some(name), Some(pw1), salt1);
    second := Register(store, p, Some(name), Some(pw2), salt2);
  }

  /** A registered user can log in with the password they registered, and
      the token returned opens the gate as that user. */
  method RegisterThenLogin(store: Store, p: Provider, name: string, pw: string, salt: nat, now: int)
    returns (registered: Response, loggedIn: Response)
    requires store.Valid() && Sound(p) && name != "" && pw != ""
    modifies store
    ensures registered.status == 201 ==>
              && registered.body.UserCreated? && loggedIn.status == 200 && loggedIn.body.TokenIssued?
              && Authenticate(p, Some("Bearer " + loggedIn.body.token), now) == Granted(Claims(registered.body.userId, name))
  {
    registered := Register(store, p, Some(name), Some(pw), salt);
    loggedIn := Login(store, p, Some(name), Some(pw), now);
    if registered.status == 201 {
      LoginTokenAuthenticates(store, p, name, pw, now, now);
    }
  }

  /** A task created by a caller appears in that caller's list, exactly once,
      with the title and description given and not complete. */
  method CreateThenList(store: Store, p: Provider, header: Option<string>, now: int, title: string, description: Option<string>)
    returns (created: Response, listed: Response)
    requires store.Valid() && title != ""
    requires Authenticate(p, header, now).Granted? && Authenticate(p, header, now).user.id in store.users
    modifies store
    ensures created.status == 201 && created.body.TaskBody? && listed.status == 200 && listed.body.TaskList?
    ensures var t := created.body.task;
            && t.title == title && t.description == description && !t.isComplete
            && multiset(listed.body.tasks)[t] == 1
            && (forall k :: 0 <= k < |listed.body.tasks| && listed.body.tasks[k].id == t.id ==> listed.body.tasks[k] == t)
  {
    created := CreateTask(store, p, header, now, Some(title), description);
    listed := ListTasks(store, p, header, now);
    assert store.tasks[created.body.task.id] == created.body.task;
    DistinctIdsOccurOnce(listed.body.tasks, created.body.task);
  }

  /** In a list of rows with distinct ids, a listed row occurs exactly once. */
  lemma {:induction false} DistinctIdsOccurOnce(s: seq<Task>, t: Task)
    requires t in s
    requires forall i, j :: 0 <= i < j < |s| ==> s[i].id != s[j].id
    ensures multiset(s)[t] == 1
  {
    assert s == [s[0]] + s[1..];
    if s[0] == t {
      assert t !in s[1..];
    } else {
      DistinctIdsOccurOnce(s[1..], t);
    }
  }

  /** Once a task is deleted, updating it by the same id is refused with
      403 and changes nothing. */
  method DeleteThenUpdate(store: Store, p: Provider, header: Option<string>, now: int, idParam: string, title: Option<string>)
    returns (deleted: Response, updated: Response)
    requires store.Valid()
    modifies store
    ensures deleted.status == 200 ==> updated == NotAuthorized
  {
    deleted := DeleteTask(store, p, header, now, idParam);
    updated := UpdateTask(store, p, header, now, idParam, title, None, None);
  }

  /** Toggling a task's completion twice puts the task table back as it was. */
  method ToggleTwice(store: Store, p: Provider, header: Option<string>, now: int, id: nat)
    returns (first: Response, second: Response)
    requires store.Valid()
    modifies store
    ensures first.status == 200 ==> second.status == 200 && store.tasks == old(store.tasks)
  {
    var path := DecimalString(id);
    ParsePath(id);
    var before := store.FindTask(id);
    if before.None? {
      // The client sends `{ isComplete: !task.isComplete }`; with no row to
      // read, either value is refused alike.
      first := UpdateTask(store, p, header, now, path, None, None, Some(true));
      second := first;
      return;
    }
    var t := before.value;
    first := UpdateTask(store, p, header, now, path, None, None, Some(!t.isComplete));
    if first.status != 200 {
      second := first;
      return;
    }
    ghost var toggled := ApplyUpdate(t, None, None, Some(!t.isComplete));
    assert Authenticate(p, header, now).Granted? && OwnedBy(store, id, Authenticate(p, header, now).user.id);
    assert store.tasks == old(store.tasks)[id := toggled];
    second := UpdateTask(store, p, header, now, path, None, None, Some(t.isComplete));
    ToggleTwiceRestores(t);
  }
}
