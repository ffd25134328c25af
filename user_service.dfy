/** The user service: the five operations over an explicitly passed store.
    Each one checks that an id exists, checks that an email is unused, or
    projects entities to password-free views. Failures are returned as
    `Err(NotFound)` or `Err(EmailConflict)` instead of being thrown. */
module UserServiceImpl {
  import opened Users
  import opened UserRepository

  /** `getAllUsers`: one view per stored entity, in the store's listing order. */
  function GetAllUsers(store: Store): (views: seq<UserDto>)
    reads store
    requires store.Valid()
    ensures |views| == |store.rows| == |store.order|
    ensures forall i :: 0 <= i < |views| ==> views[i].id == store.order[i]
    ensures forall i :: 0 <= i < |views| ==>
      views[i].id in store.rows && views[i] == ConvertToDto(store.rows[views[i].id])
    ensures forall k :: k in store.rows ==> exists i :: 0 <= i < |views| && views[i].id == k
    ensures forall i, j :: 0 <= i < j < |views| ==> views[i].id != views[j].id
  {
    var users := store.FindAll();
    var views := Views(users);
    assert forall i :: 0 <= i < |views| ==> views[i] == ConvertToDto(users[i]);
    assert forall i :: 0 <= i < |views| ==> views[i].id == users[i].id;
    views
  }

  /** `getUserById`: the view of the entity under `id`, or `NotFound`. */
  function GetUserById(store: Store, id: int): (result: Result<UserDto>)
    reads store
    ensures result.Ok? <==> id in store.rows
    ensures result.Ok? ==> result.value == ConvertToDto(store.rows[id])
    ensures result.Err? ==> result.error == NotFound
  {
    match store.FindById(id)
    case None => Err(NotFound)
    case Some(user) => Ok(ConvertToDto(user))
  }

  /** `createUser`: refuses an email some stored entity already holds;
      otherwise saves the candidate and returns the view of what was stored.
      A candidate whose id is not stored (a new entity) is added under a fresh
      id; one whose id is stored replaces that entity, as `save` does. */
  method CreateUser(store: Store, user: User) returns (result: Result<UserDto>)
    requires store.Valid()
    modifies store
    ensures store.Valid()
    ensures result.Err? <==> EmailTaken(old(store.rows), user.email)
    ensures result.Err? ==> result.error == EmailConflict && unchanged(store)
    ensures result.Ok? ==>
      result.value.name == user.name && result.value.email == user.email &&
      result.value.id in store.rows &&
      store.rows[result.value.id] == User(result.value.id, user.name, user.email, user.password)
    ensures result.Ok? && user.id !in old(store.rows) ==>
      result.value.id == old(store.nextId) && store.nextId == old(store.nextId) + 1 &&
      result.value.id !in old(store.rows) &&
      store.rows == old(store.rows)[result.value.id := User(result.value.id, user.name, user.email, user.password)] &&
      |store.rows| == |old(store.rows)| + 1 &&
      store.order == old(store.order) + [result.value.id]
    ensures result.Ok? && user.id in old(store.rows) ==>
      result.value.id == user.id && store.rows == old(store.rows)[user.id := user] &&
      store.order == old(store.order) && store.nextId == old(store.nextId)
    ensures UniqueEmails(old(store.rows)) ==> UniqueEmails(store.rows)
  {
    var holder := store.FindByEmail(user.email);
    if holder.Some? {
      return Err(EmailConflict);
    }
    ghost var before := store.rows;
    var saved := store.Save(user);
    if UniqueEmails(before) {
      StoreFreshEmailKeepsUnique(before, saved.id, saved);
    }
    return Ok(ConvertToDto(saved));
  }

  /** `updateUser`: `NotFound` for an absent id; `EmailConflict` when the email
      changes to one already held; otherwise overwrites name, email and
      password of the stored entity, keeping its id, and returns its view.
      An unchanged email is never a conflict, although the lookup by email
      would find the entity itself. */
  method UpdateUser(store: Store, id: int, user: User) returns (result: Result<UserDto>)
    requires store.Valid()
    modifies store
    ensures store.Valid()
    ensures result == Err(NotFound) <==> id !in old(store.rows)
    ensures result == Err(EmailConflict) <==>
      id in old(store.rows) && old(store.rows)[id].email != user.email &&
      EmailTaken(old(store.rows), user.email)
    ensures result == Err(EmailConflict) ==>
      exists other :: other in old(store.rows) && other != id && old(store.rows)[other].email == user.email
    ensures result.Err? ==> unchanged(store)
    ensures id in old(store.rows) && old(store.rows)[id].email == user.email ==> result.Ok?
    ensures result.Ok? ==>
      id in old(store.rows) && result.value == UserDto(id, user.name, user.email) &&
      store.rows == old(store.rows)[id := User(id, user.name, user.email, user.password)] &&
      store.order == old(store.order) && store.nextId == old(store.nextId)
    ensures UniqueEmails(old(store.rows)) ==> UniqueEmails(store.rows)
  {
    var found := store.FindById(id);
    if found.None? {
      return Err(NotFound);
    }
    var existing := found.value;
    if existing.email != user.email {
      var holder := store.FindByEmail(user.email);
      if holder.Some? {
        return Err(EmailConflict);
      }
    }
    existing := existing.(name := user.name, email := user.email, password := user.password);
    ghost var before := store.rows;
    var saved := store.Save(existing);
    if UniqueEmails(before) {
      if before[id].email == user.email {
        StoreSameEmailKeepsUnique(before, id, existing);
      } else {
        StoreFreshEmailKeepsUnique(before, id, existing);
      }
    }
    return Ok(ConvertToDto(saved));
  }

  /** `deleteUser`: `NotFound` for an absent id; otherwise removes exactly
      that entry, after which looking the id up fails with `NotFound`. */
  method DeleteUser(store: Store, id: int) returns (result: Result<()>)
    requires store.Valid()
    modifies store
    ensures store.Valid()
    ensures result.Err? <==> id !in old(store.rows)
    ensures result.Err? ==> result.error == NotFound && unchanged(store)
    ensures result.Ok? ==>
      store.rows == old(store.rows) - {id} && |store.rows| == |old(store.rows)| - 1 &&
      store.order == RemoveId(old(store.order), id) && store.nextId == old(store.nextId)
    ensures result.Ok? ==> GetUserById(store, id) == Err(NotFound)
    ensures UniqueEmails(old(store.rows)) ==> UniqueEmails(store.rows)
  {
    if !store.ExistsById(id) {
      return Err(NotFound);
    }
    ghost var before := store.rows;
    store.DeleteById(id);
    if UniqueEmails(before) {
      RemoveKeepsUnique(before, id);
    }
    return Ok(());
  }

  /** The unit tests' fixture: a fresh store holding only John under id 1. */
  method StoreWithJohn() returns (store: Store)
    ensures fresh(store) && store.Valid()
    ensures store.rows == map[1 := User(1, "John", "john@example.com", "12345")]
    ensures store.nextId == 2
  {
    store := new Store();
    var created := CreateUser(store, User(1, "John", "john@example.com", "12345"));
    assert created.value.id == 1;
  }

  /** Lookups and a duplicate create against the fixture. */
  method LookupScenario()
  {
    var store := StoreWithJohn();
    var got := GetUserById(store, 1);
    assert got == Ok(UserDto(1, "John", "john@example.com"));
    var missing := GetUserById(store, 2);
    assert missing == Err(NotFound);
    var dup := CreateUser(store, User(7, "Jane", "john@example.com", "pw"));
    assert store.rows[1].email == "john@example.com";
    assert dup == Err(EmailConflict);
  }

  /** Updates against the fixture: same email, an absent id, a held email. */
  method UpdateScenario()
  {
    var store := StoreWithJohn();
    var same := UpdateUser(store, 1, User(1, "Johnny", "john@example.com", "54321"));
    assert same == Ok(UserDto(1, "Johnny", "john@example.com"));
    var absent := UpdateUser(store, 5, User(5, "Jane", "jane@example.com", "pw"));
    assert absent == Err(NotFound);
    var jane := CreateUser(store, User(0, "Jane", "another@example.com", "pw"));
    assert jane.Ok? && jane.value.id == 2;
    var clash := UpdateUser(store, 1, User(1, "John", "another@example.com", "12345"));
    assert store.rows[2].email == "another@example.com";
    assert clash == Err(EmailConflict);
  }

  /** Deleting John, then looking him up or deleting him again fails. */
  method DeleteScenario()
  {
    var store := StoreWithJohn();
    assert 1 in store.rows;
    var deleted := DeleteUser(store, 1);
    assert deleted.Ok?;
    var gone := GetUserById(store, 1);
    assert gone == Err(NotFound);
    var again := DeleteUser(store, 1);
    assert again == Err(NotFound);
  }
}
