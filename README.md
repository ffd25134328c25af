# User service model

A Dafny model of the service layer of a small user-management CRUD
application (`UserServiceImpl`). The service keeps user records through a
repository and offers five operations: list all users, get one by id, create,
update and delete. It enforces two rules. An operation on an absent id fails
with `NotFound`. A create, or an update that changes the email, fails with
`EmailConflict` when another stored user already holds that email. Callers
only ever see a view of a user (id, name, email), never the password.

Files:

- `users.dfy` (module `Users`) holds the values. It defines the entity
  `User`, the view `UserDto`, the two error kinds and the `Result`/`Option`
  wrappers. It also defines the projection `ConvertToDto`, the listing
  projection `Views`, the store invariant `UniqueEmails` (no two stored users
  share an email), and lemmas saying which updates of the table keep that
  invariant.
- `user_repository.dfy` (module `UserRepository`) makes the repository an
  explicit store. The class `Store` holds a `map<int, User>` keyed by id, the
  listing order of the ids (the store's natural order, used by `findAll`) and
  the counter that supplies fresh ids. `findAll`, `findById`, `findByEmail`,
  `existsById`, `save` and `deleteById` are plain operations on these fields.
  `Valid()` says the fields agree with each other.
- `user_service.dfy` (module `UserServiceImpl`) holds the five service
  operations. Each takes the store as an explicit parameter. The reading
  operations are functions. Create, update and delete are methods that modify
  the store and state its whole new state. Every method also proves that
  `UniqueEmails` holds afterwards if it held before. `LookupScenario`,
  `UpdateScenario` and `DeleteScenario` replay the unit tests' fixture (John,
  id 1) against these contracts. They are test replays with no contract of
  their own, so the table below leaves them out; the fixture they share,
  `StoreWithJohn`, has a row.

`createUser` does not clear the candidate's id: it passes the candidate,
together with whatever id it carries, to `save`. The model's `save` follows the
repository convention. An entity whose id is already stored replaces that
entry. Any other entity is inserted under a fresh store-assigned id. So
`CreateUser` adds exactly one entity when the candidate's id is not stored.
This is the case for a new candidate, and `CreateUser`'s contract states it.
When the candidate's id is stored, that entry is replaced. Email uniqueness
holds in both cases.

## Model

| member | source | states |
|---|---|---|
| `Users.ConvertToDto` | demo/src/main/java/com/example/demo/service/impl/UserServiceImpl.java:25-31 | the view carries the entity's id, name and email; the view type has no password |
| `Users.ConvertToDtoHidesPassword` | demo/src/main/java/com/example/demo/service/impl/UserServiceImpl.java:25-31 | two entities that differ only in password have the same view |
| `Users.Views` | demo/src/main/java/com/example/demo/service/impl/UserServiceImpl.java:35-37 | the stream map gives one view per listed entity, same length, same order |
| `Users.EmailHolderIsUnique` | demo/src/main/java/com/example/demo/service/impl/UserServiceImpl.java:60-63 | under unique emails, the entity holding a given email is the only one, so a lookup by an entity's own email (the case the unchanged-email short-circuit skips) would find that entity itself; `FindByEmail` uses it |
| `Users.StoreFreshEmailKeepsUnique` | demo/src/main/java/com/example/demo/service/impl/UserServiceImpl.java:48-53 | storing an entity whose email nobody holds, new or replacing, keeps emails unique |
| `Users.StoreSameEmailKeepsUnique` | demo/src/main/java/com/example/demo/service/impl/UserServiceImpl.java:60-69 | replacing an entity by one with the same email keeps emails unique |
| `Users.RemoveKeepsUnique` | demo/src/main/java/com/example/demo/service/impl/UserServiceImpl.java:77 | removing an entity keeps emails unique |
| `UserRepository.RemoveId` | demo/src/main/java/com/example/demo/service/impl/UserServiceImpl.java:77 | the listing after a delete holds exactly the other ids, still without duplicates, one shorter when the id was listed, unchanged when it was not |
| `UserRepository.ListingCoversKeys` | demo/src/main/java/com/example/demo/service/impl/UserServiceImpl.java:35 | a duplicate-free listing of exactly the stored ids is as long as the table |
| `UserRepository.Store.FindAll` | demo/src/main/java/com/example/demo/service/impl/UserServiceImpl.java:35 | every stored entity exactly once (distinct ids, all keys covered), in listing order |
| `UserRepository.Store.FindById` | demo/src/main/java/com/example/demo/service/impl/UserServiceImpl.java:42-43 | present exactly when the id is stored, and then the stored entity |
| `UserRepository.Store.ExistsById` | demo/src/main/java/com/example/demo/service/impl/UserServiceImpl.java:74 | true exactly when the id is stored, in agreement with `FindById` |
| `UserRepository.Store.FindByEmail` | demo/src/main/java/com/example/demo/service/impl/UserServiceImpl.java:49 | finds something exactly when some stored entity holds the email, and what it finds is that stored entity; under unique emails, looking up a stored entity's own email finds that same entity |
| `UserRepository.Store.Save` | demo/src/main/java/com/example/demo/service/impl/UserServiceImpl.java:52 | a stored id is overwritten in place; any other entity gets the next fresh id and is appended to the listing; the store stays consistent |
| `UserRepository.Store.DeleteById` | demo/src/main/java/com/example/demo/service/impl/UserServiceImpl.java:77 | exactly the entry under the id is removed, from table and listing |
| `UserServiceImpl.GetAllUsers` | demo/src/main/java/com/example/demo/service/impl/UserServiceImpl.java:34-38 | one view per stored user, each the view of the entity under its id, distinct ids covering the whole table, in the store's listing order |
| `UserServiceImpl.GetUserById` | demo/src/main/java/com/example/demo/service/impl/UserServiceImpl.java:41-45 | the view of the entity under the id when stored, `NotFound` exactly when it is not |
| `UserServiceImpl.CreateUser` | demo/src/main/java/com/example/demo/service/impl/UserServiceImpl.java:48-53 | `EmailConflict` exactly when the email is held, then the store is unchanged; otherwise the returned view has the input's name and email; a candidate whose id is not stored is added as exactly one entity under a fresh id, appended to the listing; a candidate whose id is stored replaces that entity, keeping its id, the listing and the counter; emails stay unique in both cases |
| `UserServiceImpl.UpdateUser` | demo/src/main/java/com/example/demo/service/impl/UserServiceImpl.java:56-70 | `NotFound` exactly when the id is absent; `EmailConflict` exactly when the email changes to one held by another entity; an unchanged email never fails; on failure nothing changes; on success only that entry's name, email and password are overwritten, the id is kept, and emails stay unique |
| `UserServiceImpl.DeleteUser` | demo/src/main/java/com/example/demo/service/impl/UserServiceImpl.java:73-78 | `NotFound` exactly when the id is absent, then nothing changes; otherwise exactly that entry is removed, a later `GetUserById` on it is `NotFound`, and emails stay unique |
| `UserServiceImpl.StoreWithJohn` | demo/src/test/java/com/example/demo/service/UserServiceTest.java:101-108 | a fresh store after creating the tests' John holds exactly John under id 1 |

## Left out

- Spring wiring (the `@Service` annotation and constructor injection): the store is passed to each operation explicitly.
- The JPA persistence behind `UserRepository`: no database semantics, transactions or store-level I/O failures. The repository is the explicit `Store`.
- Exception classes and their messages: only the two error kinds `NotFound` and `EmailConflict` are kept.
- Concurrent calls: two `createUser` calls racing past the email check are outside a sequential model.
- Entity identity: entities are values. `updateUser`'s setter calls on the fetched entity become a record update that is written back by `save`. This is the same final state, because `save` follows the setters immediately.
- Java `Long` ids: ids are unbounded integers, so the id counter never overflows. Null ids, names, emails or candidates are not modelled.
- `deleteById` on an absent id is ignored by the model. The service never calls it that way, because `deleteUser` checks `existsById` first.
- The `UserService` interface has only signatures: it names the operations modelled here.
- The Mockito test machinery: the scenario methods replay the tests' expectations against the contracts instead.
