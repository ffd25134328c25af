/** The values the user service works with: the persisted entity, the
    password-free view handed to callers, and the two error kinds. */
module Users {

  /** A persisted user record. `id` is assigned by the store when the entity
      is first saved and never changes afterwards. */
  datatype User = User(id: int, name: string, email: string, password: string)

  /** The externally visible projection of a `User`: it has no password. */
  datatype UserDto = UserDto(id: int, name: string, email: string)

  /** The only two ways a service operation can fail. */
  datatype ServiceError = NotFound | EmailConflict

  datatype Result<T> = Ok(value: T) | Err(error: ServiceError)

  datatype Option<T> = None | Some(value: T)

  /** The view of one entity: same id, name and email, and nothing else. */
  function ConvertToDto(user: User): (dto: UserDto)
    ensures dto.id == user.id && dto.name == user.name && dto.email == user.email
  {
    UserDto(user.id, user.name, user.email)
  }

  /** The password never reaches the view: entities that differ only in their
      password have the same view. */
  lemma ConvertToDtoHidesPassword(user: User, password: string)
    ensures ConvertToDto(user.(password := password)) == ConvertToDto(user)
  {
  }

  /** The view of every entity of a listing, one for one and in the same order. */
  function Views(users: seq<User>): (views: seq<UserDto>)
    ensures |views| == |users|
    ensures forall i :: 0 <= i < |users| ==> views[i] == ConvertToDto(users[i])
  {
    if users == [] then [] else [ConvertToDto(users[0])] + Views(users[1..])
  }

  /** Some stored entity holds `email` (exact, case-sensitive match). */
  ghost predicate EmailTaken(rows: map<int, User>, email: string)
  {
    exists k :: k in rows && rows[k].email == email
  }

  /** The service's invariant: no two distinct stored entities share an email. */
  ghost predicate UniqueEmails(rows: map<int, User>)
  {
    forall a, b :: a in rows && b in rows && a != b ==> rows[a].email != rows[b].email
  }

  /** Under unique emails, an entity's own email is held by that entity alone,
      so a lookup by it can only find the entity itself. */
  lemma EmailHolderIsUnique(rows: map<int, User>, k: int, other: int)
    requires UniqueEmails(rows)
    requires k in rows && other in rows && rows[other].email == rows[k].email
    ensures other == k
  {
  }

  /** Storing an entity whose email nobody holds keeps emails unique, whether
      it lands under a new key or replaces an existing entity. */
  lemma StoreFreshEmailKeepsUnique(rows: map<int, User>, k: int, user: User)
    requires UniqueEmails(rows)
    requires !EmailTaken(rows, user.email)
    ensures UniqueEmails(rows[k := user])
  {
  }

  /** Replacing an entity by one with the same email keeps emails unique. */
  lemma StoreSameEmailKeepsUnique(rows: map<int, User>, k: int, user: User)
    requires UniqueEmails(rows)
    requires k in rows && rows[k].email == user.email
    ensures UniqueEmails(rows[k := user])
  {
  }

  /** Removing an entity keeps emails unique. */
  lemma RemoveKeepsUnique(rows: map<int, User>, k: int)
    requires UniqueEmails(rows)
    ensures UniqueEmails(rows - {k})
  {
  }
}
