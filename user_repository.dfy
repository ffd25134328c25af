/** The repository the service depends on, made explicit: a table of user
    entities keyed by id, the order in which ids were first saved (the
    store's natural listing order) and the counter that supplies fresh ids. */
module UserRepository {
  import opened Users

  /** No id is listed twice. */
  ghost predicate Distinct(ids: seq<int>)
  {
    forall i, j :: 0 <= i < j < |ids| ==> ids[i] != ids[j]
  }

  /** The listing without `id`; everything else keeps its relative order. */
  function RemoveId(ids: seq<int>, id: int): (rest: seq<int>)
    ensures forall x :: x in rest <==> x in ids && x != id
    ensures Distinct(ids) ==> Distinct(rest)
    ensures Distinct(ids) && id in ids ==> |rest| == |ids| - 1
    ensures id !in ids ==> rest == ids
  {
    if ids == [] then []
    else
      var tail := RemoveId(ids[1..], id);
      assert ids == [ids[0]] + ids[1..];
      assert Distinct(ids) ==> ids[0] !in ids[1..];
      if ids[0] == id then tail else [ids[0]] + tail
  }

  /** Consistency of the store: each entity sits under its own id, every id
      is below the next fresh one, and the listing holds each stored id once. */
  ghost predicate WellFormed(rows: map<int, User>, order: seq<int>, nextId: int)
  {
    && (forall k :: k in rows ==> rows[k].id == k && k < nextId)
    && (forall i :: 0 <= i < |order| ==> order[i] in rows)
    && (forall k :: k in rows ==> k in order)
    && Distinct(order)
  }

  class Store {
    var rows: map<int, User>
    var order: seq<int>
    var nextId: int

    ghost predicate Valid()
      reads this
    {
      WellFormed(rows, order, nextId)
    }

    /** An empty store; the first id handed out is 1. */
    constructor ()
      ensures Valid()
      ensures rows == map[] && order == [] && nextId == 1
    {
      rows := map[];
      order := [];
      nextId := 1;
    }

    /** `findAll`: every stored entity exactly once, in listing order. */
    function FindAll(): (users: seq<User>)
      reads this
      requires Valid()
      ensures |users| == |rows| == |order|
      ensures forall i :: 0 <= i < |users| ==> users[i] == rows[order[i]] && users[i].id == order[i]
      ensures forall k :: k in rows ==> exists i :: 0 <= i < |users| && users[i] == rows[k]
      ensures forall i, j :: 0 <= i < j < |users| ==> users[i].id != users[j].id
    {
      var rows, order := this.rows, this.order;
      var users := seq(|order|, i requires 0 <= i < |order| => rows[order[i]]);
      assert |rows| == |order| by { ListingCoversKeys(rows, order); }
      assert forall k :: k in rows ==> exists i :: 0 <= i < |order| && order[i] == k && users[i] == rows[k];
      assert forall i :: 0 <= i < |users| ==> users[i].id == order[i];
      users
    }

    /** `findById`: the entity stored under `id`, if any. */
    function FindById(id: int): (found: Option<User>)
      reads this
      ensures found.Some? <==> id in rows
      ensures found.Some? ==> found.value == rows[id]
    {
      if id in rows then Some(rows[id]) else None
    }

    /** `existsById`: agrees with whether `findById` finds something. */
    predicate ExistsById(id: int): (present: bool)
      reads this
      ensures present <==> FindById(id).Some?
    {
      id in rows
    }

    /** `findByEmail`: scans the listing for an entity with exactly `email`. */
    method FindByEmail(email: string) returns (found: Option<User>)
      requires Valid()
      ensures found.Some? <==> EmailTaken(rows, email)
      ensures found.Some? ==> found.value.email == email
      ensures found.Some? ==> found.value.id in rows && rows[found.value.id] == found.value
      ensures forall id :: id in rows && rows[id].email == email && UniqueEmails(rows) ==>
        found == Some(rows[id])
    {
      var i := 0;
      while i < |order|
        invariant 0 <= i <= |order|
        invariant forall j :: 0 <= j < i ==> rows[order[j]].email != email
      {
        var user := rows[order[i]];
        if user.email == email {
          var k := order[i];
          assert k in rows && rows[k].email == email;
          assert EmailTaken(rows, email);
          forall id | id in rows && rows[id].email == email && UniqueEmails(rows)
            ensures Some(user) == Some(rows[id])
          {
            EmailHolderIsUnique(rows, id, k);
          }
          return Some(user);
        }
        i := i + 1;
      }
      return None;
    }

    /** `save`: an entity whose id is already stored overwrites that entry;
        any other entity is stored under a fresh id appended to the listing.
        Returns the entity as stored. */
    method Save(user: User) returns (saved: User)
      requires Valid()
      modifies this
      ensures Valid()
      ensures saved.id in rows && rows[saved.id] == saved
      ensures saved.name == user.name && saved.email == user.email && saved.password == user.password
      ensures user.id in old(rows) ==>
        saved == user && rows == old(rows)[user.id := user] &&
        order == old(order) && nextId == old(nextId)
      ensures user.id !in old(rows) ==>
        saved == user.(id := old(nextId)) && saved.id !in old(rows) &&
        rows == old(rows)[saved.id := saved] &&
        order == old(order) + [saved.id] && nextId == old(nextId) + 1
    {
      if user.id in rows {
        saved := user;
      } else {
        saved := user.(id := nextId);
        order := order + [nextId];
        nextId := nextId + 1;
      }
      rows := rows[saved.id := saved];
    }

    /** `deleteById`: removes the entry under `id`; an absent id is ignored. */
    method DeleteById(id: int)
      requires Valid()
      modifies this
      ensures Valid()
      ensures rows == old(rows) - {id}
      ensures order == RemoveId(old(order), id) && nextId == old(nextId)
    {
      rows := rows - {id};
      order := RemoveId(order, id);
      assert forall i :: 0 <= i < |order| ==> order[i] in order;
    }
  }

  /** A duplicate-free listing of exactly the keys has as many entries as keys. */
  lemma {:induction false} ListingCoversKeys(rows: map<int, User>, order: seq<int>)
    requires forall i :: 0 <= i < |order| ==> order[i] in rows
    requires forall k :: k in rows ==> k in order
    requires Distinct(order)
    ensures |rows| == |order|
  {
    if order == [] {
      assert forall k :: k !in rows;
      assert rows.Keys == {};
    } else {
      var k := order[|order| - 1];
      var front := order[..|order| - 1];
      assert order == front + [k];
      assert k !in front;
      forall x ensures x in rows - {k} <==> x in front {
        if x in front {
          assert x in order;
        }
      }
      ListingCoversKeys(rows - {k}, front);
      assert |(rows - {k}).Keys| == |rows.Keys - {k}| == |rows.Keys| - 1;
    }
  }
}
