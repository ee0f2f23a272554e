/**
 * The `user` table the authentication routes read and write through Prisma, as an object
 * whose state is a map from DID (a unique column) to the user record. Only the columns the
 * routes touch are modelled; times are milliseconds since the epoch.
 */
module Users {
  import opened Wrappers

  datatype User = User(
    id: nat,
    did: string,
    displayName: string,
    major: string,
    nonce: Option<string>,
    nonceExpiresAt: Option<int>)

  /** The record with both nonce columns set to null. */
  function Cleared(u: User): (v: User)
    ensures v.nonce.None? && v.nonceExpiresAt.None?
    ensures v.id == u.id && v.did == u.did && v.displayName == u.displayName && v.major == u.major
  {
    u.(nonce := None, nonceExpiresAt := None)
  }

  /** `users` with every record whose id is `id` cleared, as `update({ where: { id } })` does. */
  function ClearById(users: map<string, User>, id: nat): (r: map<string, User>)
    ensures r.Keys == users.Keys
    ensures forall d :: d in users ==> r[d] == if users[d].id == id then Cleared(users[d]) else users[d]
  {
    map d | d in users :: if users[d].id == id then Cleared(users[d]) else users[d]
  }

  /** Records are filed under their own DID, and ids are distinct and below the next id to hand out. */
  ghost predicate WellFormed(users: map<string, User>, nextId: nat)
  {
    && (forall d :: d in users ==> users[d].did == d && users[d].id < nextId)
    && (forall d, e :: d in users && e in users && users[d].id == users[e].id ==> d == e)
  }

  /** No two records share a DID: the unique constraint on the `did` column. */
  lemma UniqueDids(users: map<string, User>, nextId: nat)
    requires WellFormed(users, nextId)
    ensures forall d, e :: d in users && e in users && users[d].did == users[e].did ==> d == e
  {
  }

  /** Clearing by the id of the record filed under `did` changes that record and no other. */
  lemma ClearByIdOfDid(users: map<string, User>, nextId: nat, did: string)
    requires WellFormed(users, nextId) && did in users
    ensures ClearById(users, users[did].id) == users[did := Cleared(users[did])]
    ensures WellFormed(ClearById(users, users[did].id), nextId)
  {
    var r := ClearById(users, users[did].id);
    assert forall d :: d in users && d != did ==> r[d] == users[d];
  }

  class UserStore {
    var users: map<string, User>
    var nextId: nat

    ghost predicate Valid()
      reads this
    {
      WellFormed(users, nextId)
    }

    /** An empty table. */
    constructor ()
      ensures Valid() && users == map[]
    {
      users := map[];
      nextId := 0;
    }

    /** `findUnique({ where: { did } })`. */
    function FindByDid(did: string): (r: Option<User>)
      reads this
      requires Valid()
      ensures r.Some? <==> did in users
      ensures r.Some? ==> r.value == users[did] && r.value.did == did
    {
      if did in users then Some(users[did]) else None
    }

    /** `update({ where: { did }, data: { nonce, nonceExpiresAt } })` on an existing record. */
    method SetNonce(did: string, nonce: string, expiresAt: int)
      requires Valid() && did in users
      modifies this
      ensures Valid()
      ensures users == old(users)[did := old(users)[did].(nonce := Some(nonce), nonceExpiresAt := Some(expiresAt))]
      ensures nextId == old(nextId)
    {
      users := users[did := users[did].(nonce := Some(nonce), nonceExpiresAt := Some(expiresAt))];
    }

    /** `create({ data: { did, displayName, major } })`: a fresh id and both nonce columns null. */
    method Create(did: string, displayName: string, major: string) returns (u: User)
      requires Valid() && did !in users
      modifies this
      ensures Valid()
      ensures u == User(old(nextId), did, displayName, major, None, None)
      ensures users == old(users)[did := u] && nextId == old(nextId) + 1
    {
      u := User(nextId, did, displayName, major, None, None);
      users := users[did := u];
      nextId := nextId + 1;
    }

    /** `update({ where: { id }, data: { nonce: null, nonceExpiresAt: null } })`. */
    method ClearNonce(id: nat)
      requires Valid()
      modifies this
      ensures Valid()
      ensures users == ClearById(old(users), id) && nextId == old(nextId)
    {
      users := ClearById(users, id);
    }
  }
}
