/**
 * `POST /api/auth/signup` (app/api/auth/signup/route.ts): registers a DID with a display name
 * and a major, refusing a DID that is already registered.
 */
module SignupRoute {
  import opened Wrappers
  import opened Json
  import opened Http
  import opened Users

  /** The validated body of a signup. */
  datatype SignUp = SignUp(did: string, name: string, major: string)

  /** The public part of the new record that the response echoes. */
  datatype Created = Created(id: nat, did: string, displayName: string, major: string)

  /** A string member that is present and non-empty, as `z.string().min(1)` requires. */
  function NonEmptyString(body: Json, key: string): (r: Option<string>)
    ensures r.Some? ==> r.value != "" && Member(body, key) == Some(JStr(r.value))
    ensures r.None? ==> forall s :: Member(body, key) == Some(JStr(s)) ==> s == ""
  {
    match Member(body, key)
    case Some(JStr(s)) => if s != "" then Some(s) else None
    case _ => None
  }

  /** `signUpSchema.parse(body)`: `did`, `name` and `major` each a non-empty string. */
  function ParseSignUp(body: Json): (r: Option<SignUp>)
    ensures r.Some? <==>
      NonEmptyString(body, "did").Some? && NonEmptyString(body, "name").Some? && NonEmptyString(body, "major").Some?
    ensures r.Some? ==> r.value.did != "" && r.value.name != "" && r.value.major != ""
  {
    match (NonEmptyString(body, "did"), NonEmptyString(body, "name"), NonEmptyString(body, "major"))
    case (Some(did), Some(name), Some(major)) => Some(SignUp(did, name, major))
    case _ => None
  }

  datatype Outcome = Outcome(response: Response<Created>, users: map<string, User>, nextId: nat)

  /**
   * One request: 500 for an unreadable body, 400 for a schema failure or a registered DID,
   * each with the table untouched; otherwise 201 with a new record under the next id.
   */
  function SignUpRequest(users: map<string, User>, nextId: nat, body: Option<Json>): (o: Outcome)
    ensures o.response.Ok? <==>
      body.Some? && ParseSignUp(body.value).Some? && ParseSignUp(body.value).value.did !in users
    ensures !o.response.Ok? ==> o.users == users && o.nextId == nextId
    ensures body.None? ==> o.response == Error(500, "Internal server error")
    ensures body.Some? && ParseSignUp(body.value).None? ==> o.response == Error(400, "Invalid input data")
    ensures !o.response.Ok? && body.Some? && ParseSignUp(body.value).Some? ==>
      o.response == Error(400, "User with this DID already exists")
    ensures o.response.Ok? ==>
      var s := ParseSignUp(body.value).value;
      && o.response == Ok(201, Created(nextId, s.did, s.name, s.major))
      && o.users == users[s.did := User(nextId, s.did, s.name, s.major, None, None)]
      && o.nextId == nextId + 1
  {
    if body.None? then Outcome(Error(500, "Internal server error"), users, nextId)
    else match ParseSignUp(body.value)
      case None => Outcome(Error(400, "Invalid input data"), users, nextId)
      case Some(s) =>
        if s.did in users then Outcome(Error(400, "User with this DID already exists"), users, nextId)
        else
          Outcome(Ok(201, Created(nextId, s.did, s.name, s.major)),
                  users[s.did := User(nextId, s.did, s.name, s.major, None, None)], nextId + 1)
  }

  /** One signup keeps the table well formed. */
  lemma SignUpKeepsWellFormed(users: map<string, User>, nextId: nat, body: Option<Json>)
    requires WellFormed(users, nextId)
    ensures var o := SignUpRequest(users, nextId, body); WellFormed(o.users, o.nextId)
  {
  }

  /**
   * The table (records and next id) after a sequence of signup requests, in order. The
   * duplicate check means no signup ever overwrites a record that is already there.
   */
  function SignUps(users: map<string, User>, nextId: nat, bodies: seq<Option<Json>>): (t: (map<string, User>, nat))
    ensures nextId <= t.1 <= nextId + |bodies|
    ensures forall d :: d in users ==> d in t.0 && t.0[d] == users[d]
    decreases |bodies|
  {
    if |bodies| == 0 then (users, nextId)
    else
      var first := SignUpRequest(users, nextId, bodies[0]);
      SignUps(first.users, first.nextId, bodies[1..])
  }

  /** After any sequence of signups from a well-formed table, no two records share a DID or an id. */
  lemma {:induction false} SignUpsKeepDidsUnique(users: map<string, User>, nextId: nat, bodies: seq<Option<Json>>)
    requires WellFormed(users, nextId)
    ensures var t := SignUps(users, nextId, bodies);
      && WellFormed(t.0, t.1)
      && (forall d, e :: d in t.0 && e in t.0 && t.0[d].did == t.0[e].did ==> d == e)
    decreases |bodies|
  {
    if |bodies| > 0 {
      var first := SignUpRequest(users, nextId, bodies[0]);
      SignUpKeepsWellFormed(users, nextId, bodies[0]);
      SignUpsKeepDidsUnique(first.users, first.nextId, bodies[1..]);
    }
  }

  /** The handler, on the user table. */
  method Post(store: UserStore, body: Option<Json>) returns (response: Response<Created>)
    requires store.Valid()
    modifies store
    ensures store.Valid()
    ensures Outcome(response, store.users, store.nextId) == SignUpRequest(old(store.users), old(store.nextId), body)
  {
    if body.None? {
      return Error(500, "Internal server error");
    }
    var s := ParseSignUp(body.value);
    if s.None? {
      return Error(400, "Invalid input data");
    }
    var existing := store.FindByDid(s.value.did);
    if existing.Some? {
      return Error(400, "User with this DID already exists");
    }
    var user := store.Create(s.value.did, s.value.name, s.value.major);
    response := Ok(201, Created(user.id, user.did, user.displayName, user.major));
  }
}
