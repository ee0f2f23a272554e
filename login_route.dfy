/**
 * `POST /api/auth/login` (app/api/auth/login/route.ts): issues a fresh challenge nonce to a
 * registered DID and stores it with a five-minute expiry.
 */
module LoginRoute {
  import opened Wrappers
  import opened Bytes
  import opened Json
  import opened Http
  import opened Users
  import Hex

  const NonceBytes := 32
  const NonceLifetimeMs := 5 * 60 * 1000

  /** `loginSchema.parse(body)`: the body must be an object whose `did` is a non-empty string. */
  function ParseLogin(body: Json): (did: Option<string>)
    ensures did.Some? ==> did.value != "" && Member(body, "did") == Some(JStr(did.value))
    ensures did.None? ==> forall d :: Member(body, "did") == Some(JStr(d)) ==> d == ""
  {
    match Member(body, "did")
    case Some(JStr(d)) => if d != "" then Some(d) else None
    case _ => None
  }

  /** The response and the new table of one login request. */
  datatype Outcome = Outcome(response: Response<string>, users: map<string, User>)

  /**
   * One request: an unreadable body gives 500, a schema failure 400, an unknown DID 404, all
   * with the table untouched; otherwise the hex text of `random` becomes that user's nonce,
   * expiring `NonceLifetimeMs` after `nowMs`, and is returned.
   */
  function Login(users: map<string, User>, body: Option<Json>, random: Bytes, nowMs: nat): (o: Outcome)
    requires |random| == NonceBytes
    ensures o.response.Ok? <==>
      body.Some? && ParseLogin(body.value).Some? && ParseLogin(body.value).value in users
    ensures !o.response.Ok? ==> o.users == users
    ensures body.None? ==> o.response == Error(500, "Internal server error")
    ensures body.Some? && ParseLogin(body.value).None? ==> o.response == Error(400, "Invalid input data")
    ensures body.Some? && ParseLogin(body.value).Some? && ParseLogin(body.value).value !in users ==>
      o.response == Error(404, "User not found")
    ensures o.response.Ok? ==>
      var did := ParseLogin(body.value).value;
      && o.response == Ok(200, Hex.Encode(random))
      && o.users == users[did := users[did].(nonce := Some(o.response.value),
                                             nonceExpiresAt := Some(nowMs + NonceLifetimeMs))]
  {
    if body.None? then Outcome(Error(500, "Internal server error"), users)
    else match ParseLogin(body.value)
      case None => Outcome(Error(400, "Invalid input data"), users)
      case Some(did) =>
        if did !in users then Outcome(Error(404, "User not found"), users)
        else
          var nonce := Hex.Encode(random);
          Outcome(Ok(200, nonce),
                  users[did := users[did].(nonce := Some(nonce), nonceExpiresAt := Some(nowMs + NonceLifetimeMs))])
  }

  /** The issued nonce is 64 characters of `[0-9a-f]`, stored with expiry now + 300000 ms. */
  lemma NonceShape(users: map<string, User>, body: Option<Json>, random: Bytes, nowMs: nat)
    requires |random| == NonceBytes
    ensures var o := Login(users, body, random, nowMs);
      o.response.Ok? ==>
        var did := ParseLogin(body.value).value;
        && |o.response.value| == 64
        && (forall i :: 0 <= i < 64 ==> Hex.IsLowerHexDigit(o.response.value[i]))
        && did in o.users
        && o.users[did].nonce == Some(o.response.value)
        && o.users[did].nonceExpiresAt == Some(nowMs + 300000)
        && (forall d :: d in users && d != did ==> d in o.users && o.users[d] == users[d])
  {
  }

  /** A login keeps the table well formed: it changes no id and adds no record. */
  lemma LoginKeepsWellFormed(users: map<string, User>, nextId: nat, body: Option<Json>, random: Bytes, nowMs: nat)
    requires |random| == NonceBytes && WellFormed(users, nextId)
    ensures WellFormed(Login(users, body, random, nowMs).users, nextId)
  {
  }

  /**
   * Two logins for the same DID with different random bytes: the second overwrites the first,
   * so the first nonce no longer matches what is stored.
   */
  lemma {:induction false} OnlyLatestNonce(users: map<string, User>, body: Json, r1: Bytes, r2: Bytes, t1: nat, t2: nat)
    requires |r1| == NonceBytes && |r2| == NonceBytes && r1 != r2
    ensures var o1 := Login(users, Some(body), r1, t1);
      var o2 := Login(o1.users, Some(body), r2, t2);
      o1.response.Ok? ==>
        o2.response.Ok? && o2.users[ParseLogin(body).value].nonce != Some(o1.response.value)
  {
    var o1 := Login(users, Some(body), r1, t1);
    if o1.response.Ok? {
      if Hex.Encode(r2) == Hex.Encode(r1) {
        Hex.EncodeInjective(r1, r2);
      }
    }
  }

  /** The handler, on the user table. */
  method Post(store: UserStore, body: Option<Json>, random: Bytes, nowMs: nat) returns (response: Response<string>)
    requires store.Valid() && |random| == NonceBytes
    modifies store
    ensures store.Valid() && store.nextId == old(store.nextId)
    ensures Outcome(response, store.users) == Login(old(store.users), body, random, nowMs)
  {
    if body.None? {
      return Error(500, "Internal server error");
    }
    var did := ParseLogin(body.value);
    if did.None? {
      return Error(400, "Invalid input data");
    }
    var user := store.FindByDid(did.value);
    if user.None? {
      return Error(404, "User not found");
    }
    var nonce := Hex.Encode(random);
    store.SetNonce(did.value, nonce, nowMs + NonceLifetimeMs);
    response := Ok(200, nonce);
  }
}
