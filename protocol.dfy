/**
 * The login protocol end to end: the page's requests answered by the login and verify
 * routes, and the session the middleware then admits. These lemmas connect the client's
 * credential construction with the verifier's reconstruction of the signed bytes.
 */
module Protocol {
  import opened Wrappers
  import opened Bytes
  import opened Json
  import opened Http
  import opened Users
  import opened Crypto
  import opened Credential
  import opened Session
  import LoginRoute
  import VerifyRoute
  import LoginPage
  import Middleware
  import Base64

  /** The typed credential the verifier's schema reads from the page's request. */
  function ClientCredential(did: string, nonce: string, issuedAt: string, created: string, signature: Bytes): Credential
  {
    Credential(
      Claim([CredentialsContext], [VerifiableCredentialType], did, issuedAt, Subject(did, nonce)),
      Proof(ProofType, created, did + "#keys-1", ProofPurpose, Base64.Encode(signature)))
  }

  /** The body of the page's verification request for a nonce received as a string. */
  function ClientRequest(did: string, nonce: string, issuedAt: string, created: string, signature: Bytes): Json
  {
    var unsigned := LoginPage.UnsignedCredential(did, Some(JStr(nonce)), issuedAt);
    LoginPage.VerifyRequest(did, LoginPage.SignedCredential(unsigned, LoginPage.ProofBlock(did, created, signature)))
  }

  /** The claim the verifier reads is the page's unsigned credential, member for member. */
  lemma ClaimIsUnsignedCredential(did: string, nonce: string, issuedAt: string, created: string, signature: Bytes)
    ensures ClaimJson(ClientCredential(did, nonce, issuedAt, created, signature).claim)
            == LoginPage.UnsignedCredential(did, Some(JStr(nonce)), issuedAt)
  {
    var c := ClientCredential(did, nonce, issuedAt, created, signature);
    var unsigned := LoginPage.UnsignedCredential(did, Some(JStr(nonce)), issuedAt);
    assert Strings([CredentialsContext]) == JArr([JStr(CredentialsContext)]);
    assert Strings([VerifiableCredentialType]) == JArr([JStr(VerifiableCredentialType)]);
    assert [Field("id", JStr(did))] + [Field("nonce", JStr(nonce))] == [Field("id", JStr(did)), Field("nonce", JStr(nonce))];
  }

  /** The schema reads the page's request back as its DID and credential. */
  lemma {:induction false} SchemaReadsClientRequest(did: string, nonce: string, issuedAt: string, created: string,
                                                    signature: Bytes)
    ensures VerifyRoute.ParseVerify(ClientRequest(did, nonce, issuedAt, created, signature))
            == Some((did, ClientCredential(did, nonce, issuedAt, created, signature)))
  {
    var c := ClientCredential(did, nonce, issuedAt, created, signature);
    var unsigned := LoginPage.UnsignedCredential(did, Some(JStr(nonce)), issuedAt);
    ClaimIsUnsignedCredential(did, nonce, issuedAt, created, signature);
    assert LoginPage.ProofBlock(did, created, signature) == ProofJson(c.proof);
    var signed := LoginPage.SignedCredential(unsigned, ProofJson(c.proof));
    assert signed == CredentialJson(c);
    VerifyRoute.ParseCredentialJson(c);
    var req := LoginPage.VerifyRequest(did, CredentialJson(c));
    assert ClientRequest(did, nonce, issuedAt, created, signature) == req;
    LookupAt(req.fields, 0);
    LookupAt(req.fields, 1);
    assert VerifyRoute.StringMember(req, "did") == Some(did);
    assert Member(req, "credential") == Some(CredentialJson(c));
  }

  /**
   * The verifier's schema accepts the page's request and reads back the page's DID, claim and
   * proof; and the bytes it rebuilds for the signature check are exactly the bytes the page
   * signed, because the page signs the credential before `proof` is added and with the members
   * in the verifier's order.
   */
  lemma ClientServerAgree(did: string, nonce: string, issuedAt: string, created: string, signature: Bytes)
    ensures var c := ClientCredential(did, nonce, issuedAt, created, signature);
      && VerifyRoute.ParseVerify(ClientRequest(did, nonce, issuedAt, created, signature)) == Some((did, c))
      && CanonicalMessage(c.claim)
         == LoginPage.SignedMessage(LoginPage.UnsignedCredential(did, Some(JStr(nonce)), issuedAt))
  {
    SchemaReadsClientRequest(did, nonce, issuedAt, created, signature);
    ClaimIsUnsignedCredential(did, nonce, issuedAt, created, signature);
  }

  /** A `did:key` identifier as its comment in the verifier describes it: `z` and the Base64 public key. */
  function DidForKey(publicKey: Bytes): string
  {
    "did:key:z" + Base64.Encode(publicKey)
  }

  /** The key text of such an identifier is `z` followed by the Base64 key, 45 characters for a 32-byte key. */
  lemma {:induction false} KeyTextOfDidForKey(publicKey: Bytes)
    ensures VerifyRoute.KeyText(DidForKey(publicKey)) == "z" + Base64.Encode(publicKey)
    ensures VerifyRoute.MultibaseKeyText(DidForKey(publicKey)) == Base64.Encode(publicKey)
  {
    var k := "z" + Base64.Encode(publicKey);
    Base64.EncodeAlphabet(publicKey);
    assert forall i :: 0 <= i < |k| ==> k[i] != ':' && k[i] != '#' by {
      forall i | 0 <= i < |k|
        ensures k[i] != ':' && k[i] != '#'
      {
        if i > 0 {
          assert k[i] == Base64.Encode(publicKey)[i - 1];
        }
      }
    }
    assert DidForKey(publicKey) == "did:key:" + k;
    VerifyRoute.KeyTextOfDidKey(k);
  }

  /**
   * With the multibase prefix removed, the verifier accepts a signature the page made with
   * the key behind the identifier.
   */
  lemma {:induction false} SignatureAcceptedWithoutPrefix(p: Primitives, seed: Bytes, nonce: string, issuedAt: string,
                                                          created: string)
    requires Sound(p) && |seed| == SeedBytes
    ensures var sk := p.keyFromSeed(seed);
      |sk| == SecretKeyBytes &&
      var did := DidForKey(PublicKeyOf(sk));
      var signature := p.sign(LoginPage.SignedMessage(LoginPage.UnsignedCredential(did, Some(JStr(nonce)), issuedAt)), sk);
      VerifyRoute.CheckSignature(p, VerifyRoute.StripMultibase, did,
                                 ClientCredential(did, nonce, issuedAt, created, signature)).None?
  {
    var sk := p.keyFromSeed(seed);
    assert |sk| == SecretKeyBytes;
    var pk := PublicKeyOf(sk);
    var did := DidForKey(pk);
    var message := LoginPage.SignedMessage(LoginPage.UnsignedCredential(did, Some(JStr(nonce)), issuedAt));
    var signature := p.sign(message, sk);
    var c := ClientCredential(did, nonce, issuedAt, created, signature);
    ClientServerAgree(did, nonce, issuedAt, created, signature);
    KeyTextOfDidForKey(pk);
    Base64.DecodeEncode(pk);
    Base64.DecodeEncode(signature);
    assert |signature| == SignatureBytes && p.verify(message, signature, pk);
  }

  /**
   * As written, the verifier keeps the `z`: the key text of such an identifier is 45
   * characters long, which the strict Base64 decoder refuses, so the signature check fails
   * with "Invalid base64 string" whatever the signature.
   */
  lemma {:induction false} KeyPrefixBreaksDecoding(did: string, publicKey: Bytes, c: Credential, p: Primitives)
    requires |publicKey| == PublicKeyBytes && did == DidForKey(publicKey)
    ensures |VerifyRoute.KeyText(did)| == 45
    ensures VerifyRoute.CheckSignature(p, VerifyRoute.AsWritten, did, c)
            == Some(VerifyRoute.SignatureError(VerifyRoute.InvalidBase64))
  {
    KeyTextOfDidForKey(publicKey);
    var t := VerifyRoute.KeyText(did);
    assert |t| == 45;
    assert Base64.Decode(t).None?;
    VerifyRoute.KeyNotBase64(p, VerifyRoute.AsWritten, did, c);
  }

  /** The signature the page makes over the credential for `nonce`. */
  function ClientSignature(p: Primitives, sk: Bytes, did: string, nonce: string, issuedAt: string): Bytes
  {
    p.sign(LoginPage.SignedMessage(LoginPage.UnsignedCredential(did, Some(JStr(nonce)), issuedAt)), sk)
  }

  /** The verification request the page sends after receiving `nonce`. */
  function SignedRequest(p: Primitives, sk: Bytes, did: string, nonce: string, issuedAt: string, created: string): Json
  {
    ClientRequest(did, nonce, issuedAt, created, ClientSignature(p, sk, did, nonce, issuedAt))
  }

  /** The login route answers the page's nonce request for a registered DID with a live nonce. */
  lemma NonceIssued(users: map<string, User>, nextId: nat, did: string, random: Bytes, t0: nat, now: nat)
    requires WellFormed(users, nextId) && did in users && did != "" && |random| == LoginRoute.NonceBytes
    requires t0 <= now <= t0 + LoginRoute.NonceLifetimeMs
    ensures var o1 := LoginRoute.Login(users, Some(LoginPage.NonceRequest(did)), random, t0);
      && o1.response.Ok?
      && WellFormed(o1.users, nextId)
      && did in o1.users
      && o1.users[did].nonce == Some(o1.response.value)
      && VerifyRoute.NonceLive(o1.users[did], now)
      && o1.users[did := Cleared(o1.users[did])] == users[did := Cleared(users[did])]
  {
    var body := LoginPage.NonceRequest(did);
    LookupAt(body.fields, 0);
    assert LoginRoute.ParseLogin(body) == Some(did);
    LoginRoute.LoginKeepsWellFormed(users, nextId, Some(body), random, t0);
  }

  /**
   * Once the five minutes after the nonce was issued have passed, any request for the DID is
   * refused with "Invalid or expired nonce", whatever it carries, and the table stays as it is.
   */
  lemma {:induction false} ExpiredNonceRefused(p: Primitives, rule: VerifyRoute.KeyRule, env: Env,
                                               users: map<string, User>, did: string, random: Bytes, t0: nat,
                                               now: nat, request: Json, c: Credential)
    requires did in users && did != "" && |random| == LoginRoute.NonceBytes
    requires now > t0 + LoginRoute.NonceLifetimeMs
    requires VerifyRoute.ParseVerify(request) == Some((did, c))
    ensures var o1 := LoginRoute.Login(users, Some(LoginPage.NonceRequest(did)), random, t0);
      && o1.response.Ok?
      && VerifyRoute.Verify(p, rule, env, o1.users, Some(request), now)
         == VerifyRoute.Outcome(Error(400, "Invalid or expired nonce"), o1.users)
  {
    var body := LoginPage.NonceRequest(did);
    LookupAt(body.fields, 0);
    assert LoginRoute.ParseLogin(body) == Some(did);
    var o1 := LoginRoute.Login(users, Some(body), random, t0);
    assert !VerifyRoute.NonceLive(o1.users[did], now);
    VerifyRoute.NonceNotLiveRefused(p, rule, env, o1.users, request, did, c, now);
  }

  /** A request the schema reads as `(did, c)`, with a live matching nonce and a good signature, is accepted. */
  lemma RequestAccepted(p: Primitives, rule: VerifyRoute.KeyRule, env: Env, users: map<string, User>, nextId: nat,
                        request: Json, did: string, c: Credential, now: nat)
    requires WellFormed(users, nextId)
    requires VerifyRoute.ParseVerify(request) == Some((did, c))
    requires did in users && VerifyRoute.NonceLive(users[did], now) && users[did].nonce == Some(c.claim.subject.nonce)
    requires VerifyRoute.CheckSignature(p, rule, did, c).None?
    ensures VerifyRoute.Verify(p, rule, env, users, Some(request), now)
            == VerifyRoute.Outcome(Ok(200, TokenCookie(p.jwtSign(Payload(did, now), SecretKey(env)), env)),
                                   users[did := Cleared(users[did])])
  {
    ClearByIdOfDid(users, nextId, did);
  }

  /** A request that passes the nonce checks but fails the signature check is refused with the table untouched. */
  lemma RequestRefusedAtSignature(p: Primitives, rule: VerifyRoute.KeyRule, env: Env, users: map<string, User>,
                                  request: Json, did: string, c: Credential, now: nat, e: VerifyRoute.VerifyError)
    requires VerifyRoute.ParseVerify(request) == Some((did, c))
    requires did in users && VerifyRoute.NonceLive(users[did], now) && users[did].nonce == Some(c.claim.subject.nonce)
    requires VerifyRoute.CheckSignature(p, rule, did, c) == Some(e)
    ensures VerifyRoute.Verify(p, rule, env, users, Some(request), now)
            == VerifyRoute.Outcome(Error(VerifyRoute.Status(e), VerifyRoute.Message(e)), users)
  {
  }

  /** The agreement facts for the page's request signed with `sk`. */
  lemma SignedRequestRead(p: Primitives, sk: Bytes, did: string, nonce: string, issuedAt: string, created: string)
    ensures var signature := ClientSignature(p, sk, did, nonce, issuedAt);
      var c := ClientCredential(did, nonce, issuedAt, created, signature);
      && VerifyRoute.ParseVerify(SignedRequest(p, sk, did, nonce, issuedAt, created)) == Some((did, c))
      && c.claim.subject.nonce == nonce
  {
    var signature := ClientSignature(p, sk, did, nonce, issuedAt);
    ClientServerAgree(did, nonce, issuedAt, created, signature);
  }

  /**
   * A registered user who holds the key behind their identifier asks for a nonce at `t0` and
   * sends the signed credential at `now`, within five minutes. With the multibase prefix
   * removed, the verifier accepts: the response carries the session cookie for the DID, and
   * the table is as before except that the user's nonce columns are null.
   */
  lemma {:induction false} HonestLoginAccepted(p: Primitives, env: Env, users: map<string, User>, nextId: nat,
                                               seed: Bytes, random: Bytes, t0: nat, now: nat,
                                               issuedAt: string, created: string)
    requires Sound(p) && WellFormed(users, nextId)
    requires |seed| == SeedBytes && |random| == LoginRoute.NonceBytes
    requires DidForKey(PublicKeyOf(p.keyFromSeed(seed))) in users
    requires t0 <= now <= t0 + LoginRoute.NonceLifetimeMs
    ensures var did := DidForKey(PublicKeyOf(p.keyFromSeed(seed)));
      var o1 := LoginRoute.Login(users, Some(LoginPage.NonceRequest(did)), random, t0);
      && o1.response.Ok?
      && var request := SignedRequest(p, p.keyFromSeed(seed), did, o1.response.value, issuedAt, created);
         var o2 := VerifyRoute.Verify(p, VerifyRoute.StripMultibase, env, o1.users, Some(request), now);
         && o2.response == Ok(200, TokenCookie(p.jwtSign(Payload(did, now), SecretKey(env)), env))
         && o2.users == users[did := Cleared(users[did])]
  {
    var sk := p.keyFromSeed(seed);
    var did := DidForKey(PublicKeyOf(sk));
    NonceIssued(users, nextId, did, random, t0, now);
    var o1 := LoginRoute.Login(users, Some(LoginPage.NonceRequest(did)), random, t0);
    var nonce := o1.response.value;
    SignedRequestRead(p, sk, did, nonce, issuedAt, created);
    SignatureAcceptedWithoutPrefix(p, seed, nonce, issuedAt, created);
    var c := ClientCredential(did, nonce, issuedAt, created, ClientSignature(p, sk, did, nonce, issuedAt));
    RequestAccepted(p, VerifyRoute.StripMultibase, env, o1.users, nextId,
                    SignedRequest(p, sk, did, nonce, issuedAt, created), did, c, now);
  }

  /** The as-written refusal for any 64-byte secret key whose public key is behind the identifier. */
  lemma {:induction false} RefusedForKey(p: Primitives, env: Env, users: map<string, User>, nextId: nat,
                                         sk: Bytes, random: Bytes, t0: nat, now: nat, issuedAt: string, created: string)
    requires WellFormed(users, nextId)
    requires |sk| == SecretKeyBytes && |random| == LoginRoute.NonceBytes
    requires DidForKey(PublicKeyOf(sk)) in users
    requires t0 <= now <= t0 + LoginRoute.NonceLifetimeMs
    ensures var did := DidForKey(PublicKeyOf(sk));
      var o1 := LoginRoute.Login(users, Some(LoginPage.NonceRequest(did)), random, t0);
      && o1.response.Ok?
      && var request := SignedRequest(p, sk, did, o1.response.value, issuedAt, created);
         VerifyRoute.Verify(p, VerifyRoute.AsWritten, env, o1.users, Some(request), now)
         == VerifyRoute.Outcome(Error(400, "Error verifying signature"), o1.users)
  {
    var e := VerifyRoute.SignatureError(VerifyRoute.InvalidBase64);
    assert VerifyRoute.Status(e) == 400 && VerifyRoute.Message(e) == "Error verifying signature";
    var did := DidForKey(PublicKeyOf(sk));
    NonceIssued(users, nextId, did, random, t0, now);
    var o1 := LoginRoute.Login(users, Some(LoginPage.NonceRequest(did)), random, t0);
    var nonce := o1.response.value;
    SignedRequestRead(p, sk, did, nonce, issuedAt, created);
    var c := ClientCredential(did, nonce, issuedAt, created, ClientSignature(p, sk, did, nonce, issuedAt));
    KeyPrefixBreaksDecoding(did, PublicKeyOf(sk), c, p);
    RequestRefusedAtSignature(p, VerifyRoute.AsWritten, env, o1.users,
                              SignedRequest(p, sk, did, nonce, issuedAt, created), did, c, now, e);
  }

  /**
   * The same login against the verifier as written: it answers 400 "Error verifying
   * signature" and the issued nonce stays in the table.
   */
  lemma {:induction false} HonestLoginRejectedAsWritten(p: Primitives, env: Env, users: map<string, User>, nextId: nat,
                                                        seed: Bytes, random: Bytes, t0: nat, now: nat,
                                                        issuedAt: string, created: string)
    requires Sound(p) && WellFormed(users, nextId)
    requires |seed| == SeedBytes && |random| == LoginRoute.NonceBytes
    requires DidForKey(PublicKeyOf(p.keyFromSeed(seed))) in users
    requires t0 <= now <= t0 + LoginRoute.NonceLifetimeMs
    ensures var did := DidForKey(PublicKeyOf(p.keyFromSeed(seed)));
      var o1 := LoginRoute.Login(users, Some(LoginPage.NonceRequest(did)), random, t0);
      && o1.response.Ok?
      && var request := SignedRequest(p, p.keyFromSeed(seed), did, o1.response.value, issuedAt, created);
         VerifyRoute.Verify(p, VerifyRoute.AsWritten, env, o1.users, Some(request), now)
         == VerifyRoute.Outcome(Error(400, "Error verifying signature"), o1.users)
  {
    RefusedForKey(p, env, users, nextId, p.keyFromSeed(seed), random, t0, now, issuedAt, created);
  }

  /** What the page's `fetch` sees of the login route's response: `ok` for a 2xx status, and the JSON body. */
  function LoginReply(r: Response<string>): LoginPage.Reply
  {
    match r
    case Ok(status, nonce) => LoginPage.Reply(200 <= status < 300, JObj([Field("nonce", JStr(nonce))]))
    case Error(status, message) => LoginPage.Reply(200 <= status < 300, JObj([Field("error", JStr(message))]))
  }

  /** What the page's `fetch` sees of the verify route's response. */
  function VerifyReply(r: Response<Cookie>): LoginPage.Reply
  {
    match r
    case Ok(status, _) => LoginPage.Reply(200 <= status < 300, JObj([Field("success", JBool(true))]))
    case Error(status, message) => LoginPage.Reply(200 <= status < 300, JObj([Field("error", JStr(message))]))
  }

  /** The login route at `t0` as the page's server. */
  function LoginServer(users: map<string, User>, random: Bytes, t0: nat): Json -> LoginPage.Reply
    requires |random| == LoginRoute.NonceBytes
  {
    body => LoginReply(LoginRoute.Login(users, Some(body), random, t0).response)
  }

  /** The verify route at `now` as the page's server. */
  function VerifyServer(p: Primitives, rule: VerifyRoute.KeyRule, env: Env, users: map<string, User>, now: nat)
    : Json -> LoginPage.Reply
  {
    body => VerifyReply(VerifyRoute.Verify(p, rule, env, users, Some(body), now).response)
  }

  /** The page's two requests for the stored key `sk`, answered by the routes, are the protocol's requests. */
  lemma {:induction false} PageSendsSignedRequest(p: Primitives, rule: VerifyRoute.KeyRule, env: Env,
                                                  users: map<string, User>, nextId: nat, sk: Bytes, random: Bytes,
                                                  t0: nat, now: nat, issuedAt: string, created: string)
    requires WellFormed(users, nextId)
    requires |sk| == SecretKeyBytes && |random| == LoginRoute.NonceBytes
    requires DidForKey(PublicKeyOf(sk)) in users
    requires t0 <= now <= t0 + LoginRoute.NonceLifetimeMs
    ensures var did := DidForKey(PublicKeyOf(sk));
      var o1 := LoginRoute.Login(users, Some(LoginPage.NonceRequest(did)), random, t0);
      && o1.response.Ok?
      && var request := SignedRequest(p, sk, did, o1.response.value, issuedAt, created);
         var reply := VerifyReply(VerifyRoute.Verify(p, rule, env, o1.users, Some(request), now).response);
         LoginPage.SignIn(Some(LoginPage.StoredDid(did, Base64.Encode(sk))), LoginServer(users, random, t0),
                          VerifyServer(p, rule, env, o1.users, now), p, issuedAt, created)
         == LoginPage.Attempt(if reply.ok then None else Some(LoginPage.ServerError(reply.body)),
                              [LoginPage.Request(LoginPage.LoginPath, LoginPage.NonceRequest(did)),
                               LoginPage.Request(LoginPage.VerifyPath, request)])
  {
    var did := DidForKey(PublicKeyOf(sk));
    NonceIssued(users, nextId, did, random, t0, now);
    var o1 := LoginRoute.Login(users, Some(LoginPage.NonceRequest(did)), random, t0);
    var nonce := o1.response.value;
    var nonceReply := LoginServer(users, random, t0)(LoginPage.NonceRequest(did));
    assert nonceReply == LoginReply(o1.response);
    assert nonceReply.ok;
    assert Member(nonceReply.body, "nonce") == Some(JStr(nonce));
    Base64.DecodeEncode(sk);
    assert |Base64.Encode(sk)| == 88;
    assert did == "did:key:z" + Base64.Encode(PublicKeyOf(sk));
    LoginPage.SignInPosts(LoginPage.StoredDid(did, Base64.Encode(sk)), LoginServer(users, random, t0),
                          VerifyServer(p, rule, env, o1.users, now), p, issuedAt, created, sk);
  }

  /**
   * The page's sign-in button, against the routes as written: the user holding the right key
   * sees "Error verifying signature" and stays on the login page.
   */
  lemma {:induction false} PageShowsSignatureError(p: Primitives, env: Env, users: map<string, User>, nextId: nat,
                                                   sk: Bytes, random: Bytes, t0: nat, now: nat,
                                                   issuedAt: string, created: string)
    requires WellFormed(users, nextId)
    requires |sk| == SecretKeyBytes && |random| == LoginRoute.NonceBytes
    requires DidForKey(PublicKeyOf(sk)) in users
    requires t0 <= now <= t0 + LoginRoute.NonceLifetimeMs
    ensures var did := DidForKey(PublicKeyOf(sk));
      var o1 := LoginRoute.Login(users, Some(LoginPage.NonceRequest(did)), random, t0);
      o1.response.Ok? &&
      LoginPage.SignIn(Some(LoginPage.StoredDid(did, Base64.Encode(sk))), LoginServer(users, random, t0),
                       VerifyServer(p, VerifyRoute.AsWritten, env, o1.users, now), p, issuedAt, created).error
      == Some("Error verifying signature")
  {
    var did := DidForKey(PublicKeyOf(sk));
    RefusedForKey(p, env, users, nextId, sk, random, t0, now, issuedAt, created);
    PageSendsSignedRequest(p, VerifyRoute.AsWritten, env, users, nextId, sk, random, t0, now, issuedAt, created);
    var o1 := LoginRoute.Login(users, Some(LoginPage.NonceRequest(did)), random, t0);
    var request := SignedRequest(p, sk, did, o1.response.value, issuedAt, created);
    assert VerifyServer(p, VerifyRoute.AsWritten, env, o1.users, now)(request)
           == VerifyReply(Error(400, "Error verifying signature"));
    LoginPage.ServerErrorShown("Error verifying signature");
  }

  /**
   * The same button against the verifier with the multibase prefix removed: no error is shown,
   * so the page goes on to the dashboard.
   */
  lemma {:induction false} PageSignsIn(p: Primitives, env: Env, users: map<string, User>, nextId: nat,
                                       seed: Bytes, random: Bytes, t0: nat, now: nat, issuedAt: string, created: string)
    requires Sound(p) && WellFormed(users, nextId)
    requires |seed| == SeedBytes && |random| == LoginRoute.NonceBytes
    requires DidForKey(PublicKeyOf(p.keyFromSeed(seed))) in users
    requires t0 <= now <= t0 + LoginRoute.NonceLifetimeMs
    ensures var sk := p.keyFromSeed(seed);
      var did := DidForKey(PublicKeyOf(sk));
      var o1 := LoginRoute.Login(users, Some(LoginPage.NonceRequest(did)), random, t0);
      && |sk| == SecretKeyBytes
      && o1.response.Ok?
      && LoginPage.SignIn(Some(LoginPage.StoredDid(did, Base64.Encode(sk))), LoginServer(users, random, t0),
                          VerifyServer(p, VerifyRoute.StripMultibase, env, o1.users, now), p, issuedAt, created).error
         == None
  {
    var sk := p.keyFromSeed(seed);
    assert |sk| == SecretKeyBytes;
    HonestLoginAccepted(p, env, users, nextId, seed, random, t0, now, issuedAt, created);
    PageSendsSignedRequest(p, VerifyRoute.StripMultibase, env, users, nextId, sk, random, t0, now, issuedAt, created);
  }
}
