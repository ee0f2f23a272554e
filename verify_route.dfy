/**
 * `POST /api/auth/verify` (app/api/auth/verify/route.ts): checks a signed credential against
 * the nonce issued to a DID and, when every check passes, consumes the nonce and starts a
 * session by setting the `token` cookie.
 */
module VerifyRoute {
  import opened Wrappers
  import opened Bytes
  import opened Json
  import opened Http
  import opened Users
  import opened Crypto
  import opened Credential
  import opened Session
  import JsString
  import Base64

  /** A member that is present and a string, as `z.string()` requires. */
  function StringMember(v: Json, key: string): (r: Option<string>)
    ensures r.Some? <==> Member(v, key).Some? && Member(v, key).value.JStr?
    ensures r.Some? ==> Member(v, key) == Some(JStr(r.value))
  {
    match Member(v, key)
    case Some(JStr(s)) => Some(s)
    case _ => None
  }

  /** The strings of an array all of whose elements are strings, as `z.array(z.string())` requires. */
  function StringItems(items: seq<Json>): (r: Option<seq<string>>)
    ensures r.Some? <==> forall i :: 0 <= i < |items| ==> items[i].JStr?
    ensures r.Some? ==> |r.value| == |items| && forall i :: 0 <= i < |items| ==> items[i] == JStr(r.value[i])
  {
    if items == [] then Some([])
    else if !items[0].JStr? then None
    else match StringItems(items[1..])
      case None => None
      case Some(rest) => Some([items[0].s] + rest)
  }

  function StringArrayMember(v: Json, key: string): Option<seq<string>>
  {
    match Member(v, key)
    case Some(JArr(items)) => StringItems(items)
    case _ => None
  }

  function ParseSubject(v: Json): Option<Subject>
  {
    match (StringMember(v, "id"), StringMember(v, "nonce"))
    case (Some(id), Some(nonce)) => Some(Subject(id, nonce))
    case _ => None
  }

  function ParseProof(v: Json): Option<Proof>
  {
    match (StringMember(v, "type"), StringMember(v, "created"), StringMember(v, "verificationMethod"),
           StringMember(v, "proofPurpose"), StringMember(v, "signature"))
    case (Some(t), Some(c), Some(m), Some(pp), Some(sig)) => Some(Proof(t, c, m, pp, sig))
    case _ => None
  }

  function ParseCredential(v: Json): Option<Credential>
  {
    var ctx, types := StringArrayMember(v, "@context"), StringArrayMember(v, "type");
    var issuer, date := StringMember(v, "issuer"), StringMember(v, "issuanceDate");
    var sv, pv := Member(v, "credentialSubject"), Member(v, "proof");
    if ctx.None? || types.None? || issuer.None? || date.None? || sv.None? || pv.None? then None
    else
      var subject, proof := ParseSubject(sv.value), ParseProof(pv.value);
      if subject.None? || proof.None? then None
      else Some(Credential(Claim(ctx.value, types.value, issuer.value, date.value, subject.value), proof.value))
  }

  /** `verifySchema.parse(body)`: the top-level `did` and the typed credential. */
  function ParseVerify(body: Json): Option<(string, Credential)>
  {
    var did, cv := StringMember(body, "did"), Member(body, "credential");
    if did.None? || cv.None? then None
    else
      var c := ParseCredential(cv.value);
      if c.None? then None else Some((did.value, c.value))
  }

  lemma {:induction false} StringItemsOfStrings(ss: seq<string>)
    ensures StringItems(Strings(ss).items) == Some(ss)
  {
    if ss != [] {
      StringItemsOfStrings(ss[1..]);
      assert Strings(ss).items[1..] == Strings(ss[1..]).items;
      assert [ss[0]] + ss[1..] == ss;
    }
  }

  lemma ParseSubjectJson(sub: Subject)
    ensures ParseSubject(SubjectJson(sub)) == Some(sub)
  {
    var fs := SubjectJson(sub).fields;
    LookupAt(fs, 0);
    LookupAt(fs, 1);
  }

  lemma ParseProofJson(pr: Proof)
    ensures ParseProof(ProofJson(pr)) == Some(pr)
  {
    var fs := ProofJson(pr).fields;
    LookupAt(fs, 0);
    LookupAt(fs, 1);
    LookupAt(fs, 2);
    LookupAt(fs, 3);
    LookupAt(fs, 4);
  }

  lemma CredentialMembers(c: Credential)
    ensures var v := CredentialJson(c);
      && Member(v, "@context") == Some(Strings(c.claim.context))
      && Member(v, "type") == Some(Strings(c.claim.types))
      && Member(v, "issuer") == Some(JStr(c.claim.issuer))
      && Member(v, "issuanceDate") == Some(JStr(c.claim.issuanceDate))
      && Member(v, "credentialSubject") == Some(SubjectJson(c.claim.subject))
      && Member(v, "proof") == Some(ProofJson(c.proof))
  {
    var fs := CredentialJson(c).fields;
    assert fs == [
      Field("@context", Strings(c.claim.context)),
      Field("type", Strings(c.claim.types)),
      Field("issuer", JStr(c.claim.issuer)),
      Field("issuanceDate", JStr(c.claim.issuanceDate)),
      Field("credentialSubject", SubjectJson(c.claim.subject)),
      Field("proof", ProofJson(c.proof))];
    LookupAt(fs, 0);
    LookupAt(fs, 1);
    LookupAt(fs, 2);
    LookupAt(fs, 3);
    LookupAt(fs, 4);
    LookupAt(fs, 5);
  }

  /** The schema reads back every credential from its JSON form. */
  lemma ParseCredentialJson(c: Credential)
    ensures ParseCredential(CredentialJson(c)) == Some(c)
  {
    var v := CredentialJson(c);
    CredentialMembers(c);
    StringItemsOfStrings(c.claim.context);
    StringItemsOfStrings(c.claim.types);
    ParseSubjectJson(c.claim.subject);
    ParseProofJson(c.proof);
    assert StringArrayMember(v, "@context") == Some(c.claim.context);
    assert StringArrayMember(v, "type") == Some(c.claim.types);
  }

  /**
   * `did.split(':').pop()?.split('#')[0]`: the text after the last `:`, cut at the first `#`.
   * The leading multibase `z` of a `did:key` identifier is kept.
   */
  function KeyText(did: string): string
  {
    JsString.Split(JsString.Last(JsString.Split(did, ':')), '#')[0]
  }

  /**
   * The key text is the part of `did` that follows its last `:` (or all of `did`) up to the
   * first `#` after it (or the end), and holds neither character.
   */
  lemma KeyTextSegment(did: string)
    ensures var l := JsString.Last(JsString.Split(did, ':')); var t := KeyText(did);
      && |l| <= |did| && did[|did| - |l|..] == l && (|l| == |did| || did[|did| - |l| - 1] == ':')
      && ':' !in l
      && |t| <= |l| && l[..|t|] == t && (|t| == |l| || l[|t|] == '#')
      && ':' !in t && '#' !in t
  {
    var parts := JsString.Split(did, ':');
    JsString.SplitLast(did, ':');
    JsString.SplitFirst(JsString.Last(parts), '#');
    assert ':' !in parts[|parts| - 1];
  }

  /** For `did:key:k` with `k` free of `:` and `#`, the key text is exactly `k`. */
  lemma {:induction false} KeyTextOfDidKey(k: string)
    requires ':' !in k && '#' !in k
    ensures KeyText("did:key:" + k) == k
  {
    var did := "did:key:" + k;
    var l := JsString.Last(JsString.Split(did, ':'));
    KeyTextSegment(did);
    assert did[7] == ':';
    assert l == did[|did| - |k|..] == k;
  }

  /** The key text with the multibase prefix `z` removed, as the `did:key:z{base64}` format describes. */
  function MultibaseKeyText(did: string): (t: string)
    ensures KeyText(did) == t || KeyText(did) == "z" + t
  {
    var t := KeyText(did);
    if |t| > 0 && t[0] == 'z' then t[1..] else t
  }

  /** Which key text the signature check decodes: the route's own, or the one without `z`. */
  datatype KeyRule = AsWritten | StripMultibase

  function KeyTextFor(rule: KeyRule, did: string): string
  {
    match rule
    case AsWritten => KeyText(did)
    case StripMultibase => MultibaseKeyText(did)
  }

  /** Why a verification request is refused, in the order the route checks. */
  datatype VerifyError =
    | UserNotFound
    | NonceInvalidOrExpired
    | NonceMismatch
    | InvalidDidFormat
    | SignatureError(details: string)
    | InvalidSignature

  function Status(e: VerifyError): (s: nat)
    ensures s == 404 <==> e.UserNotFound?
    ensures s != 404 ==> s == 400
  {
    if e.UserNotFound? then 404 else 400
  }

  function Message(e: VerifyError): string
  {
    match e
    case UserNotFound => "User not found"
    case NonceInvalidOrExpired => "Invalid or expired nonce"
    case NonceMismatch => "Invalid nonce"
    case InvalidDidFormat => "Invalid DID format"
    case SignatureError(_) => "Error verifying signature"
    case InvalidSignature => "Invalid signature"
  }

  /** The messages tweetnacl-util's decoder and tweetnacl's verifier throw, as the route reports them. */
  const InvalidBase64 := "Invalid base64 string"
  const BadSignatureSize := "bad signature size"
  const BadPublicKeySize := "bad public key size"

  /**
   * The signature part of the pipeline: a non-empty key text, both texts valid Base64, a
   * 64-byte signature and a 32-byte key, and a signature that verifies over the UTF-8 bytes
   * of the serialised claim. `None` means every step passed.
   */
  function CheckSignature(p: Primitives, rule: KeyRule, did: string, c: Credential): (r: Option<VerifyError>)
    ensures r.None? <==>
      && KeyTextFor(rule, did) != ""
      && Base64.Decode(KeyTextFor(rule, did)).Some?
      && Base64.Decode(c.proof.signature).Some?
      && |Base64.Decode(c.proof.signature).value| == SignatureBytes
      && |Base64.Decode(KeyTextFor(rule, did)).value| == PublicKeyBytes
      && p.verify(CanonicalMessage(c.claim), Base64.Decode(c.proof.signature).value,
                  Base64.Decode(KeyTextFor(rule, did)).value)
    ensures r.Some? ==> r.value.InvalidDidFormat? || r.value.SignatureError? || r.value.InvalidSignature?
    ensures KeyTextFor(rule, did) == "" ==> r == Some(InvalidDidFormat)
    ensures r == Some(InvalidSignature) <==>
      && KeyTextFor(rule, did) != ""
      && Base64.Decode(KeyTextFor(rule, did)).Some?
      && Base64.Decode(c.proof.signature).Some?
      && |Base64.Decode(c.proof.signature).value| == SignatureBytes
      && |Base64.Decode(KeyTextFor(rule, did)).value| == PublicKeyBytes
      && !p.verify(CanonicalMessage(c.claim), Base64.Decode(c.proof.signature).value,
                   Base64.Decode(KeyTextFor(rule, did)).value)
  {
    var keyText := KeyTextFor(rule, did);
    if keyText == "" then Some(InvalidDidFormat)
    else match Base64.Decode(keyText)
      case None => Some(SignatureError(InvalidBase64))
      case Some(publicKey) =>
        match Base64.Decode(c.proof.signature)
        case None => Some(SignatureError(InvalidBase64))
        case Some(signature) =>
          if |signature| != SignatureBytes then Some(SignatureError(BadSignatureSize))
          else if |publicKey| != PublicKeyBytes then Some(SignatureError(BadPublicKeySize))
          else if !p.verify(CanonicalMessage(c.claim), signature, publicKey) then Some(InvalidSignature)
          else None
  }

  /** A non-empty key text that is not valid Base64 fails the signature check with "Invalid base64 string". */
  lemma KeyNotBase64(p: Primitives, rule: KeyRule, did: string, c: Credential)
    requires KeyTextFor(rule, did) != "" && Base64.Decode(KeyTextFor(rule, did)).None?
    ensures CheckSignature(p, rule, did, c) == Some(SignatureError(InvalidBase64))
  {
  }

  /**
   * With the key text decoded, a signature text that is not Base64 or a signature or key of
   * the wrong size makes the decoder or `nacl.sign.detached.verify` throw.
   */
  lemma SignatureTextErrors(p: Primitives, rule: KeyRule, did: string, c: Credential)
    requires KeyTextFor(rule, did) != "" && Base64.Decode(KeyTextFor(rule, did)).Some?
    ensures Base64.Decode(c.proof.signature).None? ==>
      CheckSignature(p, rule, did, c) == Some(SignatureError(InvalidBase64))
    ensures Base64.Decode(c.proof.signature).Some? && |Base64.Decode(c.proof.signature).value| != SignatureBytes ==>
      CheckSignature(p, rule, did, c) == Some(SignatureError(BadSignatureSize))
    ensures Base64.Decode(c.proof.signature).Some? && |Base64.Decode(c.proof.signature).value| == SignatureBytes
            && |Base64.Decode(KeyTextFor(rule, did)).value| != PublicKeyBytes ==>
      CheckSignature(p, rule, did, c) == Some(SignatureError(BadPublicKeySize))
  {
  }

  /** The stored nonce is usable at `nowMs`: present, non-empty, with an expiry not yet passed. */
  predicate NonceLive(u: User, nowMs: int)
  {
    u.nonce.Some? && u.nonce.value != "" && u.nonceExpiresAt.Some? && nowMs <= u.nonceExpiresAt.value
  }

  /**
   * The checks in the route's order; the first that fails decides. On success, the record
   * found under the request's top-level `did`.
   */
  function Check(p: Primitives, rule: KeyRule, users: map<string, User>, did: string, c: Credential, nowMs: int)
    : (r: Result<User, VerifyError>)
    ensures r.Success? <==>
      did in users && NonceLive(users[did], nowMs) && users[did].nonce == Some(c.claim.subject.nonce)
      && CheckSignature(p, rule, did, c).None?
    ensures r.Success? ==> r.value == users[did]
    ensures did !in users ==> r == Failure(UserNotFound)
    ensures did in users && !NonceLive(users[did], nowMs) ==> r == Failure(NonceInvalidOrExpired)
    ensures did in users && NonceLive(users[did], nowMs) && users[did].nonce != Some(c.claim.subject.nonce)
      ==> r == Failure(NonceMismatch)
    ensures did in users && NonceLive(users[did], nowMs) && users[did].nonce == Some(c.claim.subject.nonce)
            && CheckSignature(p, rule, did, c).Some?
      ==> r == Failure(CheckSignature(p, rule, did, c).value)
  {
    if did !in users then Failure(UserNotFound)
    else
      var u := users[did];
      if !NonceLive(u, nowMs) then Failure(NonceInvalidOrExpired)
      else if u.nonce.value != c.claim.subject.nonce then Failure(NonceMismatch)
      else match CheckSignature(p, rule, did, c)
        case Some(e) => Failure(e)
        case None => Success(u)
  }

  datatype Outcome = Outcome(response: Response<Cookie>, users: map<string, User>)

  /**
   * One request: 500 for an unreadable body, 400 "Invalid input" for a schema failure, the
   * first failing check's status and message otherwise, all with the table untouched. When
   * every check passes, the nonce columns of the user's record are cleared (by id) and the
   * response carries the session cookie.
   */
  function Verify(p: Primitives, rule: KeyRule, env: Env, users: map<string, User>, body: Option<Json>, nowMs: nat)
    : (o: Outcome)
    ensures !o.response.Ok? ==> o.users == users
    ensures body.None? ==> o.response == Error(500, "Internal server error")
    ensures body.Some? && ParseVerify(body.value).None? ==> o.response == Error(400, "Invalid input")
    ensures body.Some? && ParseVerify(body.value).Some? ==>
      var (did, c) := ParseVerify(body.value).value;
      var r := Check(p, rule, users, did, c, nowMs);
      r.Failure? ==> o.response == Error(Status(r.error), Message(r.error))
    ensures o.response.Ok? <==>
      body.Some? && ParseVerify(body.value).Some?
      && Check(p, rule, users, ParseVerify(body.value).value.0, ParseVerify(body.value).value.1, nowMs).Success?
    ensures o.response.Ok? ==>
      var did := ParseVerify(body.value).value.0;
      && did in users
      && o.users == ClearById(users, users[did].id)
      && o.response == Ok(200, TokenCookie(p.jwtSign(Payload(users[did].did, nowMs), SecretKey(env)), env))
  {
    if body.None? then Outcome(Error(500, "Internal server error"), users)
    else match ParseVerify(body.value)
      case None => Outcome(Error(400, "Invalid input"), users)
      case Some((did, c)) =>
        match Check(p, rule, users, did, c, nowMs)
        case Failure(e) => Outcome(Error(Status(e), Message(e)), users)
        case Success(u) =>
          var token := p.jwtSign(Payload(u.did, nowMs), SecretKey(env));
          Outcome(Ok(200, TokenCookie(token, env)), ClearById(users, u.id))
  }

  /** A success consumes the nonce: the same request again is refused with "Invalid or expired nonce". */
  lemma {:induction false} ReplayRefused(p: Primitives, rule: KeyRule, env: Env, users: map<string, User>, nextId: nat,
                                         body: Json, nowMs: nat, laterMs: nat)
    requires WellFormed(users, nextId)
    ensures var o := Verify(p, rule, env, users, Some(body), nowMs);
      o.response.Ok? ==>
        && WellFormed(o.users, nextId)
        && Verify(p, rule, env, o.users, Some(body), laterMs) == Outcome(Error(400, "Invalid or expired nonce"), o.users)
  {
    var o := Verify(p, rule, env, users, Some(body), nowMs);
    if o.response.Ok? {
      var (did, c) := ParseVerify(body).value;
      ClearByIdOfDid(users, nextId, did);
      assert o.users[did] == Cleared(users[did]);
      NonceNotLiveRefused(p, rule, env, o.users, body, did, c, laterMs);
    }
  }

  /** A request for a DID whose stored nonce is not live is refused with the table untouched. */
  lemma NonceNotLiveRefused(p: Primitives, rule: KeyRule, env: Env, users: map<string, User>, body: Json,
                            did: string, c: Credential, nowMs: nat)
    requires ParseVerify(body) == Some((did, c))
    requires did in users && !NonceLive(users[did], nowMs)
    ensures Verify(p, rule, env, users, Some(body), nowMs) == Outcome(Error(400, "Invalid or expired nonce"), users)
  {
    assert Message(NonceInvalidOrExpired) == "Invalid or expired nonce";
  }

  /** The handler, as written (the key text keeps its `z`), on the user table. */
  method Post(store: UserStore, p: Primitives, env: Env, body: Option<Json>, nowMs: nat) returns (response: Response<Cookie>)
    requires store.Valid()
    modifies store
    ensures store.Valid() && store.nextId == old(store.nextId)
    ensures Outcome(response, store.users) == Verify(p, AsWritten, env, old(store.users), body, nowMs)
  {
    if body.None? {
      return Error(500, "Internal server error");
    }
    var input := ParseVerify(body.value);
    if input.None? {
      return Error(400, "Invalid input");
    }
    var (did, c) := input.value;
    var user := store.FindByDid(did);
    if user.None? {
      return Error(404, Message(UserNotFound));
    }
    var u := user.value;
    if !NonceLive(u, nowMs) {
      return Error(400, Message(NonceInvalidOrExpired));
    }
    if u.nonce.value != c.claim.subject.nonce {
      return Error(400, Message(NonceMismatch));
    }
    var failure := CheckSignature(p, AsWritten, did, c);
    if failure.Some? {
      return Error(Status(failure.value), Message(failure.value));
    }
    store.ClearNonce(u.id);
    var token := p.jwtSign(Payload(u.did, nowMs), SecretKey(env));
    response := Ok(200, TokenCookie(token, env));
  }
}
