/**
 * The sign-in button of the login page (app/login/page.tsx, `handleLogin`): asks the server
 * for a nonce, signs a credential carrying it with the stored private key, and sends the
 * signed credential to the verifier. The server's answers are parameters: `loginServer` and
 * `verifyServer` give the reply to each request body.
 */
module LoginPage {
  import opened Wrappers
  import opened Bytes
  import opened Json
  import opened Crypto
  import opened Credential
  import Base64
  import Utf8

  /** What the browser's storage holds for the current user; an absent item is the empty string. */
  datatype StoredDid = StoredDid(did: string, privateKey: string)

  /** A `fetch` reply: whether its status is 2xx, and its parsed JSON body. */
  datatype Reply = Reply(ok: bool, body: Json)

  datatype Request = Request(path: string, body: Json)

  const LoginPath := "/api/auth/login"
  const VerifyPath := "/api/auth/verify"
  const DashboardPath := "/dashboard"
  const NoDidMessage := "No DID or private key found. Please sign up first."
  const NonceFailedMessage := "Failed to get nonce"
  const VerificationFailedMessage := "Verification failed"
  /** What tweetnacl-util and tweetnacl throw for a private key that is not Base64 or not 64 bytes. */
  const InvalidEncodingMessage := "invalid encoding"
  const BadSecretKeySizeMessage := "bad secret key size"
  /**
   * The `TypeError`s a `null` reply body raises: destructuring `{ nonce }` from it, and reading
   * its `error`. The wording is the V8 engine's; other engines word them differently.
   */
  const NullNonceMessage := "Cannot destructure property 'nonce' of '(intermediate value)' as it is null."
  const NullErrorMessage := "Cannot read properties of null (reading 'error')"

  /** The body of the nonce request: `{ did }`. */
  function NonceRequest(did: string): Json
  {
    JObj([Field("did", JStr(did))])
  }

  /**
   * The credential literal before signing, as `JSON.stringify` sees it: a `nonce` that the
   * server's reply lacks is `undefined` and so leaves no member behind.
   */
  function UnsignedCredential(did: string, nonce: Option<Json>, issuedAt: string): (j: Json)
    ensures j.JObj? && |j.fields| == 5
  {
    var subject := [Field("id", JStr(did))] + (if nonce.Some? then [Field("nonce", nonce.value)] else []);
    JObj([
      Field("@context", JArr([JStr(CredentialsContext)])),
      Field("type", JArr([JStr(VerifiableCredentialType)])),
      Field("issuer", JStr(did)),
      Field("issuanceDate", JStr(issuedAt)),
      Field("credentialSubject", JObj(subject))])
  }

  /** The `proof` block appended after signing. */
  function ProofBlock(did: string, created: string, signature: Bytes): Json
  {
    JObj([
      Field("type", JStr(ProofType)),
      Field("created", JStr(created)),
      Field("verificationMethod", JStr(did + "#keys-1")),
      Field("proofPurpose", JStr(ProofPurpose)),
      Field("signature", JStr(Base64.Encode(signature)))])
  }

  /** `{ ...credential, proof }`: every unsigned member unchanged and in place, then `proof`. */
  function SignedCredential(unsigned: Json, proof: Json): (j: Json)
    requires unsigned.JObj?
    ensures j.JObj? && |j.fields| == |unsigned.fields| + 1
    ensures j.fields[..|unsigned.fields|] == unsigned.fields
    ensures j.fields[|unsigned.fields|] == Field("proof", proof)
  {
    JObj(unsigned.fields + [Field("proof", proof)])
  }

  /** The body of the verification request: `{ did, credential }`. */
  function VerifyRequest(did: string, credential: Json): Json
  {
    JObj([Field("did", JStr(did)), Field("credential", credential)])
  }

  /** The message the client signs: the UTF-8 bytes of the unsigned credential's serialisation. */
  function SignedMessage(unsigned: Json): Bytes
  {
    Utf8.Encode(Stringify(unsigned))
  }

  /**
   * `new Error(errorData.error || 'Verification failed').message`; a `null` body throws while
   * reading `error`, and that message is shown instead.
   */
  function ServerError(body: Json): (m: string)
    ensures body.JNull? ==> m == NullErrorMessage
    ensures !body.JNull? && Truthy(Member(body, "error")) ==> m == ToJsString(Member(body, "error").value)
    ensures !body.JNull? && !Truthy(Member(body, "error")) ==> m == VerificationFailedMessage
  {
    if body.JNull? then NullErrorMessage
    else
      var e := Member(body, "error");
      if Truthy(e) then ToJsString(e.value) else VerificationFailedMessage
  }

  /** A non-empty `error` string in the reply is the message shown. */
  lemma ServerErrorShown(message: string)
    requires message != ""
    ensures ServerError(JObj([Field("error", JStr(message))])) == message
  {
    assert Member(JObj([Field("error", JStr(message))]), "error") == Some(JStr(message));
  }

  /** The result of one sign-in attempt: the error shown (`None` on success) and the requests sent. */
  datatype Attempt = Attempt(error: Option<string>, sent: seq<Request>)

  /**
   * One sign-in attempt. `issuedAt` and `created` are the two `new Date().toISOString()`
   * readings; `p` supplies `nacl.sign.detached`.
   */
  function SignIn(stored: Option<StoredDid>, loginServer: Json -> Reply, verifyServer: Json -> Reply,
                  p: Primitives, issuedAt: string, created: string): (a: Attempt)
    ensures |a.sent| <= 2
    ensures a.error.None? ==> |a.sent| == 2 && a.sent[1].path == VerifyPath
    ensures |a.sent| >= 1 ==> stored.Some? && a.sent[0] == Request(LoginPath, NonceRequest(stored.value.did))
    ensures stored.Some? && stored.value.did != "" && stored.value.privateKey != "" ==>
      var first := [Request(LoginPath, NonceRequest(stored.value.did))];
      var reply := loginServer(NonceRequest(stored.value.did));
      var secretKey := Base64.Decode(stored.value.privateKey);
      && (!reply.ok ==> a == Attempt(Some(NonceFailedMessage), first))
      && (reply.ok && reply.body.JNull? ==> a == Attempt(Some(NullNonceMessage), first))
      && (reply.ok && !reply.body.JNull? && secretKey.None? ==> a == Attempt(Some(InvalidEncodingMessage), first))
      && (reply.ok && !reply.body.JNull? && secretKey.Some? && |secretKey.value| != SecretKeyBytes ==>
            a == Attempt(Some(BadSecretKeySizeMessage), first))
  {
    if stored.None? || stored.value.did == "" || stored.value.privateKey == "" then
      Attempt(Some(NoDidMessage), [])
    else
      var did := stored.value.did;
      var nonceRequest := Request(LoginPath, NonceRequest(did));
      var nonceReply := loginServer(nonceRequest.body);
      if !nonceReply.ok then Attempt(Some(NonceFailedMessage), [nonceRequest])
      else if nonceReply.body.JNull? then Attempt(Some(NullNonceMessage), [nonceRequest])
      else
        var unsigned := UnsignedCredential(did, Member(nonceReply.body, "nonce"), issuedAt);
        match Base64.Decode(stored.value.privateKey)
        case None => Attempt(Some(InvalidEncodingMessage), [nonceRequest])
        case Some(secretKey) =>
          if |secretKey| != SecretKeyBytes then Attempt(Some(BadSecretKeySizeMessage), [nonceRequest])
          else
            var signature := p.sign(SignedMessage(unsigned), secretKey);
            var signed := SignedCredential(unsigned, ProofBlock(did, created, signature));
            var verifyRequest := Request(VerifyPath, VerifyRequest(did, signed));
            var verifyReply := verifyServer(verifyRequest.body);
            if !verifyReply.ok then Attempt(Some(ServerError(verifyReply.body)), [nonceRequest, verifyRequest])
            else Attempt(None, [nonceRequest, verifyRequest])
  }

  /**
   * With a stored DID and private key, a granted nonce in a non-`null` body and a key that decodes to 64 bytes, the
   * page posts the signed credential to the verifier and shows the verifier's error, if any.
   */
  lemma SignInPosts(stored: StoredDid, loginServer: Json -> Reply, verifyServer: Json -> Reply,
                    p: Primitives, issuedAt: string, created: string, secretKey: Bytes)
    requires stored.did != "" && stored.privateKey != ""
    requires loginServer(NonceRequest(stored.did)).ok && !loginServer(NonceRequest(stored.did)).body.JNull?
    requires Base64.Decode(stored.privateKey) == Some(secretKey) && |secretKey| == SecretKeyBytes
    ensures var unsigned := UnsignedCredential(stored.did, Member(loginServer(NonceRequest(stored.did)).body, "nonce"),
                                               issuedAt);
      var signature := p.sign(SignedMessage(unsigned), secretKey);
      var body := VerifyRequest(stored.did, SignedCredential(unsigned, ProofBlock(stored.did, created, signature)));
      var reply := verifyServer(body);
      SignIn(Some(stored), loginServer, verifyServer, p, issuedAt, created)
      == Attempt(if reply.ok then None else Some(ServerError(reply.body)),
                 [Request(LoginPath, NonceRequest(stored.did)), Request(VerifyPath, body)])
  {
  }

  /** Without a stored DID and private key the attempt fails before any request is sent. */
  lemma NoStoredDidSendsNothing(stored: Option<StoredDid>, loginServer: Json -> Reply, verifyServer: Json -> Reply,
                                p: Primitives, issuedAt: string, created: string)
    requires stored.None? || stored.value.did == "" || stored.value.privateKey == ""
    ensures SignIn(stored, loginServer, verifyServer, p, issuedAt, created) == Attempt(Some(NoDidMessage), [])
  {
  }

  /** The page state that `handleLogin` updates. */
  class Page {
    var error: Option<string>
    var isLoading: bool
    var location: string

    constructor (location: string)
      ensures error.None? && !isLoading && this.location == location
    {
      error := None;
      isLoading := false;
      this.location := location;
    }

    /**
     * `handleLogin`: shows the attempt's error, or navigates to the dashboard on success;
     * the loading flag is cleared on every path.
     */
    method HandleLogin(stored: Option<StoredDid>, loginServer: Json -> Reply, verifyServer: Json -> Reply,
                       p: Primitives, issuedAt: string, created: string) returns (sent: seq<Request>)
      modifies this
      ensures !isLoading
      ensures Attempt(error, sent) == SignIn(stored, loginServer, verifyServer, p, issuedAt, created)
      ensures location == if error.None? then DashboardPath else old(location)
    {
      isLoading := true;
      error := None;
      sent := [];
      if stored.None? || stored.value.did == "" || stored.value.privateKey == "" {
        error := Some(NoDidMessage);
      } else {
        var did := stored.value.did;
        var nonceRequest := Request(LoginPath, NonceRequest(did));
        var nonceReply := loginServer(nonceRequest.body);
        sent := [nonceRequest];
        if !nonceReply.ok {
          error := Some(NonceFailedMessage);
        } else if nonceReply.body.JNull? {
          error := Some(NullNonceMessage);
        } else {
          var unsigned := UnsignedCredential(did, Member(nonceReply.body, "nonce"), issuedAt);
          var secretKey := Base64.Decode(stored.value.privateKey);
          if secretKey.None? {
            error := Some(InvalidEncodingMessage);
          } else if |secretKey.value| != SecretKeyBytes {
            error := Some(BadSecretKeySizeMessage);
          } else {
            var signature := p.sign(SignedMessage(unsigned), secretKey.value);
            var signed := SignedCredential(unsigned, ProofBlock(did, created, signature));
            var verifyRequest := Request(VerifyPath, VerifyRequest(did, signed));
            var verifyReply := verifyServer(verifyRequest.body);
            sent := sent + [verifyRequest];
            if !verifyReply.ok {
              error := Some(ServerError(verifyReply.body));
            } else {
              location := DashboardPath;
            }
          }
        }
      }
      isLoading := false;
    }
  }
}
