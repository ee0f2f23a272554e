/**
 * The cryptographic primitives the login protocol calls: tweetnacl's Ed25519 detached
 * signatures and jose's HS256 session tokens. They are not modelled bit by bit; a
 * `Primitives` value supplies them as functions, and `Sound` states the properties the
 * protocol relies on. Lemmas that need those properties require `Sound(p)`.
 */
module Crypto {
  import opened Wrappers
  import opened Bytes
  import JsString

  /** The claims of a session token: the user's DID, issued-at and expiry, in seconds since the epoch. */
  datatype JwtPayload = JwtPayload(did: string, iat: int, exp: int)

  datatype Primitives = Primitives(
    /** `nacl.sign.keyPair.fromSeed(seed).secretKey`: the seed followed by its public key. */
    keyFromSeed: Bytes -> Bytes,
    /** `nacl.sign.detached(message, secretKey)`. */
    sign: (Bytes, Bytes) -> Bytes,
    /** The check `nacl.sign.detached.verify(message, signature, publicKey)` makes once sizes are right. */
    verify: (Bytes, Bytes, Bytes) -> bool,
    /** `new SignJWT(payload).setProtectedHeader({ alg: 'HS256' }).sign(secret)`. */
    jwtSign: (JwtPayload, Bytes) -> string,
    /** `jwtVerify(token, secret)` at a time in seconds: the payload, or `None` where jose throws. */
    jwtVerify: (string, Bytes, int) -> Option<JwtPayload>
  )

  /** Signature size and public-key size tweetnacl checks before verifying. */
  const SignatureBytes := 64
  const PublicKeyBytes := 32
  const SecretKeyBytes := 64
  const SeedBytes := 32

  /** `nacl.sign.keyPair.fromSecretKey(sk).publicKey`: the last 32 bytes of the secret key. */
  function PublicKeyOf(sk: Bytes): (pk: Bytes)
    requires |sk| == SecretKeyBytes
    ensures |pk| == PublicKeyBytes && sk == sk[..SeedBytes] + pk
  {
    sk[SeedBytes..]
  }

  /**
   * What the protocol assumes of the primitives: a secret key made from a seed is 64 bytes,
   * and a signature made with it is 64 bytes and verifies under its public key; a token is
   * never empty, and verifies under the secret it was signed with, with its own payload,
   * exactly while it has not expired.
   */
  ghost predicate Sound(p: Primitives)
  {
    && (forall seed | |seed| == SeedBytes :: |p.keyFromSeed(seed)| == SecretKeyBytes)
    && (forall seed, m | |seed| == SeedBytes ::
          |p.keyFromSeed(seed)| == SecretKeyBytes
          && |p.sign(m, p.keyFromSeed(seed))| == SignatureBytes
          && p.verify(m, p.sign(m, p.keyFromSeed(seed)), PublicKeyOf(p.keyFromSeed(seed))))
    && (forall payload, secret :: p.jwtSign(payload, secret) != "")
    && (forall payload, secret, now ::
          p.jwtVerify(p.jwtSign(payload, secret), secret, now)
          == if now < payload.exp then Some(payload) else None)
  }

  /** A string that carries a payload: issued-at and expiry in decimal, then the DID, separated by `:`. */
  function TokenText(payload: JwtPayload): string
  {
    JsString.IntToString(payload.iat) + ":" + JsString.IntToString(payload.exp) + ":" + payload.did
  }

  lemma NatToStringInjective(n: nat, m: nat)
    requires JsString.NatToString(n) == JsString.NatToString(m)
    ensures n == m
  {
    JsString.DecimalDigitsValue(n);
    JsString.DecimalDigitsValue(m);
  }

  lemma IntToStringInjective(i: int, j: int)
    requires JsString.IntToString(i) == JsString.IntToString(j)
    ensures i == j
  {
    var a, b := JsString.IntToString(i), JsString.IntToString(j);
    if i < 0 && j < 0 {
      assert a[1..] == JsString.NatToString(-i) && b[1..] == JsString.NatToString(-j);
      NatToStringInjective(-i, -j);
    } else if i >= 0 && j >= 0 {
      NatToStringInjective(i, j);
    } else if i < 0 {
      SignDiffers(i, j);
    } else {
      SignDiffers(j, i);
    }
  }

  /** A negative number's text starts with `-`, a non-negative one's with a digit. */
  lemma SignDiffers(i: int, j: int)
    requires i < 0 <= j
    ensures JsString.IntToString(i) != JsString.IntToString(j)
  {
    assert JsString.IntToString(i)[0] == '-';
  }

  /** The first separator sits right after the text that does not contain it. */
  lemma SeparatorAt(a1: string, r1: string, a2: string, r2: string)
    requires |a1| < |a2| && ':' !in a2
    ensures a1 + ":" + r1 != a2 + ":" + r2
  {
    assert (a1 + ":" + r1)[|a1|] == ':';
    assert (a2 + ":" + r2)[|a1|] == a2[|a1|];
  }

  /** Text before a separator it does not contain is fixed by the whole. */
  lemma SeparatedInjective(a1: string, r1: string, a2: string, r2: string)
    requires ':' !in a1 && ':' !in a2 && a1 + ":" + r1 == a2 + ":" + r2
    ensures a1 == a2 && r1 == r2
  {
    if |a1| < |a2| {
      SeparatorAt(a1, r1, a2, r2);
    } else if |a2| < |a1| {
      SeparatorAt(a2, r2, a1, r1);
    } else {
      var s := a1 + ":" + r1;
      assert a1 == s[..|a1|] == a2;
      assert r1 == s[|a1| + 1..] == r2;
    }
  }

  lemma NoSeparatorInInt(i: int)
    ensures ':' !in JsString.IntToString(i)
  {
    var s := JsString.IntToString(i);
    forall k | 0 <= k < |s|
      ensures s[k] != ':'
    {
      if i < 0 && k > 0 {
        assert s[k] == JsString.NatToString(-i)[k - 1];
      }
    }
  }

  /** Different payloads give different token texts. */
  lemma TokenTextInjective(x: JwtPayload, y: JwtPayload)
    requires TokenText(x) == TokenText(y)
    ensures x == y
  {
    NoSeparatorInInt(x.iat);
    NoSeparatorInInt(y.iat);
    NoSeparatorInInt(x.exp);
    NoSeparatorInInt(y.exp);
    var ix, ex := JsString.IntToString(x.iat), JsString.IntToString(x.exp);
    var iy, ey := JsString.IntToString(y.iat), JsString.IntToString(y.exp);
    assert TokenText(x) == ix + ":" + (ex + ":" + x.did);
    assert TokenText(y) == iy + ":" + (ey + ":" + y.did);
    SeparatedInjective(ix, ex + ":" + x.did, iy, ey + ":" + y.did);
    SeparatedInjective(ex, x.did, ey, y.did);
    IntToStringInjective(x.iat, y.iat);
    IntToStringInjective(x.exp, y.exp);
  }

  /** Reads a payload back from a token text, and keeps it while it has not expired. */
  ghost function TokenPayload(token: string, now: int): Option<JwtPayload>
  {
    if exists payload :: TokenText(payload) == token then
      var payload :| TokenText(payload) == token;
      if now < payload.exp then Some(payload) else None
    else None
  }

  /** A token text reads back as its own payload until it expires. */
  lemma TokenPayloadOfText(payload: JwtPayload, now: int)
    ensures TokenPayload(TokenText(payload), now) == if now < payload.exp then Some(payload) else None
  {
    forall other | TokenText(other) == TokenText(payload)
      ensures other == payload
    {
      TokenTextInjective(other, payload);
    }
  }

  /**
   * Primitives that sign nothing securely but meet every property `Sound` asks for: the
   * secret key repeats its seed, every signature is 64 zero bytes and is accepted, and a
   * token is its payload written out.
   */
  ghost function Plain(): Primitives
  {
    Primitives(
      seed => seed + seed,
      (m, sk) => seq(SignatureBytes, i => 0),
      (m, sig, pk) => true,
      (payload, secret) => TokenText(payload),
      (token, secret, now) => TokenPayload(token, now))
  }

  /** The hypothesis the protocol lemmas make of the primitives can be met. */
  lemma {:induction false} SoundIsSatisfiable()
    ensures Sound(Plain())
  {
    var p := Plain();
    forall payload: JwtPayload, secret: Bytes, now: int
      ensures p.jwtVerify(p.jwtSign(payload, secret), secret, now)
        == if now < payload.exp then Some(payload) else None
    {
      TokenPayloadOfText(payload, now);
    }
    forall payload: JwtPayload, secret: Bytes
      ensures p.jwtSign(payload, secret) != ""
    {
      assert TokenText(payload)[|JsString.IntToString(payload.iat)|] == ':';
    }
  }
}
