/**
 * The session gate (middleware.ts): for the paths its matcher selects, a request without a
 * valid `token` cookie is redirected to the login page, and one with a valid token goes on
 * with the token's DID in the `x-user-did` request header.
 */
module Middleware {
  import opened Wrappers
  import opened Crypto
  import opened Session
  import JsString

  /** The matcher's bases; `/base/:path*` selects `/base` and everything below it. */
  const GatedBases := ["/dashboard", "/api/flashcards", "/api/flashcard-sets"]

  predicate Under(path: string, base: string)
  {
    path == base || JsString.StartsWith(path, base + "/")
  }

  /** `config.matcher`: the paths the middleware runs on. */
  predicate Matched(path: string)
  {
    exists i :: 0 <= i < |GatedBases| && Under(path, GatedBases[i])
  }

  /** The public routes the middleware lets through without looking at the cookie. */
  predicate Exempt(path: string)
  {
    JsString.StartsWith(path, "/api/auth") || path == "/login" || path == "/signup"
  }

  const HeaderName := "x-user-did"
  const LoginPath := "/login"

  /** What happens to a request. */
  datatype Decision =
    | Next                                  // goes on unchanged
    | Redirect(location: string)            // answered with a redirect
    | Forward(headers: map<string, string>) // goes on with these request headers

  /**
   * The gate for a request with the given headers and `token` cookie at `nowSec`. Paths the
   * matcher does not select never reach the middleware and go on unchanged.
   */
  function Decide(p: Primitives, env: Env, path: string, headers: map<string, string>,
                  token: Option<string>, nowSec: int): (d: Decision)
    ensures !Matched(path) || Exempt(path) ==> d == Next
    ensures d.Forward? ==>
      && token.Some?
      && p.jwtVerify(token.value, SecretKey(env), nowSec).Some?
      && d.headers == headers[HeaderName := p.jwtVerify(token.value, SecretKey(env), nowSec).value.did]
    ensures d.Redirect? ==> d.location == LoginPath
    ensures Matched(path) && !Exempt(path) ==>
      (d.Forward? <==> token.Some? && token.value != "" && p.jwtVerify(token.value, SecretKey(env), nowSec).Some?)
    ensures Matched(path) && !Exempt(path) ==> d.Forward? || d == Redirect(LoginPath)
    ensures Matched(path) && !Exempt(path) && (token.None? || token.value == "") ==> d == Redirect(LoginPath)
  {
    if !Matched(path) || Exempt(path) then Next
    else if token.None? || token.value == "" then Redirect(LoginPath)
    else match p.jwtVerify(token.value, SecretKey(env), nowSec)
      case None => Redirect(LoginPath)
      case Some(payload) => Forward(headers[HeaderName := payload.did])
  }

  /** The exemption never applies to a path the matcher selects: every gated request is checked. */
  lemma {:induction false} MatchedNeverExempt(path: string)
    requires Matched(path)
    ensures !Exempt(path)
  {
    var i :| 0 <= i < |GatedBases| && Under(path, GatedBases[i]);
    if i == 0 {
      assert path[1] == 'd';
    } else {
      assert path[5] == 'f';
    }
  }

  /**
   * A session token issued at `issuedMs` for `did` lets a gated request through, carrying
   * `did`, until 24 hours after its issuing second; from then on the request is redirected.
   */
  lemma SessionWindow(p: Primitives, env: Env, path: string, headers: map<string, string>,
                      did: string, issuedMs: nat, nowSec: int)
    requires Sound(p) && Matched(path)
    ensures var token := p.jwtSign(Payload(did, issuedMs), SecretKey(env));
      var d := Decide(p, env, path, headers, Some(token), nowSec);
      if nowSec < issuedMs / 1000 + SessionSeconds then d == Forward(headers[HeaderName := did])
      else d == Redirect(LoginPath)
  {
    var key := SecretKey(env);
    var payload := Payload(did, issuedMs);
    var token := p.jwtSign(payload, key);
    assert token != "";
    var verified := p.jwtVerify(token, key, nowSec);
    assert verified == if nowSec < payload.exp then Some(payload) else None;
    GatedToken(p, env, path, headers, token, nowSec);
  }

  /** A gated request with a non-empty token goes on exactly when the token verifies. */
  lemma GatedToken(p: Primitives, env: Env, path: string, headers: map<string, string>,
                   token: string, nowSec: int)
    requires Matched(path) && token != ""
    ensures var verified := p.jwtVerify(token, SecretKey(env), nowSec);
      Decide(p, env, path, headers, Some(token), nowSec)
      == if verified.Some? then Forward(headers[HeaderName := verified.value.did]) else Redirect(LoginPath)
  {
    MatchedNeverExempt(path);
  }
}
