# PeerFlash: DID challenge-response login and flashcard-set routes

PeerFlash is a Next.js application. Users sign in with a decentralised identifier (DID) of the form
`did:key:z<Base64 public key>` and share flashcard sets.

Login is a challenge-response protocol:

1. The login page asks `/api/auth/login` for a nonce. The route stores 32 random bytes, as hex, on the user's record.
   The nonce stays valid for five minutes.
2. The page builds a W3C-style verifiable credential that carries the nonce.
   It signs the JSON serialisation with the Ed25519 secret key kept in the browser.
   Then it posts the signed credential to `/api/auth/verify`.
3. The verify route checks, in this order:
   - the user exists;
   - the nonce is present and unexpired;
   - the nonce matches;
   - the DID yields a key text;
   - the signature verifies under the public key taken from the DID.

   On success it clears the nonce and sets an HS256 session cookie that lasts 24 hours.
4. The middleware guards `/dashboard`, `/api/flashcards` and `/api/flashcard-sets`. It admits a request whose `token`
   cookie verifies, and forwards the DID in the `x-user-did` header.

`/api/auth/signup` registers a DID. The two `pages/api` handlers do the following:

- `/api/flashcards` creates a set, which is uploaded to IPFS and minted as an XRPL token. It also lists sets with filters
  and pagination.
- `/api/reuse` forks an existing set with per-card modifications, and bumps the original's reuse counter.

## How the model is built

Each route is a pure function from the database table and the request to an `Outcome`: the response and the new table.
A method on a store class performs the same update in place, and its `ensures` ties it to that function.

- **Tables.** The user table is the `Users.UserStore` class, a map from DID to record plus the next id. The flashcard
  table is the `SetStore.Store` class.
- **Requests.** Request bodies are JSON values (`Json.Json`).
- **Libraries.** The JavaScript string, JSON, hex, Base64 and UTF-8 operations the routes call are modelled concretely.
  Hex, Base64 and UTF-8 have round-trip lemmas. `JSON.stringify` has none: only its string literals are proved to
  determine their strings (`Json.EscapeInjective`).
- **Cryptography.** tweetnacl's Ed25519 and jose's HS256 tokens are parameters: a `Crypto.Primitives` value of
  functions.
  - The properties the protocol relies on form the predicate `Crypto.Sound`.
  - `Crypto.SoundIsSatisfiable` shows a `Primitives` value that meets it.
- **External inputs.** Clocks, random bytes, IPFS, minting and the flashcard-set queries of the GET listing are
  parameters too. The two tables themselves are concrete classes whose operations never fail.

The module `Protocol` composes the page, the login route, the verify route and the middleware into end-to-end lemmas.

## Model

| member | source | states |
|---|---|---|
| Hex.Encode | app/api/auth/login/route.ts:33 | the nonce text is twice as long as its bytes and only holds `[0-9a-f]` |
| Hex.DecodeEncode | app/api/auth/login/route.ts:33 | hex encoding loses nothing: decoding gives the bytes back |
| Hex.EncodeInjective | app/api/auth/login/route.ts:33 | different random bytes give different nonces |
| Base64.Encode | app/login/page.tsx:69 | `encodeBase64` output has 4 characters per started 3-byte group |
| Base64.Decode | app/api/auth/verify/route.ts:13-20 | strict `decodeBase64` accepts only text whose length is a multiple of 4 |
| Base64.DecodeStrict | app/api/auth/verify/route.ts:13-20 | strict `decodeBase64` accepts text iff its length is a multiple of 4 and it is `StrictText`: alphabet characters, with `=` only in the last two places and a `=` second to last followed by another |
| Base64.LastQuadStrict | app/api/auth/verify/route.ts:13-20 | a last group of four characters is accepted iff it is strict: four alphabet characters, or two and `==`, or three and `=` |
| Base64.StrictTail | app/api/auth/verify/route.ts:13-20 | after a leading group of four alphabet characters, the rest is strict iff the whole text is |
| Base64.DecodeEncode | app/login/page.tsx:59 | decoding the Base64 of any bytes gives those bytes back |
| Base64.EncodeAlphabet | app/login/page.tsx:69 | encoded text holds only alphabet characters and `=` |
| Utf8.DecodeEncode | app/api/auth/verify/route.ts:128-134 | the UTF-8 bytes of a string decode back to it |
| Utf8.EncodeInjective | app/api/auth/verify/route.ts:128-134 | different serialisations give different signed messages |
| Json.EscapeCharHead | app/api/auth/verify/route.ts:128-134 | the escape `JSON.stringify` writes for a character is read back from the head of any text it starts |
| Json.EscapeInjective | app/api/auth/verify/route.ts:128-134 | different strings have different escapes, so a string literal determines its string |
| Json.StringifyFieldsSnoc | app/api/auth/verify/route.ts:128-134 | appending a member appends `,` and that member's serialisation |
| JsString.Split | app/api/auth/verify/route.ts:115 | `split` yields at least one part, no part contains the separator, and `join` restores the text |
| JsString.NatToString | pages/api/reuse.ts:38 | `String(n)` is non-empty decimal digits without a leading zero |
| JsString.ParseIntOfNatToString | pages/api/flashcards.ts:80-81 | `parseInt` reads back any decimal numeral |
| Json.LookupFound | app/api/auth/verify/route.ts:62 | a member is found iff some field has that key, and the value is that field's |
| Json.AsMap | pages/api/reuse.ts:36-39 | an object as a map has exactly the keys present, with the last duplicate's value |
| Crypto.PublicKeyOf | app/login/page.tsx:63 | the public key is the 32-byte tail of the 64-byte secret key |
| Crypto.SoundIsSatisfiable | app/api/auth/verify/route.ts:136-140 | some primitives meet every assumption the protocol lemmas make |
| Credential.Strings | app/api/auth/verify/route.ts:31-32 | a string array renders element for element |
| Credential.ClaimJson | app/api/auth/verify/route.ts:128-134 | the signed claim has exactly the five members `@context`, `type`, `issuer`, `issuanceDate`, `credentialSubject`, in that order |
| Credential.NonceBindsMessage | app/api/auth/verify/route.ts:128-140 | two claims that differ only in their nonce have different signed bytes |
| Credential.SubjectTextEqual | app/api/auth/verify/route.ts:128-134 | equal serialisations of claims with the same first four members give equal serialisations of their subjects |
| Credential.NonceTextEqual | app/api/auth/verify/route.ts:128-134 | equal serialisations of subjects with the same `id` give equal serialisations of their nonces |
| Credential.CredentialJson | app/api/auth/verify/route.ts:30-46 | a credential is its claim's members followed by `proof` |
| Users.Cleared | app/api/auth/verify/route.ts:165-171 | clearing sets both nonce columns to null and keeps every other column |
| Users.ClearById | app/api/auth/verify/route.ts:165-171 | an update by id clears exactly the records with that id |
| Users.UniqueDids | app/api/auth/signup/route.ts:22-31 | in a well-formed table no two records share a DID |
| Users.ClearByIdOfDid | app/api/auth/verify/route.ts:165-171 | clearing by the found user's id touches only that user's record and keeps the table well formed |
| Users.UserStore.constructor | app/api/auth/signup/route.ts:34-40 | the table starts empty |
| Users.UserStore.FindByDid | app/api/auth/login/route.ts:21-23 | `findUnique` by DID finds the record iff it is stored, and it carries that DID |
| Users.UserStore.SetNonce | app/api/auth/login/route.ts:36-42 | the update writes both nonce columns of one record and nothing else |
| Users.UserStore.Create | app/api/auth/signup/route.ts:34-40 | a new record gets the next id and null nonce columns; the table stays well formed |
| Users.UserStore.ClearNonce | app/api/auth/verify/route.ts:165-171 | the update by id is `ClearById` of the old table |
| Session.SecretKey | app/api/auth/verify/route.ts:176 | the key is the UTF-8 of `JWT_SECRET`, or of the default when that is empty |
| Session.Payload | app/api/auth/verify/route.ts:176-179 | the token claims the user's DID and expires 24 hours (86400 s) after it is issued |
| Session.PayloadSecond | app/api/auth/verify/route.ts:178 | the issued-at claim is the second in which the request is handled |
| Session.TokenCookie | app/api/auth/verify/route.ts:189-197 | the cookie is `token`, httpOnly, `lax`, 24 hours, path `/`, and secure exactly in production |
| LoginRoute.ParseLogin | app/api/auth/login/route.ts:9-11 | a DID is read iff `did` is a non-empty string |
| LoginRoute.Login | app/api/auth/login/route.ts:13-59 | 200 with the hex nonce iff the body is readable, valid and names a stored DID; an unreadable body gives 500 "Internal server error", an invalid one 400 "Invalid input data", an unknown DID 404 "User not found", each with the table unchanged; on success only that record's nonce columns change |
| LoginRoute.NonceShape | app/api/auth/login/route.ts:33-40 | an issued nonce is 64 lower-case hex characters, expires 300000 ms later, and every other record is unchanged |
| LoginRoute.LoginKeepsWellFormed | app/api/auth/login/route.ts:36-42 | issuing a nonce keeps the table well formed |
| LoginRoute.OnlyLatestNonce | app/api/auth/login/route.ts:36-42 | a second request overwrites the first nonce, which then no longer matches |
| LoginRoute.Post | app/api/auth/login/route.ts:13-59 | the handler on the store computes `Login` and keeps the table well formed |
| SignupRoute.NonEmptyString | app/api/auth/signup/route.ts:9-11 | a field is read iff it is a non-empty string |
| SignupRoute.ParseSignUp | app/api/auth/signup/route.ts:8-12 | the body is read iff `did`, `name` and `major` are all non-empty strings |
| SignupRoute.SignUpRequest | app/api/auth/signup/route.ts:14-66 | 201 with the new record iff the body is valid and the DID is new; an unreadable body gives 500 "Internal server error", an invalid one 400 "Invalid input data", a taken DID 400 "User with this DID already exists", each with no change |
| SignupRoute.SignUpKeepsWellFormed | app/api/auth/signup/route.ts:22-40 | a sign-up keeps the table well formed |
| SignupRoute.SignUps | app/api/auth/signup/route.ts:14-66 | a run of sign-ups keeps every existing record unchanged under its DID, and the next id rises by at most one per request |
| SignupRoute.SignUpsKeepDidsUnique | app/api/auth/signup/route.ts:22-31 | after any run of sign-ups no two records share a DID |
| SignupRoute.Post | app/api/auth/signup/route.ts:14-66 | the handler on the store computes `SignUpRequest` |
| VerifyRoute.StringMember | app/api/auth/verify/route.ts:28-47 | `z.string()` accepts a member iff it is present and a string |
| VerifyRoute.StringItems | app/api/auth/verify/route.ts:31-32 | `z.array(z.string())` accepts iff every element is a string |
| VerifyRoute.ParseCredentialJson | app/api/auth/verify/route.ts:28-47 | the schema reads back every credential from its JSON |
| VerifyRoute.KeyTextOfDidKey | app/api/auth/verify/route.ts:115 | for `did:key:k` with no `:` or `#` in `k`, the key text is `k` |
| VerifyRoute.MultibaseKeyText | app/api/auth/verify/route.ts:114-115 | the corrected key text is the route's key text with at most a leading `z` removed |
| VerifyRoute.Status | app/api/auth/verify/route.ts:73-162 | a refusal is 404 only for an unknown user, else 400 |
| VerifyRoute.CheckSignature | app/api/auth/verify/route.ts:108-162 | the signature step passes iff the key text is non-empty, both texts decode, the sizes are 64 and 32, and the signature verifies over the claim's bytes; an empty key text is "Invalid DID format", and a well-formed signature that does not verify, and only that, is "Invalid signature" |
| VerifyRoute.Check | app/api/auth/verify/route.ts:67-162 | success iff the user exists, the nonce is live and matches, and the signature step passes; the first failing check decides the error, and once the first three pass the error is the signature step's |
| VerifyRoute.Verify | app/api/auth/verify/route.ts:56-218 | 200 with the session cookie iff the body is readable, valid and every check passes, and then exactly that user's nonce is cleared; an unreadable body gives 500, an invalid one 400 "Invalid input", and a failing check its own status and message; every refusal leaves the table unchanged |
| VerifyRoute.KeyNotBase64 | app/api/auth/verify/route.ts:124 | a non-empty key text that is not valid Base64 ends the signature step with "Invalid base64 string" |
| VerifyRoute.SignatureTextErrors | app/api/auth/verify/route.ts:124-162 | once the key text decodes, a signature that is not Base64, a signature that is not 64 bytes, and a 64-byte signature with a key that is not 32 bytes end the step in the catch with, in that order, the Base64 wrapper's error, tweetnacl's bad-signature-size error and its bad-public-key-size error |
| VerifyRoute.NonceNotLiveRefused | app/api/auth/verify/route.ts:83-94 | a request for a user whose nonce is missing, empty or expired gets 400 "Invalid or expired nonce" and the table is untouched |
| VerifyRoute.ReplayRefused | app/api/auth/verify/route.ts:164-171 | after a success, the same request is refused with "Invalid or expired nonce" |
| VerifyRoute.Post | app/api/auth/verify/route.ts:56-218 | the handler on the store computes `Verify` with the key text as written |
| Middleware.Decide | middleware.ts:13-52 | paths outside the matcher and exempt paths pass; a gated request is never passed through: it is forwarded with `x-user-did` set to the token's DID iff it has a non-empty token that verifies, and otherwise, in particular without a token, redirected to `/login` |
| Middleware.MatchedNeverExempt | middleware.ts:5-21 | no matched path is exempt, so the exemptions never open a gated path |
| Middleware.GatedToken | middleware.ts:23-52 | a gated request with a non-empty token is forwarded with the token's DID exactly when the token verifies, and redirected to `/login` otherwise |
| Middleware.SessionWindow | middleware.ts:23-52 | a token issued at login admits its DID exactly until 24 hours after the issuing second, and is redirected after that |
| LoginPage.UnsignedCredential | app/login/page.tsx:45-54 | the unsigned credential always has five members |
| LoginPage.SignedCredential | app/login/page.tsx:73-82 | signing keeps every member in place and appends `proof` |
| LoginPage.ServerError | app/login/page.tsx:96-99 | the shown error is the server's `error` when truthy, else "Verification failed"; a `null` body shows the `TypeError` of reading its `error` |
| LoginPage.SignIn | app/login/page.tsx:15-111 | an attempt sends at most two requests, the first is the nonce request for the stored DID, and success means the verify request was sent; with a stored DID and key, a nonce reply that is not ok ends with "Failed to get nonce", a `null` nonce body with the destructuring `TypeError`, a key that is not Base64 with "invalid encoding" and a key that is not 64 bytes with "bad secret key size", each after the nonce request only |
| LoginPage.SignInPosts | app/login/page.tsx:41-99 | with a granted nonce in a non-`null` body and a 64-byte key, the page sends the nonce request and then the signed credential, and shows the verifier's error exactly when its reply is not ok |
| LoginPage.ServerErrorShown | app/login/page.tsx:96-98 | a non-empty `error` string in the verifier's reply is the message shown |
| LoginPage.NoStoredDidSendsNothing | app/login/page.tsx:24-26 | without a stored DID and key, the attempt fails before any request |
| LoginPage.Page.constructor | app/login/page.tsx:11-12 | no error and not loading at first |
| LoginPage.Page.HandleLogin | app/login/page.tsx:15-111 | the button computes `SignIn`, clears the loading flag on every path, and navigates to the dashboard iff no error |
| Protocol.ClaimIsUnsignedCredential | app/api/auth/verify/route.ts:128-134 | the claim the verifier re-serialises is the page's unsigned credential, member for member |
| Protocol.SchemaReadsClientRequest | app/api/auth/verify/route.ts:28-47 | the verifier's schema accepts the page's request and reads its DID and credential |
| Protocol.ClientServerAgree | app/login/page.tsx:67 | the bytes the verifier checks are the bytes the page signed |
| Protocol.KeyTextOfDidForKey | app/api/auth/verify/route.ts:115 | for `did:key:z` + Base64(pk), the route's key text keeps the `z`, and the corrected one is exactly Base64(pk) |
| Protocol.SignatureAcceptedWithoutPrefix | app/api/auth/verify/route.ts:124-152 | with the corrected key text, the signature step accepts the page's signature |
| Protocol.KeyPrefixBreaksDecoding | app/api/auth/verify/route.ts:115-124 | as written, the key text of an honest DID is 45 characters long and its decoding fails with "Invalid base64 string" |
| Protocol.NonceIssued | app/api/auth/login/route.ts:13-44 | the page's nonce request for a registered DID returns a nonce that is live for five minutes |
| Protocol.ExpiredNonceRefused | app/api/auth/verify/route.ts:84-94 | more than five minutes after issue, any request is refused with "Invalid or expired nonce" |
| Protocol.RequestAccepted | app/api/auth/verify/route.ts:164-200 | a request that passes every check gets the cookie, and exactly the user's nonce is cleared |
| Protocol.RequestRefusedAtSignature | app/api/auth/verify/route.ts:153-162 | a request that fails only the signature step is refused with the table unchanged |
| Protocol.SignedRequestRead | app/login/page.tsx:87-94 | the verifier reads the page's signed request with the nonce it received |
| Protocol.HonestLoginAccepted | app/api/auth/verify/route.ts:56-200 | corrected: an honest login gets the session cookie, and only its nonce is cleared |
| Protocol.RefusedForKey | app/api/auth/verify/route.ts:115-162 | as written, a login with any 64-byte secret key is refused with 400 "Error verifying signature" |
| Protocol.HonestLoginRejectedAsWritten | app/api/auth/verify/route.ts:115-162 | as written, an honest login is refused with 400 "Error verifying signature" and the nonce stays |
| Protocol.PageSendsSignedRequest | app/login/page.tsx:15-111 | against the routes, the page sends the nonce request and then the protocol's signed request |
| Protocol.PageShowsSignatureError | app/login/page.tsx:96-99 | as written, the user with the right key sees "Error verifying signature" |
| Protocol.PageSignsIn | app/login/page.tsx:101-104 | with the corrected key text, the same user signs in without an error |
| SetStore.StoredCard | pages/api/flashcards.ts:51-56 | a stored card keeps exactly the question, answer, explanation and imageUrl members present |
| SetStore.Store.constructor | pages/api/flashcards.ts:40-62 | the set table starts empty |
| SetStore.Store.Find | pages/api/reuse.ts:25-28 | `findUnique` by id finds the set iff it is stored |
| SetStore.Store.Insert | pages/api/flashcards.ts:40-62 | `create` adds one set under a fresh id and changes nothing else |
| SetStore.Store.IncrementReuse | pages/api/reuse.ts:80-86 | the update adds one to one set's reuse count and changes nothing else |
| Reuse.Element | pages/api/reuse.ts:38 | `modifications[index]` is an array's element or the member named by the index's numeral |
| Reuse.Merge | pages/api/reuse.ts:35-40 | every card is kept, and each is the original spread over its modification, which wins; nothing changes when `modifications` is falsy |
| Reuse.MergeWithArray | pages/api/reuse.ts:35-40 | an array of objects patches card `i` with element `i`; cards past the array's end are unchanged |
| Reuse.Fork | pages/api/reuse.ts:54-77 | the fork is titled "<title> (Adapted)", copies subject, tags, difficulty and description, has the original token as parent and the new token as its own, and holds the merged cards' card columns |
| Reuse.ReuseRequest | pages/api/reuse.ts:12-102 | 405 for non-POST, 400 for missing fields and 404 for an unknown original; for a known original it succeeds iff the upload of the merged cards and the mint both succeed, and then the fork of the original with the merged cards, the uploaded URI and the minted token is stored under the fresh id and the original's counter goes up by one; every refusal leaves the table unchanged |
| Reuse.TwoReuses | pages/api/reuse.ts:80-86 | two successful reuses of one set raise its reuse count by two |
| Reuse.Handle | pages/api/reuse.ts:8-103 | the handler on the store computes `ReuseRequest` |
| FlashcardsApi.CardOf | pages/api/flashcards.ts:51-56 | an object entry becomes its card columns, and only `null` cannot be read |
| FlashcardsApi.CardsOf | pages/api/flashcards.ts:51 | mapping succeeds iff `flashcards` is an array without `null`, card for card |
| FlashcardsApi.CreateRequest | pages/api/flashcards.ts:12-68 | a `null` body gives 500 and a missing required field 400; with all six fields it succeeds iff the upload, the mint and the card mapping succeed, and every other outcome is 500; on success the set is stored under the fresh id with every column taken from the body, the upload's URI and the minted token, no parent and no reuses; every refusal leaves the table unchanged |
| FlashcardsApi.DefaultPage | pages/api/flashcards.ts:76-81 | without `page` and `limit`, ten sets are taken from the start |
| FlashcardsApi.ParseDefaultPage | pages/api/flashcards.ts:76 | the default page text `'1'` parses to 1 |
| FlashcardsApi.ParseDefaultLimit | pages/api/flashcards.ts:77 | the default limit text `'10'` parses to 10 |
| FlashcardsApi.SkipOf | pages/api/flashcards.ts:80 | when page and limit parse, `skip` is `(page - 1) * take` |
| FlashcardsApi.PageOffset | pages/api/flashcards.ts:80-81 | page `n` of size `l` skips `(n - 1) * l` sets |
| FlashcardsApi.Where | pages/api/flashcards.ts:83-87 | the filter holds a key iff its query parameter is truthy, and only the four filter keys; tags become the comma-separated list, which joins back to the parameter |
| FlashcardsApi.BuildWhere | pages/api/flashcards.ts:83-87 | the object built one conditional assignment at a time is `Where` |
| FlashcardsApi.TotalPages | pages/api/flashcards.ts:108 | for a positive page size, the page count is the least number of pages that holds every set; 0 sets give 0 pages |
| FlashcardsApi.ListRequest | pages/api/flashcards.ts:69-113 | 200 iff skip and take are numbers and both database calls succeed; the listing is what `find` returns for `Where`, skip and take, its total is what `count` returns for the same filter, with the parsed page and the page count of that total; every failure is 500 "Failed to fetch flashcard sets" |
| FlashcardsApi.Handle | pages/api/flashcards.ts:8-117 | POST answers `CreateRequest` and leaves its table on the store; GET answers `ListRequest` and writes nothing; any other method gets 405 "Method not allowed" and writes nothing |

## Left out

- Ed25519 and HS256 are parameters (`Crypto.Primitives`). The model assumes only `Crypto.Sound`: correctness of
  signing and token verification. Unforgeability is not stated.
- Two concurrent verifications of the same nonce both read the user before either clears it, so both can succeed. The
  model runs requests one at a time.
- Prisma, IPFS and XRPL are out of scope. The listing's `findMany` and `count`, uploads and mints are parameters, with
  `None` where the call throws. The user table (`Users.UserStore`) and the set table (`SetStore.Store`) are concrete and
  never throw.
- LoginRoute.Login: a database error in the lookup or the nonce update, which login/route.ts:53-57 answers with 500,
  is not modelled.
- SignupRoute.SignUpRequest: a database error in the lookup or the create, which signup/route.ts:62-65 answers with
  500, is not modelled.
- VerifyRoute.Verify: a database error, which verify/route.ts:213-216 answers with 500, is not modelled. In particular,
  if the nonce-clear update at verify/route.ts:164-171 throws after every check has passed, the route answers 500 and
  the nonce stays usable. The model has no such path.
- LoginPage.SignIn: a rejected `fetch` and a reply body that is not JSON are not modelled. Such a body makes `.json()`
  throw a `SyntaxError` at page.tsx:41 or :97. Every `Reply` carries a JSON value.
- Session.Payload: the model reads the clock once per request. jose's `setIssuedAt()` and `setExpirationTime('24h')`
  (verify/route.ts:179-180) each read the clock. When a second boundary falls between the two readings, `exp - iat` is
  86401, not the 86400 the model promises.
- The Prisma schema is not part of this model. Columns that come from a request are kept as JSON values with no column
  type checks, and set ids are strings chosen by the caller (`freshId`).
- The `createdAt` order of `findMany` is not modelled, because it belongs to the `find` parameter.
- `trustScore` is a float incremented by 0.1, so the model leaves it out.
- JSON numbers are integers. Strings are sequences of Unicode scalar values, so UTF-16 surrogate code units are not
  modelled.
- Logging (`log`, `console`) is left out.
- React rendering is left out, and so is everything outside the core files.
- VerifyRoute.Verify: error responses carry the `error` text but not the `details` member that some refusals add.
- VerifyRoute.Post: computes the route as written, which keeps the multibase `z` in the key text. The corrected rule
  (`StripMultibase`) is proved about separately.
- Middleware.Decide: the matcher is modelled as prefix matching on path segments. Next.js route-pattern corner cases
  such as empty segments and encoded characters are not modelled.
- LoginPage.SignIn: the `TypeError` text shown for a `null` reply body is V8's wording. Other engines word it
  differently.
- Middleware.SessionWindow: jose's clock tolerance is taken to be zero. Token times are whole seconds.
- FlashcardsApi.ListRequest: query parameters given several times (arrays) are not modelled. Each parameter is one string or
  absent.
- FlashcardsApi.CreateRequest: side effects of the upload and the mint before a later failure are not modelled, and
  neither is a non-array `flashcards` or a `null` card failing only after them.
- Reuse.ReuseRequest: a body that cannot be destructured (`null`) gives 500. `reuseCount` of a new set starts at 0,
  which is the database default that this model assumes.

## Findings

| source | as written | input that shows it | evidently intended | confidence | as-written member | corrected member |
|---|---|---|---|---|---|---|
| app/api/auth/verify/route.ts:115 | the key text is the last `:`-segment of the DID up to `#`, which keeps the multibase prefix `z` | a DID `did:key:z` + Base64 of a 32-byte public key: the key text is 45 characters long, not a multiple of 4, so tweetnacl-util's strict `decodeBase64` throws and every honest login gets 400 "Error verifying signature" | drop the leading `z` before decoding, as the comment on line 114 describes the format | high (not executed) | Protocol.HonestLoginRejectedAsWritten | Protocol.HonestLoginAccepted |
