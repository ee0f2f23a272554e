/**
 * `POST /api/reuse` (pages/api/reuse.ts): forks a flashcard set. The new set gets the
 * original's cards, each overridden by the matching entry of `modifications`, a title marked
 * " (Adapted)" and the original's token as its parent; the original's reuse counter goes up
 * by one. IPFS upload and token minting are parameters (`None` where they throw).
 */
module Reuse {
  import opened Wrappers
  import opened Json
  import opened Http
  import opened SetStore
  import JsString

  /** `m[index]` for a JSON value `m`: an array element, an object member, a character, or undefined. */
  function Element(m: Json, index: nat): (e: Option<Json>)
    ensures m.JArr? ==> e == if index < |m.items| then Some(m.items[index]) else None
    ensures m.JObj? ==> e == Lookup(m.fields, JsString.NatToString(index))
  {
    match m
    case JArr(items) => if index < |items| then Some(items[index]) else None
    case JObj(fields) => Lookup(fields, JsString.NatToString(index))
    case JStr(s) => if index < |s| then Some(JStr([s[index]])) else None
    case _ => None
  }

  /** The index-keyed members an array or a string spreads into. */
  function IndexMap(values: seq<Json>): (m: map<string, Json>)
    ensures |m.Keys| <= |values|
  {
    if values == [] then map[]
    else IndexMap(values[..|values| - 1])[JsString.NatToString(|values| - 1) := values[|values| - 1]]
  }

  /** The members `...v` adds to an object literal. */
  function Spread(v: Json): map<string, Json>
  {
    match v
    case JObj(fields) => AsMap(fields)
    case JArr(items) => IndexMap(items)
    case JStr(s) => IndexMap(seq(|s|, i requires 0 <= i < |s| => JStr([s[i]])))
    case _ => map[]
  }

  /** `...(modifications[index] || {})`: the members that override card `index`. */
  function Patch(modifications: Json, index: nat): Card
  {
    var e := Element(modifications, index);
    if Truthy(e) then Spread(e.value) else map[]
  }

  /**
   * The card list of the fork: as many cards as the original; with truthy `modifications`,
   * card `i` has the original's columns and the patch's, a patched column taking the patch's
   * value; otherwise exactly the original cards.
   */
  function Merge(cards: seq<Card>, modifications: Option<Json>): (r: seq<Card>)
    ensures |r| == |cards|
    ensures !Truthy(modifications) ==> r == cards
    ensures Truthy(modifications) ==> forall i :: 0 <= i < |r| ==>
      var patch := Patch(modifications.value, i);
      && r[i].Keys == cards[i].Keys + patch.Keys
      && (forall k :: k in patch ==> r[i][k] == patch[k])
      && (forall k :: k in cards[i] && k !in patch ==> r[i][k] == cards[i][k])
  {
    if Truthy(modifications) then
      seq(|cards|, i requires 0 <= i < |cards| => cards[i] + Patch(modifications.value, i))
    else cards
  }

  /**
   * With `modifications` an array, a card with an object entry is overridden by that
   * object's members and a card past the end of the array is copied unchanged.
   */
  lemma MergeWithArray(cards: seq<Card>, items: seq<Json>, i: nat)
    requires i < |cards|
    ensures var r := Merge(cards, Some(JArr(items)));
      && (i < |items| && items[i].JObj? ==> r[i] == cards[i] + AsMap(items[i].fields))
      && (i >= |items| ==> r[i] == cards[i])
  {
    var m := JArr(items);
    var r := Merge(cards, Some(m));
    assert r[i] == cards[i] + Patch(m, i);
    if i < |items| {
      assert Element(m, i) == Some(items[i]);
    } else {
      assert Patch(m, i) == map[];
      assert cards[i] + map[] == cards[i];
    }
  }

  /** The fork of `original` by `creatorDid`, stored at `ipfsUri` under token `mptTokenId`. */
  function Fork(original: FlashcardSet, creatorDid: Json, ipfsUri: string, mptTokenId: string, cards: seq<Card>)
    : (s: FlashcardSet)
    ensures s.title == JStr(ToJsString(original.title) + " (Adapted)")
    ensures s.subject == original.subject && s.tags == original.tags
    ensures s.difficulty == original.difficulty && s.description == original.description
    ensures s.parentTokenId == original.mptTokenId && s.mptTokenId == Some(mptTokenId)
    ensures s.creatorDid == creatorDid && s.ipfsUri == ipfsUri && s.reuseCount == 0
    ensures |s.cards| == |cards| && forall i :: 0 <= i < |cards| ==> s.cards[i] == StoredCard(cards[i])
  {
    FlashcardSet(
      JStr(ToJsString(original.title) + " (Adapted)"),
      original.subject, original.tags, original.difficulty, original.description,
      creatorDid, ipfsUri, Some(mptTokenId), original.mptTokenId, 0,
      seq(|cards|, i requires 0 <= i < |cards| => StoredCard(cards[i])))
  }

  /** The success body: the new set and a summary of the original. */
  datatype Reused = Reused(newId: string, flashcardSet: FlashcardSet, originalId: string, originalTitle: Json,
                           originalCreatorDid: Json)

  datatype Outcome = Outcome(response: Response<Reused>, sets: map<string, FlashcardSet>)

  const MissingFields := "Missing required fields"
  const NotFound := "Original flashcard set not found"
  const ReuseFailed := "Failed to reuse flashcard set"
  const MethodNotAllowed := "Method not allowed"

  /**
   * One request. Only POST is served (405 otherwise). A missing `originalSetId` or
   * `creatorDid` gives 400 and an unknown original 404; a failing upload or mint, or a body
   * that cannot be destructured or an id that is not a string, gives 500. None of these
   * writes. On success the fork is stored at `freshId` and the original's counter goes up.
   */
  function ReuseRequest(sets: map<string, FlashcardSet>, httpMethod: string, body: Json,
                        upload: seq<Card> -> Option<string>, mint: MintRequest -> Option<string>, freshId: string)
    : (o: Outcome)
    requires freshId !in sets
    ensures !o.response.Ok? ==> o.sets == sets
    ensures httpMethod != "POST" ==> o.response == Error(405, MethodNotAllowed)
    ensures httpMethod == "POST" && !body.JNull? &&
            (!Truthy(Member(body, "originalSetId")) || !Truthy(Member(body, "creatorDid")))
            ==> o.response == Error(400, MissingFields)
    ensures o.response.Ok? ==>
      var id := o.response.value.originalId;
      && id in sets && Member(body, "originalSetId") == Some(JStr(id))
      && o.response.value.newId == freshId
      && o.sets == sets[freshId := o.response.value.flashcardSet]
                       [id := sets[id].(reuseCount := sets[id].reuseCount + 1)]
      && o.sets[id].reuseCount == sets[id].reuseCount + 1
      && o.response.value.flashcardSet.parentTokenId == sets[id].mptTokenId
      && |o.response.value.flashcardSet.cards| == |sets[id].cards|
    ensures o.response.Ok? ==>
      var id, fork := o.response.value.originalId, o.response.value.flashcardSet;
      var creatorDid := Member(body, "creatorDid").value;
      var cards := Merge(sets[id].cards, Member(body, "modifications"));
      && upload(cards) == Some(fork.ipfsUri)
      && fork.mptTokenId.Some?
      && mint(MintRequest(creatorDid, fork.ipfsUri, sets[id].tags, fork.ipfsUri)) == fork.mptTokenId
      && fork == Fork(sets[id], creatorDid, fork.ipfsUri, fork.mptTokenId.value, cards)
      && o.response.value.originalTitle == sets[id].title
      && o.response.value.originalCreatorDid == sets[id].creatorDid
    ensures httpMethod == "POST" && Truthy(Member(body, "originalSetId")) && Truthy(Member(body, "creatorDid"))
            && Member(body, "originalSetId").value.JStr? && Member(body, "originalSetId").value.s !in sets
      ==> o.response == Error(404, NotFound)
    ensures httpMethod == "POST" && Truthy(Member(body, "originalSetId")) && Truthy(Member(body, "creatorDid"))
            && Member(body, "originalSetId").value.JStr? && Member(body, "originalSetId").value.s in sets
      ==> var original := sets[Member(body, "originalSetId").value.s];
          var cards := Merge(original.cards, Member(body, "modifications"));
          (o.response.Ok? <==>
             upload(cards).Some?
             && mint(MintRequest(Member(body, "creatorDid").value, upload(cards).value, original.tags,
                                 upload(cards).value)).Some?)
  {
    if httpMethod != "POST" then Outcome(Error(405, MethodNotAllowed), sets)
    else if body.JNull? then Outcome(Error(500, ReuseFailed), sets)
    else
      var originalSetId, creatorDid := Member(body, "originalSetId"), Member(body, "creatorDid");
      if !Truthy(originalSetId) || !Truthy(creatorDid) then Outcome(Error(400, MissingFields), sets)
      else if !originalSetId.value.JStr? then Outcome(Error(500, ReuseFailed), sets)
      else
        var id := originalSetId.value.s;
        if id !in sets then Outcome(Error(404, NotFound), sets)
        else
          var original := sets[id];
          var cards := Merge(original.cards, Member(body, "modifications"));
          match upload(cards)
          case None => Outcome(Error(500, ReuseFailed), sets)
          case Some(ipfsUri) =>
            match mint(MintRequest(creatorDid.value, ipfsUri, original.tags, ipfsUri))
            case None => Outcome(Error(500, ReuseFailed), sets)
            case Some(token) =>
              var fork := Fork(original, creatorDid.value, ipfsUri, token, cards);
              Outcome(Ok(200, Reused(freshId, fork, id, original.title, original.creatorDid)),
                      sets[freshId := fork][id := sets[id].(reuseCount := sets[id].reuseCount + 1)])
  }

  /** Two successful forks of the same set raise its counter by two. */
  lemma {:induction false} TwoReuses(sets: map<string, FlashcardSet>, body: Json,
                                     upload: seq<Card> -> Option<string>, mint: MintRequest -> Option<string>,
                                     id1: string, id2: string)
    requires id1 !in sets && id2 !in sets && id1 != id2
    ensures var o1 := ReuseRequest(sets, "POST", body, upload, mint, id1);
      o1.response.Ok? ==>
        var id := o1.response.value.originalId;
        var o2 := ReuseRequest(o1.sets, "POST", body, upload, mint, id2);
        o2.response.Ok? ==> o2.response.value.originalId == id && o2.sets[id].reuseCount == sets[id].reuseCount + 2
  {
    var o1 := ReuseRequest(sets, "POST", body, upload, mint, id1);
    if o1.response.Ok? {
      var o2 := ReuseRequest(o1.sets, "POST", body, upload, mint, id2);
      if o2.response.Ok? {
        assert Member(body, "originalSetId") == Some(JStr(o1.response.value.originalId));
        assert o2.response.value.originalId == o1.response.value.originalId;
      }
    }
  }

  /** The handler, on the set table. */
  method Handle(store: Store, httpMethod: string, body: Json, upload: seq<Card> -> Option<string>,
                mint: MintRequest -> Option<string>, freshId: string) returns (response: Response<Reused>)
    requires freshId !in store.sets
    modifies store
    ensures Outcome(response, store.sets) == ReuseRequest(old(store.sets), httpMethod, body, upload, mint, freshId)
  {
    if httpMethod != "POST" {
      return Error(405, MethodNotAllowed);
    }
    if body.JNull? {
      return Error(500, ReuseFailed);
    }
    var originalSetId, creatorDid := Member(body, "originalSetId"), Member(body, "creatorDid");
    if !Truthy(originalSetId) || !Truthy(creatorDid) {
      return Error(400, MissingFields);
    }
    if !originalSetId.value.JStr? {
      return Error(500, ReuseFailed);
    }
    var id := originalSetId.value.s;
    var original := store.Find(id);
    if original.None? {
      return Error(404, NotFound);
    }
    var cards := Merge(original.value.cards, Member(body, "modifications"));
    var ipfsUri := upload(cards);
    if ipfsUri.None? {
      return Error(500, ReuseFailed);
    }
    var token := mint(MintRequest(creatorDid.value, ipfsUri.value, original.value.tags, ipfsUri.value));
    if token.None? {
      return Error(500, ReuseFailed);
    }
    var fork := Fork(original.value, creatorDid.value, ipfsUri.value, token.value, cards);
    store.Insert(freshId, fork);
    store.IncrementReuse(id);
    response := Ok(200, Reused(freshId, fork, id, original.value.title, original.value.creatorDid));
  }
}
