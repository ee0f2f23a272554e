/**
 * `/api/flashcards` (pages/api/flashcards.ts): POST creates a flashcard set from the body,
 * GET lists sets by filter, one page at a time. IPFS upload, token minting and the
 * database's query and count are parameters (`None` where they throw).
 */
module FlashcardsApi {
  import opened Wrappers
  import opened Json
  import opened Http
  import opened SetStore
  import JsString

  const MissingFields := "Missing required fields"
  const CreateFailed := "Failed to create flashcard set"
  const FetchFailed := "Failed to fetch flashcard sets"
  const MethodNotAllowed := "Method not allowed"

  /** The card a body entry becomes: its card columns that are set; `None` for `null`, which cannot be read. */
  function CardOf(entry: Json): (c: Option<Card>)
    ensures c.None? <==> entry.JNull?
    ensures entry.JObj? ==> c == Some(StoredCard(AsMap(entry.fields)))
  {
    match entry
    case JNull => None
    case JObj(fields) => Some(StoredCard(AsMap(fields)))
    case _ => Some(map[])
  }

  /** `flashcards.map(card => ...)`: `None` when `flashcards` is not an array or an entry is `null`. */
  function CardsOf(flashcards: Json): (r: Option<seq<Card>>)
    ensures r.Some? <==> flashcards.JArr? && forall i :: 0 <= i < |flashcards.items| ==> !flashcards.items[i].JNull?
    ensures r.Some? ==>
      && |r.value| == |flashcards.items|
      && forall i :: 0 <= i < |r.value| ==> Some(r.value[i]) == CardOf(flashcards.items[i])
  {
    if !flashcards.JArr? then None
    else if exists i :: 0 <= i < |flashcards.items| && flashcards.items[i].JNull? then None
    else Some(seq(|flashcards.items|, i requires 0 <= i < |flashcards.items| => CardOf(flashcards.items[i]).value))
  }

  /** The fields POST requires: each must be truthy, so a `difficulty` of `0` counts as missing. */
  predicate HasRequiredFields(body: Json)
  {
    && Truthy(Member(body, "title"))
    && Truthy(Member(body, "subject"))
    && Truthy(Member(body, "tags"))
    && Truthy(Member(body, "difficulty"))
    && Truthy(Member(body, "creatorDid"))
    && Truthy(Member(body, "flashcards"))
  }

  datatype Created = Created(id: string, flashcardSet: FlashcardSet)

  datatype Outcome = Outcome(response: Response<Created>, sets: map<string, FlashcardSet>)

  /**
   * POST: 400 unless all six required fields are truthy, before any upload or write; 500 when
   * the body cannot be destructured, the upload or mint fails or `flashcards` cannot be mapped;
   * otherwise the new set is stored at `freshId` with its cards' columns.
   */
  function CreateRequest(sets: map<string, FlashcardSet>, body: Json, upload: Json -> Option<string>,
                         mint: MintRequest -> Option<string>, freshId: string): (o: Outcome)
    requires freshId !in sets
    ensures !o.response.Ok? ==> o.sets == sets
    ensures body.JNull? ==> o.response == Error(500, CreateFailed)
    ensures !body.JNull? && !HasRequiredFields(body) ==> o.response == Error(400, MissingFields)
    ensures !body.JNull? && HasRequiredFields(body) ==>
      var flashcards, creatorDid, tags := Member(body, "flashcards").value, Member(body, "creatorDid").value,
                                          Member(body, "tags").value;
      && (o.response.Ok? <==>
            && upload(flashcards).Some?
            && mint(MintRequest(creatorDid, upload(flashcards).value, tags, upload(flashcards).value)).Some?
            && CardsOf(flashcards).Some?)
      && (!o.response.Ok? ==> o.response == Error(500, CreateFailed))
    ensures o.response.Ok? ==>
      var s := o.response.value.flashcardSet;
      && HasRequiredFields(body)
      && o.response.status == 200
      && o.response.value.id == freshId
      && o.sets == sets[freshId := s]
      && Some(s.title) == Member(body, "title") && Some(s.subject) == Member(body, "subject")
      && Some(s.tags) == Member(body, "tags") && Some(s.difficulty) == Member(body, "difficulty")
      && s.description == Member(body, "description") && Some(s.creatorDid) == Member(body, "creatorDid")
      && upload(Member(body, "flashcards").value) == Some(s.ipfsUri)
      && s.mptTokenId.Some?
      && mint(MintRequest(s.creatorDid, s.ipfsUri, s.tags, s.ipfsUri)) == s.mptTokenId
      && s.parentTokenId.None? && s.reuseCount == 0
      && Some(s.cards) == CardsOf(Member(body, "flashcards").value)
  {
    if body.JNull? then Outcome(Error(500, CreateFailed), sets)
    else if !HasRequiredFields(body) then Outcome(Error(400, MissingFields), sets)
    else
      var title, subject, tags := Member(body, "title").value, Member(body, "subject").value, Member(body, "tags").value;
      var difficulty, creatorDid := Member(body, "difficulty").value, Member(body, "creatorDid").value;
      var flashcards := Member(body, "flashcards").value;
      match upload(flashcards)
      case None => Outcome(Error(500, CreateFailed), sets)
      case Some(ipfsUri) =>
        match mint(MintRequest(creatorDid, ipfsUri, tags, ipfsUri))
        case None => Outcome(Error(500, CreateFailed), sets)
        case Some(token) =>
          match CardsOf(flashcards)
          case None => Outcome(Error(500, CreateFailed), sets)
          case Some(cards) =>
            var s := FlashcardSet(title, subject, tags, difficulty, Member(body, "description"), creatorDid,
                                  ipfsUri, Some(token), None, 0, cards);
            Outcome(Ok(200, Created(freshId, s)), sets[freshId := s])
  }

  /** The query parameters GET reads; an absent one is `None`. */
  datatype Query = Query(
    subject: Option<string>,
    tags: Option<string>,
    difficulty: Option<string>,
    creatorDid: Option<string>,
    page: Option<string>,
    limit: Option<string>)

  /** A truthy query parameter. */
  predicate Given(v: Option<string>)
  {
    v.Some? && v.value != ""
  }

  /** `page` and `limit` with their defaults `'1'` and `'10'`, which apply only when absent. */
  function PageText(q: Query): string
  {
    if q.page.Some? then q.page.value else "1"
  }

  function LimitText(q: Query): string
  {
    if q.limit.Some? then q.limit.value else "10"
  }

  /**
   * `take = parseInt(limit)` and `skip = (parseInt(page) - 1) * take`; `None` stands for
   * `NaN`, which either unparsable text produces.
   */
  function Take(q: Query): Option<int>
  {
    JsString.ParseInt(LimitText(q))
  }

  function Skip(q: Query): Option<int>
  {
    Offset(JsString.ParseInt(PageText(q)), Take(q))
  }

  /** `(page - 1) * take`, which is `NaN` when either operand is. */
  function Offset(page: Option<int>, take: Option<int>): Option<int>
  {
    if page.Some? && take.Some? then Some((page.value - 1) * take.value) else None
  }

  /** The default page text parses to 1. */
  lemma ParseDefaultPage()
    ensures JsString.ParseInt("1") == Some(1)
  {
    JsString.ParseIntOfNatToString(1);
    assert JsString.NatToString(1) == "1";
  }

  /** The default limit text parses to 10. */
  lemma ParseDefaultLimit()
    ensures JsString.ParseInt("10") == Some(10)
  {
    JsString.ParseIntOfNatToString(10);
    assert JsString.NatToString(10) == JsString.NatToString(1) + "0" == "10";
  }

  /** Without `page` and `limit` the first ten sets are asked for. */
  lemma DefaultPage(q: Query)
    requires q.page.None? && q.limit.None?
    ensures Take(q) == Some(10) && Skip(q) == Some(0)
  {
    assert PageText(q) == "1" && LimitText(q) == "10";
    ParseDefaultPage();
    ParseDefaultLimit();
  }

  /** Page `n` of size `l`, both written in decimal, skips the first `(n - 1) * l` sets. */
  lemma PageOffset(q: Query, n: nat, l: nat)
    requires q.page == Some(JsString.NatToString(n)) && q.limit == Some(JsString.NatToString(l))
    ensures Take(q) == Some(l) && Skip(q) == Some((n - 1) * l)
  {
    JsString.ParseIntOfNatToString(n);
    JsString.ParseIntOfNatToString(l);
    assert PageText(q) == JsString.NatToString(n) && LimitText(q) == JsString.NatToString(l);
    SkipOf(q, n, l);
  }

  /** With the page and the page size parsed, `skip` is the number of sets on the pages before. */
  lemma SkipOf(q: Query, page: int, take: int)
    requires JsString.ParseInt(PageText(q)) == Some(page) && Take(q) == Some(take)
    ensures Skip(q) == Some((page - 1) * take)
  {
    OffsetOf(JsString.ParseInt(PageText(q)), Take(q), page, take);
  }

  lemma OffsetOf(pageNumber: Option<int>, takeNumber: Option<int>, page: int, take: int)
    requires pageNumber == Some(page) && takeNumber == Some(take)
    ensures Offset(pageNumber, takeNumber) == Some((page - 1) * take)
  {
  }

  /** One condition of the `where` filter. */
  datatype Filter =
    | Equals(text: string)          // `where.subject = subject`, `where.creatorDid = creatorDid`
    | HasSome(tags: seq<string>)    // `where.tags = { hasSome: tags.split(',') }`
    | IntEquals(value: Option<int>) // `where.difficulty = parseInt(difficulty)`; `None` is `NaN`

  /** The `where` object: it holds exactly the keys whose query parameters are truthy. */
  function Where(q: Query): (where: map<string, Filter>)
    ensures ("subject" in where) == Given(q.subject)
    ensures ("tags" in where) == Given(q.tags)
    ensures ("difficulty" in where) == Given(q.difficulty)
    ensures ("creatorDid" in where) == Given(q.creatorDid)
    ensures where.Keys <= {"subject", "tags", "difficulty", "creatorDid"}
    ensures "subject" in where ==> where["subject"] == Equals(q.subject.value)
    ensures "tags" in where ==> where["tags"] == HasSome(JsString.Split(q.tags.value, ','))
    ensures "tags" in where ==> JsString.Join(where["tags"].tags, ',') == q.tags.value
    ensures "difficulty" in where ==> where["difficulty"] == IntEquals(JsString.ParseInt(q.difficulty.value))
    ensures "creatorDid" in where ==> where["creatorDid"] == Equals(q.creatorDid.value)
  {
    var subject: map<string, Filter> := if Given(q.subject) then map["subject" := Equals(q.subject.value)] else map[];
    var tags := if Given(q.tags) then subject["tags" := HasSome(JsString.Split(q.tags.value, ','))] else subject;
    var difficulty :=
      if Given(q.difficulty) then tags["difficulty" := IntEquals(JsString.ParseInt(q.difficulty.value))] else tags;
    if Given(q.creatorDid) then difficulty["creatorDid" := Equals(q.creatorDid.value)] else difficulty
  }

  /** `where` built one conditional assignment at a time, as the handler does. */
  method BuildWhere(q: Query) returns (where: map<string, Filter>)
    ensures where == Where(q)
  {
    where := map[];
    if Given(q.subject) {
      where := where["subject" := Equals(q.subject.value)];
    }
    if Given(q.tags) {
      where := where["tags" := HasSome(JsString.Split(q.tags.value, ','))];
    }
    if Given(q.difficulty) {
      where := where["difficulty" := IntEquals(JsString.ParseInt(q.difficulty.value))];
    }
    if Given(q.creatorDid) {
      where := where["creatorDid" := Equals(q.creatorDid.value)];
    }
  }

  /** `Math.ceil(total / take)`; `None` where it is not a finite number (`take` is 0). */
  function TotalPages(total: nat, take: int): (r: Option<int>)
    ensures r.None? <==> take == 0
    ensures take > 0 ==> r.Some? && r.value >= 0 && (r.value - 1) * take < total + take && total <= r.value * take
    ensures take > 0 && total > 0 ==> (r.value - 1) * take < total <= r.value * take
    ensures take > 0 && total == 0 ==> r == Some(0)
  {
    if take > 0 then Some((total + take - 1) / take)
    else if take < 0 then Some(-(total / -take))
    else None
  }

  /** The GET answer. */
  datatype Listing = Listing(flashcardSets: seq<Json>, total: nat, page: Option<int>, totalPages: Option<int>)

  /**
   * GET: the sets the database finds for the filter, skip and take, with their count under the
   * same filter and the page arithmetic; 500 when a number is `NaN` or either query throws.
   */
  function ListRequest(q: Query, find: (map<string, Filter>, int, int) -> Option<seq<Json>>,
                       count: map<string, Filter> -> Option<nat>): (r: Response<Listing>)
    ensures r.Ok? <==>
      Skip(q).Some? && Take(q).Some? && find(Where(q), Skip(q).value, Take(q).value).Some? && count(Where(q)).Some?
    ensures r.Ok? ==>
      && r.status == 200
      && find(Where(q), Skip(q).value, Take(q).value) == Some(r.value.flashcardSets)
      && count(Where(q)) == Some(r.value.total)
      && r.value.page == JsString.ParseInt(PageText(q))
      && r.value.totalPages == TotalPages(r.value.total, Take(q).value)
    ensures !r.Ok? ==> r == Error(500, FetchFailed)
  {
    var skip, take, where := Skip(q), Take(q), Where(q);
    if skip.None? || take.None? then Error(500, FetchFailed)
    else
      match (find(where, skip.value, take.value), count(where))
      case (Some(sets), Some(total)) =>
        Ok(200, Listing(sets, total, JsString.ParseInt(PageText(q)), TotalPages(total, take.value)))
      case _ => Error(500, FetchFailed)
  }

  /** What the handler answers with on success: the created set or a page of sets. */
  datatype Answer = NewSet(created: Created) | Page(listing: Listing)

  function AsCreated(r: Response<Created>): (a: Response<Answer>)
    ensures a.status == r.status && (a.Ok? <==> r.Ok?)
    ensures r.Ok? ==> a.value == NewSet(r.value)
    ensures r.Error? ==> a.message == r.message
  {
    match r
    case Ok(status, c) => Ok(status, NewSet(c))
    case Error(status, message) => Error(status, message)
  }

  function AsListed(r: Response<Listing>): (a: Response<Answer>)
    ensures a.status == r.status && (a.Ok? <==> r.Ok?)
    ensures r.Ok? ==> a.value == Page(r.value)
    ensures r.Error? ==> a.message == r.message
  {
    match r
    case Ok(status, l) => Ok(status, Page(l))
    case Error(status, message) => Error(status, message)
  }

  /**
   * The handler on the set table: POST creates, GET lists without writing, and any other
   * method is 405 with nothing written.
   */
  method Handle(store: Store, httpMethod: string, body: Json, q: Query, upload: Json -> Option<string>,
                mint: MintRequest -> Option<string>, freshId: string,
                find: (map<string, Filter>, int, int) -> Option<seq<Json>>, count: map<string, Filter> -> Option<nat>)
    returns (response: Response<Answer>)
    requires freshId !in store.sets
    modifies store
    ensures httpMethod == "POST" ==>
      var o := CreateRequest(old(store.sets), body, upload, mint, freshId);
      store.sets == o.sets && response == AsCreated(o.response)
    ensures httpMethod == "GET" ==>
      store.sets == old(store.sets) && response == AsListed(ListRequest(q, find, count))
    ensures httpMethod != "POST" && httpMethod != "GET" ==>
      store.sets == old(store.sets) && response == Error(405, MethodNotAllowed)
  {
    if httpMethod == "POST" {
      var o := CreateRequest(store.sets, body, upload, mint, freshId);
      if o.response.Ok? {
        store.Insert(freshId, o.response.value.flashcardSet);
      }
      return AsCreated(o.response);
    } else if httpMethod == "GET" {
      var skip, take := Skip(q), Take(q);
      var where := BuildWhere(q);
      if skip.None? || take.None? {
        return Error(500, FetchFailed);
      }
      var sets, total := find(where, skip.value, take.value), count(where);
      if sets.None? || total.None? {
        return Error(500, FetchFailed);
      }
      return Ok(200, Page(Listing(sets.value, total.value, JsString.ParseInt(PageText(q)),
                                  TotalPages(total.value, take.value))));
    }
    response := Error(405, MethodNotAllowed);
  }
}
