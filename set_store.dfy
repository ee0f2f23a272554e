/**
 * The `flashcardSet` table the set handlers (pages/api/reuse.ts, pages/api/flashcards.ts)
 * read and write, keyed by set id. Columns whose values come straight from a request body are
 * kept as JSON values; a card is the object of its columns.
 */
module SetStore {
  import opened Wrappers
  import opened Json

  /** A card as an object: column name to value. */
  type Card = map<string, Json>

  /** The card columns a new set's cards are created with. */
  const CardFields: set<string> := {"question", "answer", "explanation", "imageUrl"}

  datatype FlashcardSet = FlashcardSet(
    title: Json,
    subject: Json,
    tags: Json,
    difficulty: Json,
    description: Option<Json>,
    creatorDid: Json,
    ipfsUri: string,
    mptTokenId: Option<string>,
    parentTokenId: Option<string>,
    reuseCount: nat,
    cards: seq<Card>)

  /** What `mintMPTToken` is called with. */
  datatype MintRequest = MintRequest(creatorDid: Json, ipfsUri: string, tags: Json, deckHash: string)

  /** `{ question: card.question, answer: card.answer, ... }`: the card columns that are set. */
  function StoredCard(card: Card): (c: Card)
    ensures c.Keys == card.Keys * CardFields
    ensures forall k :: k in c ==> c[k] == card[k]
  {
    map k | k in card && k in CardFields :: card[k]
  }

  class Store {
    var sets: map<string, FlashcardSet>

    constructor ()
      ensures sets == map[]
    {
      sets := map[];
    }

    /** `findUnique({ where: { id } })`. */
    function Find(id: string): (r: Option<FlashcardSet>)
      reads this
      ensures r.Some? <==> id in sets
      ensures r.Some? ==> r.value == sets[id]
    {
      if id in sets then Some(sets[id]) else None
    }

    /** `create({ data })` under the id the database hands out. */
    method Insert(id: string, s: FlashcardSet)
      requires id !in sets
      modifies this
      ensures sets == old(sets)[id := s]
    {
      sets := sets[id := s];
    }

    /** `update({ where: { id }, data: { reuseCount: { increment: 1 } } })`. */
    method IncrementReuse(id: string)
      requires id in sets
      modifies this
      ensures sets == old(sets)[id := old(sets)[id].(reuseCount := old(sets)[id].reuseCount + 1)]
    {
      sets := sets[id := sets[id].(reuseCount := sets[id].reuseCount + 1)];
    }
  }
}
