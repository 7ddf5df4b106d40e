/**
  The flashcard record and the collection that holds the records, keyed by document id.
  The scheduling fields (interval, ease, repetitions, due date, last review) are the ones the
  scheduler reads and writes; the ease factor is kept in hundredths (250 stands for 2.5).
 */
module FlashcardModel {
  import opened Wrappers

  type CardId = string

  /** Milliseconds in one day. */
  const DayMs: int := 86_400_000

  /** The ease factor bounds of the scheduler, in hundredths: 1.3 and 2.5. */
  const MinEase: int := 130
  const MaxEase: int := 250

  datatype Card = Card(
    id: CardId,
    userId: string,
    term: string,
    definition: string,
    interval: int,          // days until the next review
    easeFactor: int,        // hundredths
    repetitions: int,       // consecutive successful reviews
    dueDate: int,           // milliseconds since the epoch
    lastReviewed: Option<int>)

  /** The scheduling state the scheduler keeps: an interval of at least a day and an ease
      factor between 1.3 and 2.5. */
  predicate WellScheduled(c: Card) {
    c.interval >= 1 && MinEase <= c.easeFactor <= MaxEase && c.repetitions >= 0
  }

  /** A new card: interval 1, ease 2.5, no repetitions, due at once, never reviewed. */
  function NewCard(id: CardId, userId: string, term: string, definition: string, now: int): (c: Card)
    ensures WellScheduled(c) && c.dueDate == now && c.lastReviewed == None
    ensures c.id == id && c.userId == userId && c.term == term && c.definition == definition
  {
    Card(id, userId, term, definition, 1, MaxEase, 0, now, None)
  }

  /** The flashcard collection: documents by id. */
  class FlashcardStore {
    var cards: map<CardId, Card>

    /** Every document is stored under its own id. */
    ghost predicate Valid()
      reads this
    {
      forall id | id in cards :: cards[id].id == id
    }

    constructor ()
      ensures Valid() && cards == map[]
    {
      cards := map[];
    }
  }
}
