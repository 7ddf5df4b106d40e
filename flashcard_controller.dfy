/**
  The flashcard request handlers of backend/controllers/flashcardController.js: the
  missing-field check of `createFlashcard`, and the status codes of `getFlashcard`,
  `deleteFlashcard` and `updateFlashcard` for a malformed id and for an id that names no card.

  Whether an id is a well-formed ObjectId is decided by the database driver; it enters each
  handler as the boolean `idValid`. A request body field is `None` when it is absent or null.
 */
module FlashcardController {
  import opened Wrappers
  import opened FlashcardModel

  datatype Body =
    | CardBody(card: Card)
    | ErrorBody(error: string)
    | MissingFieldsBody(error: string, emptyFields: seq<string>)

  datatype Response = Response(status: int, body: Body)

  /** A string field of the request body that JavaScript treats as false: absent, null or "". */
  predicate Falsy(v: Option<string>) {
    v == None || v == Some("")
  }

  /** The `emptyFields` list of `createFlashcard`: "term" if the term is falsy, then
      "definition" if the definition is falsy. */
  method EmptyFields(term: Option<string>, definition: Option<string>) returns (emptyFields: seq<string>)
    ensures "term" in emptyFields <==> Falsy(term)
    ensures "definition" in emptyFields <==> Falsy(definition)
    ensures forall f | f in emptyFields :: f == "term" || f == "definition"
    ensures emptyFields == [] <==> !Falsy(term) && !Falsy(definition)
    ensures |emptyFields| <= 2
    ensures |emptyFields| == 2 ==> emptyFields == ["term", "definition"]
  {
    emptyFields := [];
    if Falsy(term) {
      emptyFields := emptyFields + ["term"];
    }
    if Falsy(definition) {
      emptyFields := emptyFields + ["definition"];
    }
  }

  /** `createFlashcard`: a request missing a field is refused with 400 and the list of empty
      fields; otherwise a card owned by the requester is stored under the fresh id `newId`. */
  method CreateFlashcard(store: FlashcardStore, term: Option<string>, definition: Option<string>,
                         requester: string, newId: CardId, now: int)
    returns (res: Response)
    requires store.Valid() && newId !in store.cards
    modifies store
    ensures store.Valid()
    ensures Falsy(term) || Falsy(definition) ==>
      && res.status == 400
      && res.body.MissingFieldsBody?
      && res.body.error == "Please fill in all the fields"
      && ("term" in res.body.emptyFields <==> Falsy(term))
      && ("definition" in res.body.emptyFields <==> Falsy(definition))
      && store.cards == old(store.cards)
    ensures !Falsy(term) && !Falsy(definition) ==>
      && res.status == 200
      && res == Response(200, CardBody(NewCard(newId, requester, term.value, definition.value, now)))
      && res.body.card.userId == requester
      && store.cards == old(store.cards)[newId := res.body.card]
  {
    var emptyFields := EmptyFields(term, definition);
    if |emptyFields| > 0 {
      return Response(400, MissingFieldsBody("Please fill in all the fields", emptyFields));
    }
    var flashcard := NewCard(newId, requester, term.value, definition.value, now);
    store.cards := store.cards[newId := flashcard];
    res := Response(200, CardBody(flashcard));
  }

  /** `getFlashcard`: 404 for a malformed id (with the message 'No such workout'), 404 for an
      id that names no card, else 200 and the card. */
  method GetFlashcard(store: FlashcardStore, id: CardId, idValid: bool) returns (res: Response)
    ensures !idValid ==> res == Response(404, ErrorBody("No such workout"))
    ensures idValid && id !in store.cards ==> res == Response(404, ErrorBody("No such flashcard"))
    ensures idValid && id in store.cards ==> res == Response(200, CardBody(store.cards[id]))
  {
    if !idValid {
      return Response(404, ErrorBody("No such workout"));
    }
    if id !in store.cards {
      return Response(404, ErrorBody("No such flashcard"));
    }
    res := Response(200, CardBody(store.cards[id]));
  }

  /** `deleteFlashcard`: 404 for a malformed id, 400 (not 404) for an id that names no card,
      else the card is removed and returned with 200. */
  method DeleteFlashcard(store: FlashcardStore, id: CardId, idValid: bool) returns (res: Response)
    requires store.Valid()
    modifies store
    ensures store.Valid()
    ensures !idValid ==> res == Response(404, ErrorBody("No such flashcard")) && store.cards == old(store.cards)
    ensures idValid && id !in old(store.cards) ==>
      res == Response(400, ErrorBody("No such flashcard")) && store.cards == old(store.cards)
    ensures idValid && id in old(store.cards) ==>
      res == Response(200, CardBody(old(store.cards)[id])) && store.cards == old(store.cards) - {id}
  {
    if !idValid {
      return Response(404, ErrorBody("No such flashcard"));
    }
    if id !in store.cards {
      return Response(400, ErrorBody("No such flashcard"));
    }
    var flashcard := store.cards[id];
    store.cards := store.cards - {id};
    res := Response(200, CardBody(flashcard));
  }

  /** The fields of an update body that the card schema declares; `None` means the field is
      absent from the body. */
  datatype Patch = Patch(term: Option<string>, definition: Option<string>, userId: Option<string>)

  function ApplyPatch(c: Card, p: Patch): (r: Card)
    ensures r.id == c.id
    ensures r.term == (if p.term.Some? then p.term.value else c.term)
    ensures r.definition == (if p.definition.Some? then p.definition.value else c.definition)
    ensures r.userId == (if p.userId.Some? then p.userId.value else c.userId)
    ensures r.(term := c.term, definition := c.definition, userId := c.userId) == c
  {
    c.(term := if p.term.Some? then p.term.value else c.term,
       definition := if p.definition.Some? then p.definition.value else c.definition,
       userId := if p.userId.Some? then p.userId.value else c.userId)
  }

  /** `updateFlashcard`: 404 for a malformed id, 400 for an id that names no card, else the
      patch is applied and the card AS IT WAS BEFORE the update is returned with 200
      (`findOneAndUpdate` without the `new` option). */
  method UpdateFlashcard(store: FlashcardStore, id: CardId, idValid: bool, patch: Patch)
    returns (res: Response)
    requires store.Valid()
    modifies store
    ensures store.Valid()
    ensures !idValid ==> res == Response(404, ErrorBody("No such flashcard")) && store.cards == old(store.cards)
    ensures idValid && id !in old(store.cards) ==>
      res == Response(400, ErrorBody("No such flashcard")) && store.cards == old(store.cards)
    ensures idValid && id in old(store.cards) ==>
      && res == Response(200, CardBody(old(store.cards)[id]))
      && store.cards == old(store.cards)[id := ApplyPatch(old(store.cards)[id], patch)]
  {
    if !idValid {
      return Response(404, ErrorBody("No such flashcard"));
    }
    if id !in store.cards {
      return Response(400, ErrorBody("No such flashcard"));
    }
    var flashcard := store.cards[id];
    store.cards := store.cards[id := ApplyPatch(flashcard, patch)];
    res := Response(200, CardBody(flashcard));
  }
}
