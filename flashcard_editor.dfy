/**
  The list of draft flashcards in frontend/src/components/FlashcardEditor.js: editing one
  field of one card, deleting a card, appending a blank card, and the filter that decides which
  drafts are saved. A term or definition that is absent from a draft is modelled as "", which
  every check of the editor treats the same way.
 */
module FlashcardEditor {
  import opened Text

  datatype DraftCard = DraftCard(term: string, definition: string)

  datatype CardField = Term | Definition

  /** `{ ...card, [field]: value }` */
  function SetField(c: DraftCard, field: CardField, value: string): (r: DraftCard)
    ensures field == Term ==> r.term == value && r.definition == c.definition
    ensures field == Definition ==> r.definition == value && r.term == c.term
  {
    match field
    case Term => c.(term := value)
    case Definition => c.(definition := value)
  }

  /** `updateFlashcard`: copies the list, overwrites one field of the card at `index` in the
      copy, and returns the copy. The editor calls it only with the index of a shown card. */
  method UpdateFlashcard(cards: seq<DraftCard>, index: nat, field: CardField, value: string)
    returns (updated: seq<DraftCard>)
    requires index < |cards|
    ensures |updated| == |cards|
    ensures updated[index] == SetField(cards[index], field, value)
    ensures forall j | 0 <= j < |cards| && j != index :: updated[j] == cards[j]
  {
    var a := new DraftCard[|cards|](i requires 0 <= i < |cards| => cards[i]);
    a[index] := SetField(a[index], field, value);
    updated := a[..];
  }

  /** `flashcards.filter((_, i) => i !== index)`: the cards whose position is not `index`.
      Deleting removes exactly the card at `index` and keeps the others in order; an index
      outside the list deletes nothing. */
  function DeleteFlashcard(cards: seq<DraftCard>, index: int): (r: seq<DraftCard>)
    ensures 0 <= index < |cards| ==> r == cards[..index] + cards[index + 1..]
    ensures !(0 <= index < |cards|) ==> r == cards
  {
    if cards == [] then []
    else
      var rest := DeleteFlashcard(cards[1..], index - 1);
      if index == 0 then
        assert cards[index + 1..] == cards[1..];
        rest
      else if 0 < index < |cards| then
        assert cards[1..][..index - 1] == cards[1..index];
        assert cards[1..][index..] == cards[index + 1..];
        assert cards[..index] == [cards[0]] + cards[1..index];
        [cards[0]] + rest
      else
        assert cards == [cards[0]] + cards[1..];
        [cards[0]] + rest
  }

  /** `addFlashcard`: a blank card at the end. */
  function AddFlashcard(cards: seq<DraftCard>): (r: seq<DraftCard>)
    ensures |r| == |cards| + 1 && r[..|cards|] == cards
    ensures r[|cards|].term == "" && r[|cards|].definition == ""
  {
    cards + [DraftCard("", "")]
  }

  /** `s.filter(p)` */
  function Filter(s: seq<DraftCard>, p: DraftCard -> bool): (r: seq<DraftCard>)
    ensures |r| <= |s|
    ensures forall c | c in r :: c in s && p(c)
  {
    if s == [] then []
    else (if p(s[0]) then [s[0]] else []) + Filter(s[1..], p)
  }

  /** Filtering a concatenation filters each part, so the kept cards stay in list order. */
  lemma {:induction false} FilterConcat(a: seq<DraftCard>, b: seq<DraftCard>, p: DraftCard -> bool)
    ensures Filter(a + b, p) == Filter(a, p) + Filter(b, p)
  {
    if a == [] {
      assert a + b == b;
    } else {
      assert (a + b)[1..] == a[1..] + b;
      FilterConcat(a[1..], b, p);
    }
  }

  /** Every card of `s` that satisfies `p` is kept. */
  lemma {:induction false} FilterKeeps(s: seq<DraftCard>, p: DraftCard -> bool)
    ensures forall c | c in s && p(c) :: c in Filter(s, p)
  {
    if s != [] {
      FilterKeeps(s[1..], p);
      assert forall c | c in s :: c == s[0] || c in s[1..];
    }
  }

  /** A weaker filter keeps at least as many cards. */
  lemma {:induction false} FilterWeakerKeepsMore(s: seq<DraftCard>, p: DraftCard -> bool, q: DraftCard -> bool)
    requires forall c :: p(c) ==> q(c)
    ensures |Filter(s, p)| <= |Filter(s, q)|
  {
    if s != [] {
      FilterWeakerKeepsMore(s[1..], p, q);
    }
  }

  /** The save filter: both fields present and non-blank after trimming. */
  predicate IsValidCard(c: DraftCard) {
    c.term != "" && c.definition != "" && |Trim(c.term)| > 0 && |Trim(c.definition)| > 0
  }

  /** The filter of the save button's label: both fields present, with no trimming. */
  predicate HasBothFields(c: DraftCard) {
    c.term != "" && c.definition != ""
  }

  /** A card is saved exactly when neither field is made of whitespace only. */
  lemma IsValidCardIff(c: DraftCard)
    ensures IsValidCard(c) <==> !IsBlank(c.term) && !IsBlank(c.definition)
  {
    TrimEmptyIffBlank(c.term);
    TrimEmptyIffBlank(c.definition);
  }

  /** The drafts that are saved: exactly the valid ones. */
  function ValidFlashcards(cards: seq<DraftCard>): (r: seq<DraftCard>)
    ensures forall c :: c in r <==> c in cards && IsValidCard(c)
  {
    FilterKeeps(cards, IsValidCard);
    Filter(cards, IsValidCard)
  }

  /** The valid drafts are sent in list order: the saved list of a concatenation is the saved
      list of the first part followed by that of the second. */
  lemma ValidFlashcardsSpec(cards: seq<DraftCard>)
    ensures forall a, b | cards == a + b :: ValidFlashcards(cards) == ValidFlashcards(a) + ValidFlashcards(b)
  {
    forall a, b | cards == a + b
      ensures ValidFlashcards(cards) == ValidFlashcards(a) + ValidFlashcards(b)
    {
      FilterConcat(a, b, IsValidCard);
    }
  }

  /** Appending the blank card changes neither the cards that would be saved nor the count on
      the save button. */
  lemma AddKeepsValidCards(cards: seq<DraftCard>)
    ensures ValidFlashcards(AddFlashcard(cards)) == ValidFlashcards(cards)
    ensures |Filter(AddFlashcard(cards), HasBothFields)| == |Filter(cards, HasBothFields)|
  {
    FilterConcat(cards, [DraftCard("", "")], IsValidCard);
    FilterConcat(cards, [DraftCard("", "")], HasBothFields);
  }

  /** The count on the save button is never below the "Valid Cards" count. */
  lemma ButtonCountAtLeastValidCount(cards: seq<DraftCard>)
    ensures |ValidFlashcards(cards)| <= |Filter(cards, HasBothFields)|
  {
    FilterWeakerKeepsMore(cards, IsValidCard, HasBothFields);
  }

  /** The two counts can differ: a term made of a space counts on the save button but the card
      is not saved. */
  lemma SpaceTermCountsOnlyOnButton()
    ensures ValidFlashcards([DraftCard(" ", "x")]) == []
    ensures Filter([DraftCard(" ", "x")], HasBothFields) == [DraftCard(" ", "x")]
  {
    var c := DraftCard(" ", "x");
    IsValidCardIff(c);
    assert IsWhitespace(c.term[0]);
    assert [c][1..] == [];
  }

  const NoValidCards: string := "Please create at least one flashcard with both term and definition."

  datatype SaveOutcome =
    | NotSignedIn                         // nothing happens
    | SaveError(message: string)          // shown above the list; no request is made
    | SaveRequest(flashcards: seq<DraftCard>)

  /** `saveFlashcards` up to the request: nothing without a signed-in user, an error when no
      draft is valid, otherwise a request carrying exactly the valid drafts. */
  function SaveFlashcards(signedIn: bool, cards: seq<DraftCard>): (r: SaveOutcome)
    ensures !signedIn ==> r == NotSignedIn
    ensures signedIn && (forall c | c in cards :: !IsValidCard(c)) ==> r == SaveError(NoValidCards)
    ensures r.SaveRequest? ==>
      && signedIn && r.flashcards != []
      && (forall c | c in r.flashcards :: c in cards && !IsBlank(c.term) && !IsBlank(c.definition))
    ensures signedIn && (exists c | c in cards :: IsValidCard(c)) ==> r == SaveRequest(ValidFlashcards(cards))
  {
    ValidFlashcardsSpec(cards);
    forall c | c in ValidFlashcards(cards)
      ensures !IsBlank(c.term) && !IsBlank(c.definition)
    {
      IsValidCardIff(c);
    }
    var valid := ValidFlashcards(cards);
    assert |valid| > 0 ==> valid[0] in valid;
    if !signedIn then NotSignedIn
    else
      if |valid| == 0 then SaveError(NoValidCards)
      else SaveRequest(valid)
  }

  /** The save button's `disabled` attribute. */
  predicate SaveDisabled(saving: bool, cards: seq<DraftCard>) {
    saving || |cards| == 0
  }

  /** The button only looks at the length of the list, so it is enabled for a list holding just
      the blank card, and pressing it then shows the error instead of saving. */
  lemma EnabledSaveCanBeRefused()
    ensures !SaveDisabled(false, AddFlashcard([]))
    ensures SaveFlashcards(true, AddFlashcard([])) == SaveError(NoValidCards)
  {
    assert !IsValidCard(DraftCard("", ""));
  }
}
