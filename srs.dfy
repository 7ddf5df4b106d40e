/**
  The SM-2 style scheduler (backend/utils/srsAlgorithm.js): the rescheduling rule table, the
  selection of the cards due by the end of the current day, their count, and the
  load / reschedule / store step on one card.

  The current instant `now` and the local time-zone offset are parameters. Instants are in
  milliseconds; the ease factor is in hundredths.
 */
module Srs {
  import opened Wrappers
  import opened FlashcardModel

  /** `Math.ceil(n / d)` computed exactly. */
  function CeilDiv(n: int, d: int): (r: int)
    requires d > 0
    ensures (r - 1) * d < n <= r * d
  {
    var q := (-n) / d;
    assert -n == q * d + (-n) % d;
    -q
  }

  function Max(a: int, b: int): int { if a < b then b else a }

  function Min(a: int, b: int): int { if a < b then a else b }

  /** The object `calculateNextReview` returns. */
  datatype ReviewUpdate = ReviewUpdate(
    interval: int,
    easeFactor: int,
    repetitions: int,
    dueDate: int,
    lastReviewed: int)

  /** The rescheduling rule: 0 = Again, 1 = Hard, 2 = Good, 3 = Easy. Any other quality
      matches no branch and keeps interval, ease and repetitions. */
  function CalculateNextReview(quality: int, interval: int, easeFactor: int, repetitions: int, now: int)
    : (r: ReviewUpdate)
    ensures r.lastReviewed == now
    ensures r.dueDate == now + r.interval * DayMs
    ensures quality == 0 || quality == 1 ==> r.repetitions == 0
    ensures quality == 2 || quality == 3 ==> r.repetitions == repetitions + 1
    ensures !(0 <= quality <= 3) ==>
      r.interval == interval && r.easeFactor == easeFactor && r.repetitions == repetitions
  {
    var newRepetitions := if quality == 0 || quality == 1 then 0
      else if quality == 2 || quality == 3 then repetitions + 1
      else repetitions;
    var newInterval :=
      if quality == 0 then 1
      else if quality == 1 then Max(1, CeilDiv(interval * 12, 10))
      else if quality == 2 then
        (if newRepetitions == 1 then 1
         else if newRepetitions == 2 then 6
         else CeilDiv(interval * easeFactor, 100))
      else if quality == 3 then
        (if newRepetitions == 1 then 4
         else if newRepetitions == 2 then 6
         else CeilDiv(interval * easeFactor * 13, 1000))
      else interval;
    var newEaseFactor :=
      if quality == 0 then Max(MinEase, easeFactor - 20)
      else if quality == 1 then Max(MinEase, easeFactor - 15)
      else if quality == 3 then Min(MaxEase, easeFactor + 15)
      else easeFactor;
    ReviewUpdate(newInterval, newEaseFactor, newRepetitions, now + newInterval * DayMs, now)
  }

  /** Again: the learning restarts from a one-day interval, and the ease drops by 0.2 but
      never below 1.3. */
  lemma AgainResets(interval: int, easeFactor: int, repetitions: int, now: int)
    ensures var r := CalculateNextReview(0, interval, easeFactor, repetitions, now);
      && r.repetitions == 0 && r.interval == 1
      && r.easeFactor >= MinEase
      && (easeFactor - 20 >= MinEase ==> r.easeFactor == easeFactor - 20)
      && (easeFactor - 20 < MinEase ==> r.easeFactor == MinEase)
  {
  }

  /** Hard: the repetitions restart, the interval becomes the ceiling of 1.2 times the old one
      (one day for a non-positive interval), and the ease drops by 0.15 but never below 1.3. */
  lemma HardShortens(interval: int, easeFactor: int, repetitions: int, now: int)
    ensures var r := CalculateNextReview(1, interval, easeFactor, repetitions, now);
      && r.repetitions == 0
      && (interval >= 1 ==> (r.interval - 1) * 10 < interval * 12 <= r.interval * 10)
      && (interval <= 0 ==> r.interval == 1)
      && r.easeFactor >= MinEase
      && (easeFactor - 15 >= MinEase ==> r.easeFactor == easeFactor - 15)
      && (easeFactor - 15 < MinEase ==> r.easeFactor == MinEase)
  {
  }

  /** Good: one more repetition, ease untouched (no clamping), and the interval is 1 day after
      the first success, 6 days after the second, and afterwards the ceiling of the old interval
      times the ease factor. */
  lemma GoodProgresses(interval: int, easeFactor: int, repetitions: int, now: int)
    ensures var r := CalculateNextReview(2, interval, easeFactor, repetitions, now);
      && r.repetitions == repetitions + 1
      && r.easeFactor == easeFactor
      && (repetitions == 0 ==> r.interval == 1)
      && (repetitions == 1 ==> r.interval == 6)
      && (repetitions != 0 && repetitions != 1 ==>
            (r.interval - 1) * 100 < interval * easeFactor <= r.interval * 100)
  {
  }

  /** Easy: one more repetition, the interval is 4 days after the first success, 6 after the
      second and afterwards the ceiling of interval * ease * 1.3; the ease rises by 0.15 but
      never above 2.5. */
  lemma EasyProgresses(interval: int, easeFactor: int, repetitions: int, now: int)
    ensures var r := CalculateNextReview(3, interval, easeFactor, repetitions, now);
      && r.repetitions == repetitions + 1
      && (repetitions == 0 ==> r.interval == 4)
      && (repetitions == 1 ==> r.interval == 6)
      && (repetitions != 0 && repetitions != 1 ==>
            (r.interval - 1) * 1000 < interval * easeFactor * 13 <= r.interval * 1000)
      && r.easeFactor <= MaxEase
      && (easeFactor + 15 <= MaxEase ==> r.easeFactor == easeFactor + 15)
      && (easeFactor + 15 > MaxEase ==> r.easeFactor == MaxEase)
  {
  }

  /** `a * b >= a * c` for a positive `a` and `b >= c`. */
  lemma MulMonotone(a: int, b: int, c: int)
    requires a >= 1 && b >= c
    ensures a * b >= a * c
  {
    assert a * b - a * c == a * (b - c);
  }

  /** A card whose interval is at least a day and whose ease lies in [1.3, 2.5] keeps both
      properties after a review of any quality. */
  lemma NextReviewKeepsBounds(quality: int, interval: int, easeFactor: int, repetitions: int, now: int)
    requires interval >= 1 && MinEase <= easeFactor <= MaxEase && repetitions >= 0
    ensures var r := CalculateNextReview(quality, interval, easeFactor, repetitions, now);
      r.interval >= 1 && MinEase <= r.easeFactor <= MaxEase && r.repetitions >= 0
  {
    MulMonotone(interval, easeFactor, MinEase);
    MulMonotone(interval, MinEase, 1);
  }

  /** After the two learning steps, a Good or Easy review strictly lengthens the interval of a
      well-scheduled card. */
  lemma SuccessLengthensInterval(quality: int, interval: int, easeFactor: int, repetitions: int, now: int)
    requires quality == 2 || quality == 3
    requires interval >= 1 && MinEase <= easeFactor <= MaxEase && repetitions >= 2
    ensures CalculateNextReview(quality, interval, easeFactor, repetitions, now).interval > interval
  {
    MulMonotone(interval, easeFactor, MinEase);
    var r := CalculateNextReview(quality, interval, easeFactor, repetitions, now);
    if quality == 2 {
      assert r.interval * 100 >= interval * 130;
    } else {
      assert r.interval * 1000 >= interval * 130 * 13;
    }
  }

  /** For the same card, Easy never schedules the next review sooner than Good. */
  lemma EasyNoSoonerThanGood(interval: int, easeFactor: int, repetitions: int, now: int)
    requires interval >= 0 && easeFactor >= 0
    ensures CalculateNextReview(3, interval, easeFactor, repetitions, now).interval
         >= CalculateNextReview(2, interval, easeFactor, repetitions, now).interval
  {
    var n := interval * easeFactor;
    assert n >= 0 by {
      if interval > 0 { MulMonotone(interval, easeFactor, 0); }
    }
    assert n * 13 == interval * easeFactor * 13;
    var a := CeilDiv(n * 13, 1000);
    var b := CeilDiv(n, 100);
    assert a * 100 >= n;
    assert b <= a;
  }

  /** For a card whose ease lies in [1.3, 2.5], a better rating never yields a lower ease. */
  lemma EaseOrderedByQuality(interval: int, easeFactor: int, repetitions: int, now: int)
    requires MinEase <= easeFactor <= MaxEase
    ensures CalculateNextReview(0, interval, easeFactor, repetitions, now).easeFactor
         <= CalculateNextReview(1, interval, easeFactor, repetitions, now).easeFactor
         <= CalculateNextReview(2, interval, easeFactor, repetitions, now).easeFactor
         <= CalculateNextReview(3, interval, easeFactor, repetitions, now).easeFactor
  {
  }

  /** Worked examples: (6 days, 2.5, 2) rated Good gives 15 days; a fresh card rated Again
      gives ease 2.3; a fresh card rated Easy gives 4 days with the ease held at 2.5. */
  lemma WorkedExamples(now: int)
    ensures var r := CalculateNextReview(2, 6, 250, 2, now);
      r.interval == 15 && r.repetitions == 3 && r.easeFactor == 250
    ensures var r := CalculateNextReview(0, 1, 250, 0, now);
      r.interval == 1 && r.repetitions == 0 && r.easeFactor == 230
    ensures var r := CalculateNextReview(3, 1, 250, 0, now);
      r.interval == 4 && r.repetitions == 1 && r.easeFactor == 250
  {
  }

  // ---------------------------------------------------------------------------------------
  // The due set

  /** `today.setHours(23, 59, 59, 999)`: the last millisecond of the local calendar day that
      contains `now`, where `tzOffset` is local time minus UTC in milliseconds. */
  function EndOfDay(now: int, tzOffset: int): (t: int)
    ensures now <= t < now + DayMs
    ensures (t + tzOffset) / DayMs == (now + tzOffset) / DayMs
    ensures (t + 1 + tzOffset) / DayMs == (now + tzOffset) / DayMs + 1
  {
    var local := now + tzOffset;
    var day := local / DayMs;
    assert local == day * DayMs + local % DayMs;
    var t := day * DayMs + DayMs - 1 - tzOffset;
    assert (day * DayMs + DayMs - 1) / DayMs == day;
    assert (day * DayMs + DayMs) / DayMs == day + 1;
    t
  }

  /** The query `{ user_id: userId, dueDate: { $lte: cutoff } }`. */
  predicate IsDue(c: Card, userId: string, cutoff: int) {
    c.userId == userId && c.dueDate <= cutoff
  }

  /** The documents that match the query, in collection order. */
  function SelectDue(cards: seq<Card>, userId: string, cutoff: int): (r: seq<Card>)
    ensures |r| <= |cards|
    ensures forall c :: c in r <==> c in cards && IsDue(c, userId, cutoff)
  {
    if cards == [] then []
    else (if IsDue(cards[0], userId, cutoff) then [cards[0]] else []) + SelectDue(cards[1..], userId, cutoff)
  }

  predicate SortedByDueDate(s: seq<Card>) {
    forall i, j | 0 <= i < j < |s| :: s[i].dueDate <= s[j].dueDate
  }

  /** A card due no later than the head of a sorted list can go in front of it. */
  lemma ConsSorted(x: Card, t: seq<Card>)
    requires SortedByDueDate(t)
    requires t == [] || x.dueDate <= t[0].dueDate
    ensures SortedByDueDate([x] + t)
  {
    forall i, j | 0 <= i < j < |[x] + t|
      ensures ([x] + t)[i].dueDate <= ([x] + t)[j].dueDate
    {
      if i > 0 {
        assert ([x] + t)[i] == t[i - 1];
      }
    }
  }

  function InsertByDueDate(c: Card, s: seq<Card>): (r: seq<Card>)
    requires SortedByDueDate(s)
    ensures |r| == |s| + 1
    ensures SortedByDueDate(r)
    ensures multiset(r) == multiset(s) + multiset{c}
    ensures r[0] == c || (s != [] && r[0] == s[0])
  {
    if s == [] || c.dueDate <= s[0].dueDate then
      ConsSorted(c, s);
      [c] + s
    else
      var rest := InsertByDueDate(c, s[1..]);
      assert s == [s[0]] + s[1..];
      assert s[0].dueDate <= rest[0].dueDate;
      ConsSorted(s[0], rest);
      assert multiset(s) == multiset{s[0]} + multiset(s[1..]);
      assert multiset([s[0]] + rest) == multiset{s[0]} + multiset(rest);
      [s[0]] + rest
  }

  /** `.sort({ dueDate: 1 })`: ascending by due date (the order among equal due dates is
      the database's and is not promised). */
  function SortByDueDate(s: seq<Card>): (r: seq<Card>)
    ensures SortedByDueDate(r)
    ensures multiset(r) == multiset(s)
  {
    if s == [] then []
    else
      assert s == [s[0]] + s[1..];
      InsertByDueDate(s[0], SortByDueDate(s[1..]))
  }

  /** `getDueFlashcards`: the user's cards due by the end of today, oldest due first. */
  function GetDueFlashcards(cards: seq<Card>, userId: string, now: int, tzOffset: int): (r: seq<Card>)
    ensures SortedByDueDate(r)
    ensures multiset(r) == multiset(SelectDue(cards, userId, EndOfDay(now, tzOffset)))
    ensures forall c :: c in r <==> c in cards && IsDue(c, userId, EndOfDay(now, tzOffset))
  {
    var due := SelectDue(cards, userId, EndOfDay(now, tzOffset));
    var r := SortByDueDate(due);
    assert forall c :: c in r <==> c in multiset(due);
    r
  }

  /** `countDocuments` over the same query. */
  function CountDue(cards: seq<Card>, userId: string, cutoff: int): (r: nat)
    ensures r <= |cards|
    ensures r == 0 <==> forall i | 0 <= i < |cards| :: !IsDue(cards[i], userId, cutoff)
  {
    if cards == [] then 0
    else
      var rest := CountDue(cards[1..], userId, cutoff);
      assert forall i | 1 <= i < |cards| :: cards[i] == cards[1..][i - 1];
      (if IsDue(cards[0], userId, cutoff) then 1 else 0) + rest
  }

  /** `getDueCount`: zero exactly when none of the user's cards is due by the end of the local
      day, and never more than the number of cards. */
  function GetDueCount(cards: seq<Card>, userId: string, now: int, tzOffset: int): (r: nat)
    ensures r <= |cards|
    ensures r == 0 <==> forall c | c in cards :: !IsDue(c, userId, EndOfDay(now, tzOffset))
  {
    CountDue(cards, userId, EndOfDay(now, tzOffset))
  }

  lemma {:induction false} CountDueIsSelectionSize(cards: seq<Card>, userId: string, cutoff: int)
    ensures CountDue(cards, userId, cutoff) == |SelectDue(cards, userId, cutoff)|
  {
    if cards != [] {
      CountDueIsSelectionSize(cards[1..], userId, cutoff);
    }
  }

  /** The due count is the length of the due list for the same instant. */
  lemma DueCountIsDueSetSize(cards: seq<Card>, userId: string, now: int, tzOffset: int)
    ensures GetDueCount(cards, userId, now, tzOffset) == |GetDueFlashcards(cards, userId, now, tzOffset)|
  {
    var due := SelectDue(cards, userId, EndOfDay(now, tzOffset));
    CountDueIsSelectionSize(cards, userId, EndOfDay(now, tzOffset));
    assert |multiset(GetDueFlashcards(cards, userId, now, tzOffset))| == |multiset(due)|;
  }

  /** Every card of the user due at or before `now` is in the due list, and no card due after
      the last millisecond of the local day is. */
  lemma DueSetBoundaries(cards: seq<Card>, userId: string, now: int, tzOffset: int, c: Card)
    requires c in cards && c.userId == userId
    ensures c.dueDate <= now ==> c in GetDueFlashcards(cards, userId, now, tzOffset)
    ensures c.dueDate <= EndOfDay(now, tzOffset) ==> c in GetDueFlashcards(cards, userId, now, tzOffset)
    ensures c.dueDate >= now + DayMs ==> c !in GetDueFlashcards(cards, userId, now, tzOffset)
  {
  }

  // ---------------------------------------------------------------------------------------
  // updateFlashcard

  /** The stored card after `findByIdAndUpdate(id, calculateNextReview(...))`. */
  function ApplyReview(c: Card, quality: int, now: int): (r: Card)
    ensures r.id == c.id && r.userId == c.userId && r.term == c.term && r.definition == c.definition
    ensures r.lastReviewed == Some(now)
    ensures var u := CalculateNextReview(quality, c.interval, c.easeFactor, c.repetitions, now);
      r.interval == u.interval && r.easeFactor == u.easeFactor && r.repetitions == u.repetitions
      && r.dueDate == u.dueDate
  {
    var u := CalculateNextReview(quality, c.interval, c.easeFactor, c.repetitions, now);
    c.(interval := u.interval, easeFactor := u.easeFactor, repetitions := u.repetitions,
       dueDate := u.dueDate, lastReviewed := Some(u.lastReviewed))
  }

  /** A card just reviewed is not due again before the end of today. */
  lemma ReviewedCardNotDueToday(c: Card, quality: int, now: int, tzOffset: int)
    requires WellScheduled(c)
    ensures WellScheduled(ApplyReview(c, quality, now))
    ensures ApplyReview(c, quality, now).dueDate > EndOfDay(now, tzOffset)
  {
    NextReviewKeepsBounds(quality, c.interval, c.easeFactor, c.repetitions, now);
  }

  const NotFound: string := "Flashcard not found"

  /** `updateFlashcard`: load the card, compute its next review, store the result. */
  method UpdateFlashcard(store: FlashcardStore, id: CardId, quality: int, now: int)
    returns (r: Result<Card, string>)
    requires store.Valid()
    modifies store
    ensures store.Valid()
    ensures id !in old(store.cards) ==> r == Failure(NotFound) && store.cards == old(store.cards)
    ensures id in old(store.cards) ==>
      && r == Success(ApplyReview(old(store.cards)[id], quality, now))
      && store.cards == old(store.cards)[id := r.value]
    ensures (forall k | k in old(store.cards) :: WellScheduled(old(store.cards)[k])) ==>
      forall k | k in store.cards :: WellScheduled(store.cards[k])
  {
    if id !in store.cards {
      return Failure(NotFound);
    }
    var flashcard := store.cards[id];
    var updated := ApplyReview(flashcard, quality, now);
    if WellScheduled(flashcard) {
      ReviewedCardNotDueToday(flashcard, quality, now, 0);
    }
    store.cards := store.cards[id := updated];
    r := Success(updated);
  }
}
