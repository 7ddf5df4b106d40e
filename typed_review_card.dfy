/**
  The typed-answer review card of frontend/src/components/TypedReviewCard.js: the question it
  asks, the class of the result banner, and the flags that decide when an answer can be sent,
  when a manual grade can be sent, and when the card reports its review as complete.

  Each asynchronous handler is split at its `await`: a `Handle...` step runs up to the request
  and a `Receive...Response` step runs the rest once the outcome (success, server error or
  network error) is known; each step is atomic.
 */
module TypedReviewCard {
  import opened Wrappers
  import opened Text

  /** The fields of `flashcard` that the card reads. */
  datatype Question = Question(prompt: string, question: string, correctAnswer: string)

  const RecognitionPrompt: string := "What is the definition of:"
  const RecallPrompt: string := "What term matches this definition:"

  /** `getQuestion`: the "recognition" review type shows the term and expects the definition;
      every other type, an absent one included, shows the definition and expects the term. */
  function GetQuestion(reviewType: Option<string>, term: string, definition: string): (r: Question)
    ensures reviewType == Some("recognition") ==>
      r == Question(RecognitionPrompt, term, definition)
    ensures reviewType != Some("recognition") ==>
      r == Question(RecallPrompt, definition, term)
  {
    if reviewType == Some("recognition") then Question(RecognitionPrompt, term, definition)
    else Question(RecallPrompt, definition, term)
  }

  /** The two directions mirror each other: what one shows the other expects, and each shows one
      side of the card and expects the other. */
  lemma QuestionDirectionsMirror(reviewType: Option<string>, term: string, definition: string)
    requires reviewType != Some("recognition")
    ensures GetQuestion(reviewType, term, definition).question == GetQuestion(Some("recognition"), term, definition).correctAnswer
    ensures GetQuestion(reviewType, term, definition).correctAnswer == GetQuestion(Some("recognition"), term, definition).question
    ensures forall rt: Option<string> ::
      multiset{GetQuestion(rt, term, definition).question, GetQuestion(rt, term, definition).correctAnswer}
        == multiset{term, definition}
  {
  }

  /** The score the AI scoring service attached to an answer. */
  datatype AiScore = AiScore(quality: int)

  /** The AI scoring service's verdict on a typed answer. */
  datatype ReviewResult = ReviewResult(aiScore: Option<AiScore>, userAnswer: string, correctAnswer: string)

  /** The banner classes, from the lowest quality to the highest. */
  const ResultClasses: seq<string> := ["result-incorrect", "result-partial", "result-correct", "result-excellent"]

  /** `getResultClass` */
  function GetResultClass(result: Option<ReviewResult>): (r: string)
    ensures result.None? || result.value.aiScore.None? ==> r == ""
    ensures result.Some? && result.value.aiScore.Some? ==> r in ResultClasses
  {
    if result.None? || result.value.aiScore.None? then ""
    else
      var quality := result.value.aiScore.value.quality;
      if quality >= 3 then "result-excellent"
      else if quality >= 2 then "result-correct"
      else if quality >= 1 then "result-partial"
      else "result-incorrect"
  }

  /** The position of a banner class in `ResultClasses`. */
  function ClassRank(c: string): int {
    if c == ResultClasses[3] then 3
    else if c == ResultClasses[2] then 2
    else if c == ResultClasses[1] then 1
    else 0
  }

  /** A quality clamped to the range 0..3 of the banner classes. */
  function ClampQuality(q: int): int {
    if q < 0 then 0 else if q > 3 then 3 else q
  }

  /** The class of a scored result depends on its quality alone: the four qualities 0 to 3 get
      the four classes in order, qualities above 3 count as 3 and qualities below 0 as 0. */
  lemma ResultClassTable(r: ReviewResult)
    requires r.aiScore.Some?
    ensures 0 <= r.aiScore.value.quality <= 3 ==> GetResultClass(Some(r)) == ResultClasses[r.aiScore.value.quality]
    ensures r.aiScore.value.quality > 3 ==> GetResultClass(Some(r)) == ResultClasses[3]
    ensures r.aiScore.value.quality < 0 ==> GetResultClass(Some(r)) == ResultClasses[0]
    ensures ClassRank(GetResultClass(Some(r))) == ClampQuality(r.aiScore.value.quality)
  {
  }

  /** A better score never gets a worse banner, whatever the two answers were. */
  lemma ResultClassMonotone(r1: ReviewResult, r2: ReviewResult)
    requires r1.aiScore.Some? && r2.aiScore.Some?
    requires r1.aiScore.value.quality <= r2.aiScore.value.quality
    ensures ClassRank(GetResultClass(Some(r1))) <= ClassRank(GetResultClass(Some(r2)))
  {
    ResultClassTable(r1);
    ResultClassTable(r2);
  }

  /** What the component is waiting for. */
  datatype Pending =
    | Idle
    | AnswerPending(answer: string)     // the trimmed answer sent for scoring
    | OverridePending(quality: int)     // the manual grade sent

  /** How a request ended: a 2xx response, a response with an error status (and possibly an
      `error` field), or a failed fetch. */
  datatype Outcome<T> = Ok(value: T) | ServerError(error: Option<string>) | NetworkError

  /** The body of a successful reply to the override request, kept as its JSON text: the card
      passes it on without reading it. */
  datatype OverrideReply = OverrideReply(json: string)

  /** What `onReviewComplete` was called with: the scored answer, or the override reply. */
  datatype Completion =
    | AnswerAccepted(result: ReviewResult)
    | QualityOverridden(reply: OverrideReply)

  const SubmitFailed: string := "Failed to submit answer"
  const OverrideFailed: string := "Failed to update quality"
  const NetworkFailed: string := "Network error occurred"

  /** The keys that do not continue from a shown result. */
  const IgnoredKeys: seq<string> := ["Tab", "Shift", "Control", "Alt", "Meta"]

  /** The message passed to `onError` for a failed request. */
  function FailureMessage<T>(outcome: Outcome<T>, fallback: string): (m: string)
    requires !outcome.Ok?
    ensures outcome.NetworkError? ==> m == NetworkFailed
    ensures outcome.ServerError? && (outcome.error.None? || outcome.error == Some("")) ==> m == fallback
    ensures outcome.ServerError? && outcome.error.Some? && outcome.error.value != "" ==> m == outcome.error.value
  {
    match outcome
    case ServerError(e) => if e.None? || e.value == "" then fallback else e.value
    case NetworkError => NetworkFailed
  }

  class ReviewCard {
    var userAnswer: string
    var showResult: bool
    var reviewResult: Option<ReviewResult>
    var isSubmitting: bool
    var hasCompleted: bool
    var showManualOverride: bool
    /** The request in flight, if any. */
    var pending: Pending
    /** The calls made to `onReviewComplete` for the current card, in order. */
    var reported: seq<Completion>
    /** The calls made to `onError`, in order. */
    var errorsReported: seq<string>

    /** `isSubmitting` is set exactly while a request is in flight; the card reports completion
        at most once, and has reported exactly when it is completed; nothing is in flight once
        it is completed; a shown result has a verdict to show. */
    ghost predicate Valid()
      reads this
    {
      && (isSubmitting <==> pending != Idle)
      && |reported| <= 1
      && (|reported| == 1 <==> hasCompleted)
      && (isSubmitting ==> !hasCompleted)
      && (showResult ==> reviewResult.Some?)
    }

    /** The state of a card that was just shown. */
    ghost predicate Fresh()
      reads this
    {
      && userAnswer == "" && !showResult && reviewResult == None && !isSubmitting
      && !hasCompleted && !showManualOverride && pending == Idle && reported == []
    }

    constructor ()
      ensures Valid() && Fresh() && errorsReported == []
    {
      userAnswer := "";
      showResult := false;
      reviewResult := None;
      isSubmitting := false;
      hasCompleted := false;
      showManualOverride := false;
      pending := Idle;
      reported := [];
      errorsReported := [];
    }

    /** The effect on `flashcard._id`: a new card starts with every flag cleared and an empty
        answer. */
    method ResetForCard()
      modifies this
      ensures Valid() && Fresh()
      ensures errorsReported == old(errorsReported)
    {
      userAnswer := "";
      showResult := false;
      reviewResult := None;
      isSubmitting := false;
      hasCompleted := false;
      showManualOverride := false;
      pending := Idle;
      reported := [];
    }

    /** Typing into the answer field, which is shown only before a result and is disabled while
        a request is in flight. */
    method SetUserAnswer(answer: string)
      requires Valid()
      modifies this
      ensures Valid()
      ensures userAnswer == (if old(!showResult && !isSubmitting) then answer else old(userAnswer))
      ensures showResult == old(showResult) && reviewResult == old(reviewResult)
      ensures isSubmitting == old(isSubmitting) && hasCompleted == old(hasCompleted)
      ensures showManualOverride == old(showManualOverride) && pending == old(pending)
      ensures reported == old(reported) && errorsReported == old(errorsReported)
    {
      if !showResult && !isSubmitting {
        userAnswer := answer;
      }
    }

    /** `handleSubmitAnswer` up to the request: nothing happens without a signed-in user, while
        a request is in flight, with a blank answer, or once the card is completed; otherwise
        the trimmed answer is sent. */
    method HandleSubmitAnswer(signedIn: bool) returns (sent: Option<string>)
      requires Valid()
      modifies this
      ensures Valid()
      ensures old(!signedIn || isSubmitting || IsBlank(userAnswer) || hasCompleted) ==>
        sent == None && unchanged(this)
      ensures old(signedIn && !isSubmitting && !IsBlank(userAnswer) && !hasCompleted) ==>
        && sent == Some(Trim(old(userAnswer)))
        && isSubmitting && pending == AnswerPending(Trim(old(userAnswer)))
        && userAnswer == old(userAnswer) && showResult == old(showResult)
        && reviewResult == old(reviewResult) && hasCompleted == old(hasCompleted)
        && showManualOverride == old(showManualOverride)
        && reported == old(reported) && errorsReported == old(errorsReported)
    {
      var trimmed := Trim(userAnswer);
      TrimEmptyIffBlank(userAnswer);
      if !signedIn || isSubmitting || trimmed == "" || hasCompleted {
        return None;
      }
      isSubmitting := true;
      pending := AnswerPending(trimmed);
      sent := Some(trimmed);
    }

    /** The rest of `handleSubmitAnswer`: a scored answer is shown, a failure is passed to
        `onError`, and in every case the request is over. */
    method ReceiveAnswerResponse(outcome: Outcome<ReviewResult>)
      requires Valid() && pending.AnswerPending?
      modifies this
      ensures Valid()
      ensures !isSubmitting && pending == Idle
      ensures outcome.Ok? ==>
        && reviewResult == Some(outcome.value) && showResult
        && errorsReported == old(errorsReported)
      ensures !outcome.Ok? ==>
        && reviewResult == old(reviewResult) && showResult == old(showResult)
        && errorsReported == old(errorsReported) + [FailureMessage(outcome, SubmitFailed)]
      ensures userAnswer == old(userAnswer) && hasCompleted == old(hasCompleted)
      ensures showManualOverride == old(showManualOverride) && reported == old(reported)
    {
      if outcome.Ok? {
        reviewResult := Some(outcome.value);
        showResult := true;
      } else {
        errorsReported := errorsReported + [FailureMessage(outcome, SubmitFailed)];
      }
      isSubmitting := false;
      pending := Idle;
    }

    /** The answer field's Enter key: submits only before a result is shown and while nothing
        is in flight. */
    method HandleEnterKey(key: string, signedIn: bool) returns (sent: Option<string>)
      requires Valid()
      modifies this
      ensures Valid()
      ensures old(key != "Enter" || showResult || isSubmitting) ==> sent == None && unchanged(this)
      ensures old(key == "Enter" && !showResult && !isSubmitting) ==>
        sent == (if old(signedIn && !IsBlank(userAnswer) && !hasCompleted) then Some(Trim(old(userAnswer))) else None)
      ensures sent.None? ==> unchanged(this)
      ensures sent.Some? ==>
        && isSubmitting && pending == AnswerPending(sent.value)
        && userAnswer == old(userAnswer) && showResult == old(showResult)
        && reviewResult == old(reviewResult) && hasCompleted == old(hasCompleted)
        && showManualOverride == old(showManualOverride)
        && reported == old(reported) && errorsReported == old(errorsReported)
    {
      if key == "Enter" && !showResult && !isSubmitting {
        sent := HandleSubmitAnswer(signedIn);
      } else {
        sent := None;
      }
    }

    /** `handleQualityOverride` up to the request: nothing happens while a request is in flight
        or once the card is completed; otherwise the grade is sent. */
    method HandleQualityOverride(quality: int) returns (sent: Option<int>)
      requires Valid()
      modifies this
      ensures Valid()
      ensures old(isSubmitting || hasCompleted) ==> sent == None && unchanged(this)
      ensures old(!isSubmitting && !hasCompleted) ==>
        && sent == Some(quality) && isSubmitting && pending == OverridePending(quality)
        && userAnswer == old(userAnswer) && showResult == old(showResult)
        && reviewResult == old(reviewResult) && hasCompleted == old(hasCompleted)
        && showManualOverride == old(showManualOverride)
        && reported == old(reported) && errorsReported == old(errorsReported)
    {
      if isSubmitting || hasCompleted {
        return None;
      }
      isSubmitting := true;
      pending := OverridePending(quality);
      sent := Some(quality);
    }

    /** The rest of `handleQualityOverride`: on success the card is marked completed and the
        server's reply is reported, once; a failure is passed to `onError`; in every case the request is over. */
    method ReceiveOverrideResponse(outcome: Outcome<OverrideReply>)
      requires Valid() && pending.OverridePending?
      modifies this
      ensures Valid()
      ensures !isSubmitting && pending == Idle
      ensures outcome.Ok? ==>
        && hasCompleted
        && reported == [QualityOverridden(outcome.value)]
        && errorsReported == old(errorsReported)
      ensures !outcome.Ok? ==>
        && hasCompleted == old(hasCompleted) && reported == old(reported)
        && errorsReported == old(errorsReported) + [FailureMessage(outcome, OverrideFailed)]
      ensures userAnswer == old(userAnswer) && showResult == old(showResult)
      ensures reviewResult == old(reviewResult) && showManualOverride == old(showManualOverride)
    {
      if outcome.Ok? {
        hasCompleted := true;
        reported := reported + [QualityOverridden(outcome.value)];
      } else {
        errorsReported := errorsReported + [FailureMessage(outcome, OverrideFailed)];
      }
      isSubmitting := false;
      pending := Idle;
    }

    /** `handleContinue`: reports the scored answer, once, if there is one and the card is not
        yet completed. Its only caller, the key listener, calls it when nothing is in flight. */
    method HandleContinue()
      requires Valid() && !isSubmitting
      modifies this
      ensures Valid()
      ensures old(reviewResult.Some? && !hasCompleted) ==>
        && hasCompleted && reported == [AnswerAccepted(old(reviewResult).value)]
      ensures old(reviewResult.None? || hasCompleted) ==> reported == old(reported)
      ensures hasCompleted == (old(hasCompleted) || old(reviewResult).Some?)
      ensures userAnswer == old(userAnswer) && showResult == old(showResult)
      ensures reviewResult == old(reviewResult) && isSubmitting == old(isSubmitting)
      ensures showManualOverride == old(showManualOverride) && pending == old(pending)
      ensures errorsReported == old(errorsReported)
    {
      if reviewResult.Some? && !hasCompleted {
        hasCompleted := true;
        reported := reported + [AnswerAccepted(reviewResult.value)];
      }
    }

    /** The document key listener: continues only when a result is shown, the manual-grade
        panel is closed, nothing is in flight, the card is not completed, and the key is not
        one of Tab, Shift, Control, Alt and Meta. */
    method HandleKeyDown(key: string) returns (continued: bool)
      requires Valid()
      modifies this
      ensures Valid()
      ensures continued <==> old(showResult && !showManualOverride && !isSubmitting && !hasCompleted) && key !in IgnoredKeys
      ensures continued ==>
        && hasCompleted && reported == [AnswerAccepted(old(reviewResult).value)]
        && userAnswer == old(userAnswer) && showResult == old(showResult)
        && reviewResult == old(reviewResult) && isSubmitting == old(isSubmitting)
        && showManualOverride == old(showManualOverride) && pending == old(pending)
        && errorsReported == old(errorsReported)
      ensures !continued ==> unchanged(this)
    {
      continued := showResult && !showManualOverride && !isSubmitting && !hasCompleted && key !in IgnoredKeys;
      if continued {
        HandleContinue();
      }
    }

    /** The "Manual Grade" button, disabled while a request is in flight or once the card is
        completed. */
    method OpenManualGrade()
      requires Valid()
      modifies this
      ensures Valid()
      ensures showManualOverride == (old(showManualOverride) || old(!isSubmitting && !hasCompleted))
      ensures userAnswer == old(userAnswer) && showResult == old(showResult)
      ensures reviewResult == old(reviewResult) && isSubmitting == old(isSubmitting)
      ensures hasCompleted == old(hasCompleted) && pending == old(pending)
      ensures reported == old(reported) && errorsReported == old(errorsReported)
    {
      if !isSubmitting && !hasCompleted {
        showManualOverride := true;
      }
    }

    /** The "Cancel" button of the manual-grade panel, disabled like "Manual Grade". */
    method CancelManualGrade()
      requires Valid()
      modifies this
      ensures Valid()
      ensures showManualOverride == (old(showManualOverride) && old(isSubmitting || hasCompleted))
      ensures userAnswer == old(userAnswer) && showResult == old(showResult)
      ensures reviewResult == old(reviewResult) && isSubmitting == old(isSubmitting)
      ensures hasCompleted == old(hasCompleted) && pending == old(pending)
      ensures reported == old(reported) && errorsReported == old(errorsReported)
    {
      if !isSubmitting && !hasCompleted {
        showManualOverride := false;
      }
    }
  }

  /** Completion is reported at most once per card: once the card is completed, a key press, a
      manual grade, a continue or another submit reports nothing more and sends nothing. */
  method CompletedCardReportsNothingMore(card: ReviewCard, key: string, quality: int, signedIn: bool)
    requires card.Valid() && card.hasCompleted
    modifies card
    ensures card.Valid() && card.hasCompleted
    ensures card.reported == old(card.reported) && |card.reported| == 1
  {
    var continued := card.HandleKeyDown(key);
    assert !continued;
    var graded := card.HandleQualityOverride(quality);
    assert graded == None;
    card.HandleContinue();
    var sent := card.HandleSubmitAnswer(signedIn);
    assert sent == None;
  }
}
