# ai-flashcards: a Dafny model of the scheduler and the validators

This project models the core of the ai-flashcards study app in Dafny and proves properties of
that model. The core has six parts:

- **The SM-2 style rescheduler** (`Srs.CalculateNextReview`). It maps a rating (0 = Again,
  1 = Hard, 2 = Good, 3 = Easy) and a card's interval, ease factor and repetition count to
  the card's next schedule.
- **The due set and due count** (`Srs.GetDueFlashcards`, `Srs.GetDueCount`) and the
  load / reschedule / store step on one stored card (`Srs.UpdateFlashcard`).
- **The flashcard request handlers** (`FlashcardController`). This covers the missing-field
  check and the status codes for malformed and unknown ids.
- **The form checks of the web client.** These are sign-up (`Signup`), reset password
  (`ResetPassword`), forgot password (`ForgotPassword`), the document upload file check
  (`DocumentUpload`) and the editor for generated flashcards (`FlashcardEditor`).
- **The typed-answer review card** (`TypedReviewCard.ReviewCard`). This is a class whose
  methods move its flags the way the component's handlers do.
- **Shared pieces.** `Text` models the JavaScript string behaviour the checks rely on: `trim`,
  `\s`, the character classes, the e-mail pattern `^\S+@\S+\.\S+$` and `join`. `Wrappers`
  holds `Option` and `Result`. `FlashcardModel` holds the card record and the card store.

Units and representations:

- Ease factors are integer hundredths (2.5 is 250).
- `Math.ceil` is exact ceiling division (`Srs.CeilDiv`).
- Instants are integer milliseconds.
- The current instant and the local time-zone offset are parameters.
- Network outcomes are parameters of the step that receives them.

Behaviour of the code that the model keeps:

- **Out-of-range rating.** A rating outside 0..3 is not rejected. It matches no branch, so
  interval, ease and repetitions are kept and only the due date and the last-review time
  change.
- **Good does not clamp the ease.** A Good rating leaves the ease exactly as it was, with no
  clamping to [1.3, 2.5].
- **The due cutoff is the end of the local day, not `now`.** A card due one second after `now`
  is therefore due when that second falls on the same day.
- **Ties in the due list.** Cards with equal due dates come back in the database's order. No
  secondary sort key is applied.
- **The schema lacks the scheduling fields.** The card schema in
  `backend/models/flashcardModel.js` declares only term, definition and owner. The model gives
  a new card the scheduling fields the scheduler expects: interval 1, ease 2.5,
  0 repetitions, due now, never reviewed (`FlashcardModel.NewCard`).

## Model

| member | source | states |
|---|---|---|
| Srs.CeilDiv | backend/utils/srsAlgorithm.js:26 | the result is the least integer r with n <= r*d, i.e. the exact `Math.ceil(n / d)` |
| Srs.CalculateNextReview | backend/utils/srsAlgorithm.js:12-67 | last review is `now`; the due date is `now` plus the new interval in days; Again/Hard reset repetitions to 0, Good/Easy add one; a rating outside 0..3 keeps interval, ease and repetitions |
| Srs.AgainResets | backend/utils/srsAlgorithm.js:18-22 | Again: repetitions 0, interval 1 day, ease lowered by 0.2 but never below 1.3 (both sides of the clamp) |
| Srs.HardShortens | backend/utils/srsAlgorithm.js:24-28 | Hard: repetitions 0, interval is the ceiling of 1.2 times the old one (at least 1 day), ease lowered by 0.15 but never below 1.3 |
| Srs.GoodProgresses | backend/utils/srsAlgorithm.js:30-40 | Good: one more repetition, ease unchanged, interval 1 day after the first success, 6 after the second, then the ceiling of interval times ease |
| Srs.EasyProgresses | backend/utils/srsAlgorithm.js:42-54 | Easy: one more repetition, interval 4, then 6, then the ceiling of interval times ease times 1.3; ease raised by 0.15 but never above 2.5 |
| Srs.NextReviewKeepsBounds | backend/utils/srsAlgorithm.js:12-54 | a card with an interval of at least one day and an ease in [1.3, 2.5] keeps both after a review of any rating |
| Srs.SuccessLengthensInterval | backend/utils/srsAlgorithm.js:37-51 | after the two learning steps, Good and Easy strictly lengthen the interval of such a card |
| Srs.EasyNoSoonerThanGood | backend/utils/srsAlgorithm.js:30-54 | for the same card, Easy never schedules the next review sooner than Good |
| Srs.EaseOrderedByQuality | backend/utils/srsAlgorithm.js:18-54 | for an ease in [1.3, 2.5], a better rating never yields a lower ease |
| Srs.WorkedExamples | backend/utils/srsAlgorithm.js:12-67 | (6 days, 2.5, 2 repetitions) rated Good gives 15 days; a new card rated Again gives ease 2.3; a new card rated Easy gives 4 days and ease 2.5 |
| Srs.EndOfDay | backend/utils/srsAlgorithm.js:108-109 | the cutoff lies in the same local day as `now`, is not before `now`, and the next millisecond belongs to the next local day |
| Srs.SelectDue | backend/utils/srsAlgorithm.js:111-113 | a card is selected exactly when it belongs to the user and is due at or before the cutoff |
| Srs.InsertByDueDate | backend/utils/srsAlgorithm.js:114 | inserting into a due-date-ordered list keeps it ordered, adds exactly the one card, and puts either that card or the old first card first |
| Srs.SortByDueDate | backend/utils/srsAlgorithm.js:114 | the result is ordered by due date and is a permutation of the input |
| Srs.GetDueFlashcards | backend/utils/srsAlgorithm.js:106-120 | the due list is ordered by due date, is a permutation of the matching cards, and holds exactly the user's cards due by the end of today |
| Srs.CountDue | backend/utils/srsAlgorithm.js:132-135 | the count is at most the number of cards, and zero exactly when no card of the user is due by the cutoff |
| Srs.GetDueCount | backend/utils/srsAlgorithm.js:127-141 | the due count is at most the number of cards, and zero exactly when none of the user's cards is due by the end of the local day |
| Srs.CountDueIsSelectionSize | backend/utils/srsAlgorithm.js:132-135 | counting the matching documents gives the number of selected cards |
| Srs.DueCountIsDueSetSize | backend/utils/srsAlgorithm.js:127-141 | the due count equals the length of the due list for the same instant |
| Srs.DueSetBoundaries | backend/utils/srsAlgorithm.js:108-113 | the user's cards due at or before `now`, or by the end of the day, are listed; a card due a day or more after `now` is not |
| Srs.ApplyReview | backend/utils/srsAlgorithm.js:82-93 | the stored card takes the four scheduling fields of `calculateNextReview` on its own stored fields, keeps its identity and text, and records the review time |
| Srs.ReviewedCardNotDueToday | backend/utils/srsAlgorithm.js:56-58 | a well-scheduled card stays well-scheduled after a review and is not due again before the end of today |
| Srs.UpdateFlashcard | backend/utils/srsAlgorithm.js:75-99 | an unknown id fails with "Flashcard not found" and changes nothing; otherwise exactly that card is replaced by its reviewed version, which is returned; well-scheduled stores stay well-scheduled |
| FlashcardModel.NewCard | backend/controllers/flashcardController.js:48-50 | a new card is owned by the requester, holds the given text, is due at once, has never been reviewed and is well scheduled |
| FlashcardModel.FlashcardStore.constructor | backend/models/flashcardModel.js:5-20 | the store starts empty, every card under its own id |
| FlashcardController.EmptyFields | backend/controllers/flashcardController.js:34-41 | "term" is listed exactly when the term is falsy and "definition" exactly when the definition is; "term" comes first; nothing else is listed |
| FlashcardController.CreateFlashcard | backend/controllers/flashcardController.js:31-54 | a falsy field gives 400, the empty-field list and no new card; otherwise the requester's new card is stored and returned with 200 |
| FlashcardController.GetFlashcard | backend/controllers/flashcardController.js:14-28 | a malformed id gives 404 "No such workout", an unknown id 404 "No such flashcard", otherwise 200 and the card |
| FlashcardController.DeleteFlashcard | backend/controllers/flashcardController.js:57-71 | a malformed id gives 404, an unknown id 400 with nothing removed, otherwise the card is removed and returned with 200 |
| FlashcardController.ApplyPatch | backend/controllers/flashcardController.js:81-83 | fields present in the body replace the stored ones, absent fields and the id are kept |
| FlashcardController.UpdateFlashcard | backend/controllers/flashcardController.js:74-90 | a malformed id gives 404, an unknown id 400 with nothing changed, otherwise the patch is stored and the card as it was before the update is returned with 200 |
| Text.TrimStart | frontend/src/pages/Signup.js:38 | the result is a suffix of the input, the removed prefix is whitespace, and it does not start with whitespace |
| Text.TrimEnd | frontend/src/pages/Signup.js:38 | the result is a prefix of the input, the removed suffix is whitespace, and it does not end with whitespace |
| Text.Trim | frontend/src/pages/Signup.js:38 | the trimmed text neither starts nor ends with whitespace |
| Text.TrimEmptyIffBlank | frontend/src/pages/Signup.js:38 | `!s.trim()` holds exactly for strings made only of whitespace |
| Text.TrimIdempotent | frontend/src/pages/ForgotPassword.js:38 | trimming twice is trimming once |
| Text.IndexOf | frontend/src/pages/Signup.js:51 | the result is the first position at or after `from` holding the character, or the length |
| Text.MatchesEmailRegex | frontend/src/pages/Signup.js:51 | an address the matcher accepts has no whitespace and at least five characters |
| Text.MatchesEmailRegexIsPattern | frontend/src/pages/Signup.js:51 | the matcher accepts exactly the language of `^\S+@\S+\.\S+$`: no whitespace, a non-empty part, '@', a non-empty part, '.', a non-empty part |
| Text.EmailHasNoWhitespace | frontend/src/pages/ForgotPassword.js:23 | an accepted address has no whitespace, is not blank, and trimming it changes nothing |
| Text.Join | frontend/src/pages/Signup.js:79 | joining no parts gives "", joining one part gives that part |
| Text.JoinAppend | frontend/src/pages/Signup.js:79 | joining one more part appends the separator and that part, so the parts appear left to right, separated by `sep` |
| Text.JoinLength | frontend/src/pages/Signup.js:79 | the joined text is as long as all the parts plus one separator between each two |
| Signup.PasswordFailuresSpec | frontend/src/pages/Signup.js:59-80 | a rule's label is reported exactly when the rule fails; nothing is reported exactly when all five rules hold |
| Signup.FailedRulesBeforeMembers | frontend/src/pages/Signup.js:62-76 | after the first k checks the list holds at most k labels, the label of each of those rules exactly when it failed, and no label of a later rule |
| Signup.SlashTildeBacktickNotSpecial | frontend/src/pages/Signup.js:74 | '/', '~' and '`' are not special characters, so "Abcdefg1/" fails the special-character rule and only that rule |
| Signup.UsernameError | frontend/src/pages/Signup.js:38-46 | the username message is one of the four, and there is none only for 3 to 20 letters, digits or underscores |
| Signup.EmailError | frontend/src/pages/Signup.js:49-53 | the e-mail message is "required" or "invalid", and there is none only for an address the matcher accepts |
| Signup.PasswordError | frontend/src/pages/Signup.js:56-81 | an empty password is "required"; any other message starts with "Password must contain "; there is none only when no rule failed |
| Signup.ConfirmError | frontend/src/pages/Signup.js:84-88 | an empty confirmation is "required"; a non-empty one is refused only as a mismatch; there is none only for a copy of the password |
| Signup.FormErrors | frontend/src/pages/Signup.js:34-92 | each of the four fields of the error map holds that field's message when it has one and is absent otherwise |
| Signup.AddErrorReports | frontend/src/pages/Signup.js:34-92 | recording a field's message makes the map report it and leaves the other fields' entries as they were |
| Signup.FourReports | frontend/src/pages/Signup.js:34-92 | recording the four fields' messages in turn on an empty map reports each of them |
| Signup.UsernameErrorOrder | frontend/src/pages/Signup.js:38-46 | one username message, chosen in order: blank, under 3, over 20, a character outside `[a-zA-Z0-9_]` |
| Signup.UsernameAcceptedIff | frontend/src/pages/Signup.js:38-46 | a username is accepted exactly when it has 3 to 20 characters (20 included), all letters, digits or underscores |
| Signup.PaddedUsernameRefused | frontend/src/pages/Signup.js:38-46 | the length is taken before trimming, so a padded name passes the length checks and is refused by the character rule |
| Signup.EmailAcceptedIff | frontend/src/pages/Signup.js:49-53 | an address is accepted exactly when it is in the language of `^\S+@\S+\.\S+$` |
| Signup.PasswordAcceptedIff | frontend/src/pages/Signup.js:56-81 | an empty password is "required"; a password is accepted exactly when all five rules hold |
| Signup.ConfirmAcceptedIff | frontend/src/pages/Signup.js:84-88 | an empty confirmation is "required" before any mismatch; it is accepted exactly when non-empty and equal to the password |
| Signup.AddErrorEmptyIff | frontend/src/pages/Signup.js:90-91 | the error map is empty after a step exactly when it was empty and the step found no error |
| Signup.FormErrorsEmptyIff | frontend/src/pages/Signup.js:90-91 | the error map is empty exactly when no field reports a message |
| Signup.FormValidIff | frontend/src/pages/Signup.js:34-92 | the form is valid exactly when the username, e-mail, password and confirmation all meet their rules |
| Signup.CollectPasswordFailures | frontend/src/pages/Signup.js:60-76 | the pushed labels are the failed rules in rule order |
| Signup.CheckPassword | frontend/src/pages/Signup.js:56-81 | records "Password is required" or "Password must contain " and the joined failures, if any |
| Signup.ValidateForm | frontend/src/pages/Signup.js:34-92 | builds exactly the specified error map and reports valid exactly when it is empty |
| Signup.HandleSubmit | frontend/src/pages/Signup.js:94-115 | an invalid form sends nothing; a valid one sends username, e-mail and password as typed |
| ResetPassword.ValidateForm | frontend/src/pages/ResetPassword.js:40-80 | builds the password and confirmation entries and reports valid exactly when there are none |
| ResetPassword.ResetErrors | frontend/src/pages/ResetPassword.js:40-80 | the reset error map has only password and confirmation keys, each holding the sign-up form's message for that field |
| ResetPassword.SameRulesAsSignup | frontend/src/pages/ResetPassword.js:44-76 | the reset form reports only password and confirmation messages, the same ones the sign-up form reports for those values |
| ResetPassword.PasswordEntriesIgnoreOtherFields | frontend/src/pages/ResetPassword.js:44-76 | the password and confirmation entries are the same whatever the username and e-mail checks reported first |
| ResetPassword.ResetValidIff | frontend/src/pages/ResetPassword.js:42-79 | valid exactly when the password meets all five rules and the confirmation repeats it; empty fields are reported as required, with no rule list |
| ResetPassword.EnabledSubmitHasNoRequiredMessage | frontend/src/pages/ResetPassword.js:253 | when the button is enabled, neither "required" message can appear; the confirmation can only report a mismatch |
| ResetPassword.HandleSubmit | frontend/src/pages/ResetPassword.js:82-101 | an invalid form sends nothing; a valid one sends the new password only, for the link's token |
| ForgotPassword.HandleSubmit | frontend/src/pages/ForgotPassword.js:13-38 | blank is refused first, then an address outside the pattern; an address is sent exactly when it is in the pattern, and it is sent exactly as typed |
| ForgotPassword.SameRuleAsSignup | frontend/src/pages/ForgotPassword.js:16-26 | this page and the sign-up form refuse the same addresses with the same messages |
| FlashcardEditor.SetField | frontend/src/components/FlashcardEditor.js:13 | the named field takes the value and the other field is kept |
| FlashcardEditor.UpdateFlashcard | frontend/src/components/FlashcardEditor.js:11-15 | same length, the card at the index has the field set, every other card is unchanged |
| FlashcardEditor.DeleteFlashcard | frontend/src/components/FlashcardEditor.js:17-20 | deleting removes exactly the card at the index and keeps the rest in order; an index outside the list deletes nothing |
| FlashcardEditor.AddFlashcard | frontend/src/components/FlashcardEditor.js:22-24 | one more card, blank, at the end; the earlier cards are kept |
| FlashcardEditor.Filter | frontend/src/components/FlashcardEditor.js:30-33 | the filtered list is no longer than the list, and every card in it is in the list and passes the filter |
| FlashcardEditor.FilterConcat | frontend/src/components/FlashcardEditor.js:30-33 | filtering a concatenation filters each part, so kept cards stay in list order |
| FlashcardEditor.FilterKeeps | frontend/src/components/FlashcardEditor.js:30-33 | every card that passes the filter is kept |
| FlashcardEditor.FilterWeakerKeepsMore | frontend/src/components/FlashcardEditor.js:155-169 | a weaker filter keeps at least as many cards |
| FlashcardEditor.IsValidCardIff | frontend/src/components/FlashcardEditor.js:30-33 | a card is saved exactly when neither field is whitespace only |
| FlashcardEditor.ValidFlashcards | frontend/src/components/FlashcardEditor.js:30-33 | a card is saved exactly when it is in the list and both its fields are non-blank after trimming |
| FlashcardEditor.ValidFlashcardsSpec | frontend/src/components/FlashcardEditor.js:30-33 | the saved cards keep list order: the saved list of a concatenation is that of the first part followed by that of the second |
| FlashcardEditor.AddKeepsValidCards | frontend/src/components/FlashcardEditor.js:22-24 | appending the blank card changes neither the saved cards nor the count on the save button |
| FlashcardEditor.ButtonCountAtLeastValidCount | frontend/src/components/FlashcardEditor.js:155-169 | the count on the save button is never below the "Valid Cards" count |
| FlashcardEditor.SpaceTermCountsOnlyOnButton | frontend/src/components/FlashcardEditor.js:155-169 | the two counts differ for a card whose term is a space |
| FlashcardEditor.SaveFlashcards | frontend/src/components/FlashcardEditor.js:26-50 | nothing without a user; the error when no draft is valid; otherwise a request carrying exactly the valid drafts, none of them blank |
| FlashcardEditor.EnabledSaveCanBeRefused | frontend/src/components/FlashcardEditor.js:143-146 | the save button is enabled for a lone blank card, and pressing it shows the error |
| DocumentUpload.HandleFileSelect | frontend/src/components/DocumentUpload.js:13-31 | no file changes nothing; a wrong type, then an oversize file, sets its error and keeps the selection; otherwise the file is selected and the error cleared |
| DocumentUpload.HandleFileSelectKeepsSelectionAcceptable | frontend/src/components/DocumentUpload.js:13-31 | the selected file is always a PDF or text file of at most 10 MiB |
| DocumentUpload.SizeBoundary | frontend/src/components/DocumentUpload.js:16-26 | exactly 10 MiB is accepted, one byte more is refused; the type is checked before the size |
| TypedReviewCard.GetQuestion | frontend/src/components/TypedReviewCard.js:168-182 | "recognition" shows the term and expects the definition; any other or absent type shows the definition and expects the term |
| TypedReviewCard.QuestionDirectionsMirror | frontend/src/components/TypedReviewCard.js:168-182 | what one direction shows the other expects, and each direction uses both sides of the card |
| TypedReviewCard.GetResultClass | frontend/src/components/TypedReviewCard.js:158-165 | no verdict or no score gives no class; otherwise one of the four banner classes |
| TypedReviewCard.ResultClassTable | frontend/src/components/TypedReviewCard.js:158-165 | for any scored result, qualities 0..3 get the four classes in order, higher counts as 3 and lower as 0 |
| TypedReviewCard.ResultClassMonotone | frontend/src/components/TypedReviewCard.js:158-165 | of two scored results, whatever their answers, the better score never gets a worse banner |
| TypedReviewCard.FailureMessage | frontend/src/components/TypedReviewCard.js:73-78 | a network failure gives "Network error occurred"; a server error gives its own message, or the fallback when it has none |
| TypedReviewCard.ReviewCard.constructor | frontend/src/components/TypedReviewCard.js:8-13 | a card starts with an empty answer, no result, no flags set and nothing reported |
| TypedReviewCard.ReviewCard.ResetForCard | frontend/src/components/TypedReviewCard.js:17-31 | a card change clears the answer, the result and every flag |
| TypedReviewCard.ReviewCard.SetUserAnswer | frontend/src/components/TypedReviewCard.js:199-209 | typing changes the answer only before a result and while nothing is in flight |
| TypedReviewCard.ReviewCard.HandleSubmitAnswer | frontend/src/components/TypedReviewCard.js:50-64 | nothing happens without a user, while in flight, with a blank answer, or once completed; otherwise the trimmed answer is sent and the card is submitting |
| TypedReviewCard.ReviewCard.ReceiveAnswerResponse | frontend/src/components/TypedReviewCard.js:66-81 | a scored answer is shown, a failure is passed to `onError`, and the request is over in every case |
| TypedReviewCard.ReviewCard.HandleEnterKey | frontend/src/components/TypedReviewCard.js:84-89 | Enter before a result and with nothing in flight sends the trimmed answer exactly when there is a user, the answer is not blank and the card is not completed; any other key, or Enter at another time, changes nothing; a send changes only the in-flight state |
| TypedReviewCard.ReviewCard.HandleQualityOverride | frontend/src/components/TypedReviewCard.js:91-104 | nothing happens while in flight or once completed; otherwise the grade is sent |
| TypedReviewCard.ReviewCard.ReceiveOverrideResponse | frontend/src/components/TypedReviewCard.js:106-122 | on success the card is completed and the server's reply is reported, once; a failure is passed to `onError`; the request is over in every case |
| TypedReviewCard.ReviewCard.HandleContinue | frontend/src/components/TypedReviewCard.js:125-130 | reports the verdict once if there is one and the card is not completed, and marks it completed |
| TypedReviewCard.ReviewCard.HandleKeyDown | frontend/src/components/TypedReviewCard.js:34-48 | a key continues exactly when a result is shown, the grade panel is closed, nothing is in flight, the card is not completed and the key is not a modifier or Tab; continuing completes the card, reports the verdict and changes nothing else; any other key changes nothing |
| TypedReviewCard.ReviewCard.OpenManualGrade | frontend/src/components/TypedReviewCard.js:268-274 | the panel opens only while nothing is in flight and the card is not completed |
| TypedReviewCard.ReviewCard.CancelManualGrade | frontend/src/components/TypedReviewCard.js:315-321 | the panel closes only while nothing is in flight and the card is not completed |
| TypedReviewCard.CompletedCardReportsNothingMore | frontend/src/components/TypedReviewCard.js:125-130 | once completed, no key, grade, continue or submit reports or sends anything more |

## Left out

- Database calls (`find`, `sort`, `countDocuments`, `findById`, `findByIdAndUpdate`, `findOneAndDelete`, `findOneAndUpdate`, `create`) are operations on an in-memory sequence or map. A database error path, such as the 400 that `createFlashcard` returns when `create` throws, is not modelled.
- Srs.CalculateNextReview: the source computes the ease in binary floating point and the ceiling of a floating-point product. The model uses exact hundredths, so at an exact integer boundary the source's interval can differ by one day.
- Srs.CalculateNextReview: quality is an integer here. A rating sent as a string would fail the source's strict equality tests and fall through like any other out-of-range value.
- Srs.EndOfDay: the local day comes from a fixed offset. Daylight-saving changes and the real clock are not modelled, and `setDate(getDate() + n)` is taken as adding n times 24 hours.
- Srs.SortByDueDate: only the non-decreasing order by due date is stated. The order among equal due dates is the database's.
- Whether the scheduling fields survive a write is not modelled. The card schema does not declare them, and the model keeps them on every card.
- FlashcardController: the ObjectId well-formedness test belongs to the database driver. It enters each handler as a boolean.
- FlashcardController.ApplyPatch: an update body may carry fields beyond term, definition and owner. Only the declared fields are modelled.
- Text: JavaScript strings are UTF-16, and `length` counts code units. The model counts characters, which differ only for characters outside the Basic Multilingual Plane.
- The `handleChange` functions of the forms are not modelled. They clear a field's message while typing.
- Network calls, the server's answers after a request is sent, local storage, routing and rendering are not modelled, except where a response outcome is a parameter of a `Receive...Response` step.
- The AI scoring and override endpoints and the review session page are not part of this model.
- TypedReviewCard.ReviewCard.ResetForCard: a response still in flight when the card changes is treated as discarded. In the source its handler would still run against the next card's state.
- TypedReviewCard.ReviewCard.ReceiveOverrideResponse: the override reply is kept as the text of its JSON body (`OverrideReply`). The card passes it to `onReviewComplete` unread, so its fields are not modelled.
- TypedReviewCard.ReviewCard.HandleContinue: requires that nothing is in flight, because its only caller, the key listener, checks that first.
- The asynchronous interleaving inside one handler is not modelled. Each step runs atomically.
- The result message and score text helpers of the review card are display strings only and are not modelled.
