/**
  The guards at the top of `handleSubmit` in frontend/src/pages/ForgotPassword.js: a blank
  address is refused, then an address that does not match `^\S+@\S+\.\S+$`, and otherwise the
  trimmed address is posted to the forgot-password endpoint.
 */
module ForgotPassword {
  import opened Wrappers
  import opened Text
  import Signup

  datatype SubmitOutcome =
    | ShowError(message: string)   // shown under the field; no request is made
    | SendRequest(email: string)   // the `email` of the posted body

  /** The blank check comes first, then the pattern, with the sign-up form's two messages; only an address in the language of the
      pattern is sent, and it is sent exactly as typed, since trimming it changes nothing. */
  function HandleSubmit(email: string): (r: SubmitOutcome)
    ensures IsBlank(email) ==> r == ShowError(Signup.EmailRequired)
    ensures !IsBlank(email) && !EmailPattern(email) ==> r == ShowError(Signup.EmailInvalid)
    ensures r.SendRequest? <==> EmailPattern(email)
    ensures r.SendRequest? ==> r.email == email
  {
    TrimEmptyIffBlank(email);
    MatchesEmailRegexIsPattern(email);
    if Trim(email) == "" then
      ShowError(Signup.EmailRequired)
    else if !MatchesEmailRegex(email) then
      ShowError(Signup.EmailInvalid)
    else
      EmailHasNoWhitespace(email);
      SendRequest(Trim(email))
  }

  /** The forgot-password page and the sign-up form refuse the same addresses with the same
      messages. */
  lemma SameRuleAsSignup(email: string)
    ensures HandleSubmit(email).SendRequest? <==> Signup.EmailError(email).None?
    ensures forall m :: HandleSubmit(email) == ShowError(m) <==> Signup.EmailError(email) == Some(m)
  {
    Signup.EmailAcceptedIff(email);
    TrimEmptyIffBlank(email);
    MatchesEmailRegexIsPattern(email);
  }
}
