/**
  The reset-password form of frontend/src/pages/ResetPassword.js: a new password and its
  confirmation, checked by the same password and confirmation rules as the sign-up form, a
  submit button that stays disabled while a field is empty or a request is in flight, and a
  request that carries the new password only.
 */
module ResetPassword {
  import opened Wrappers
  import opened Text
  import opened Signup

  datatype ResetForm = ResetForm(password: string, confirmPassword: string)

  /** The error map of the reset form: the password entry, then the confirmation entry, and
      no other key. */
  function ResetErrors(form: ResetForm): (r: Errors)
    ensures r.Keys <= {Password, ConfirmPassword}
    ensures Reports(r, Password, PasswordError(form.password))
    ensures Reports(r, ConfirmPassword, ConfirmError(form.password, form.confirmPassword))
  {
    PasswordErrors(map[], form.password, form.confirmPassword)
  }

  /** `validateForm`: the password block, then the confirmation block, on an empty map. */
  method ValidateForm(form: ResetForm) returns (errors: Errors, valid: bool)
    ensures errors == ResetErrors(form)
    ensures valid <==> errors == map[]
  {
    errors := CheckPassword(map[], form.password);
    errors := AddError(errors, ConfirmPassword, ConfirmError(form.password, form.confirmPassword));
    valid := |errors.Keys| == 0;
    if errors != map[] {
      var f :| f in errors;
      assert f in errors.Keys;
    }
  }

  /** The reset form reports only password and confirmation messages, and those are exactly
      the messages the sign-up form reports for the same two values. */
  lemma SameRulesAsSignup(su: SignupForm)
    ensures ResetErrors(ResetForm(su.password, su.confirmPassword)).Keys <= {Password, ConfirmPassword}
    ensures SameEntry(ResetErrors(ResetForm(su.password, su.confirmPassword)), FormErrors(su), Password)
    ensures SameEntry(ResetErrors(ResetForm(su.password, su.confirmPassword)), FormErrors(su), ConfirmPassword)
  {
    PasswordEntriesIgnoreOtherFields(UsernameError(su.username), EmailError(su.email), su.password, su.confirmPassword);
  }

  /** Two error maps agree on field `f`: both report it, with the same message, or neither does. */
  predicate SameEntry(a: Errors, b: Errors, f: Field) {
    (f in a <==> f in b) && (f in a && f in b ==> a[f] == b[f])
  }

  /** The password and confirmation entries do not depend on what the username and e-mail
      checks reported before them. */
  lemma PasswordEntriesIgnoreOtherFields(u: Option<string>, m: Option<string>, p: string, c: string)
    ensures PasswordErrors(map[], p, c).Keys <= {Password, ConfirmPassword}
    ensures SameEntry(PasswordErrors(map[], p, c), PasswordErrors(AddError(AddError(map[], Username, u), Email, m), p, c), Password)
    ensures SameEntry(PasswordErrors(map[], p, c), PasswordErrors(AddError(AddError(map[], Username, u), Email, m), p, c), ConfirmPassword)
  {
  }

  /** The form is valid exactly when the password meets the five rules and the confirmation
      repeats it; an empty password is reported as required, with no list of rules. */
  lemma ResetValidIff(form: ResetForm)
    ensures ResetErrors(form) == map[] <==> StrongPassword(form.password) && form.confirmPassword == form.password
    ensures form.password == "" ==> ResetErrors(form)[Password] == PasswordRequired
    ensures form.confirmPassword == "" ==> ResetErrors(form)[ConfirmPassword] == ConfirmRequired
  {
    PasswordAcceptedIff(form.password);
    ConfirmAcceptedIff(form.password, form.confirmPassword);
    var e := AddError(map[], Password, PasswordError(form.password));
    AddErrorEmptyIff(map[], Password, PasswordError(form.password));
    AddErrorEmptyIff(e, ConfirmPassword, ConfirmError(form.password, form.confirmPassword));
    if StrongPassword(form.password) {
      assert form.password != "";
    }
  }

  /** The submit button's `disabled` attribute. */
  predicate SubmitDisabled(isLoading: bool, form: ResetForm) {
    isLoading || form.password == "" || form.confirmPassword == ""
  }

  /** With the button enabled neither field is empty, so a submitted form is never refused as
      "required": its messages can only be rule failures or a mismatch. */
  lemma EnabledSubmitHasNoRequiredMessage(isLoading: bool, form: ResetForm)
    requires !SubmitDisabled(isLoading, form)
    ensures Password in ResetErrors(form) ==> ResetErrors(form)[Password] != PasswordRequired
    ensures ConfirmPassword in ResetErrors(form) ==> ResetErrors(form)[ConfirmPassword] == PasswordsDiffer
  {
    var p := form.password;
    if PasswordError(p).Some? {
      var m := PasswordMustContain + Join(PasswordFailures(p), ", ");
      assert PasswordError(p).value == m;
      assert m[9] == 'm' && PasswordRequired[9] == 'i';
    }
  }

  /** The body posted to the reset endpoint for the link's token. */
  datatype ResetRequest = ResetRequest(token: string, password: string)

  /** `handleSubmit`: an invalid form sends nothing; a valid one sends the new password, and
      not its confirmation. */
  method HandleSubmit(token: string, form: ResetForm) returns (request: Option<ResetRequest>, errors: Errors)
    ensures errors == ResetErrors(form)
    ensures request.Some? <==> errors == map[]
    ensures request.Some? ==> request.value == ResetRequest(token, form.password)
  {
    var valid;
    errors, valid := ValidateForm(form);
    if !valid {
      return None, errors;
    }
    request := Some(ResetRequest(token, form.password));
  }
}
