/**
  The sign-up form check of frontend/src/pages/Signup.js: one error per field, chosen by
  ordered rules, collected in an error map; the form is sent only when the map is empty.
 */
module Signup {
  import opened Wrappers
  import opened Text

  datatype SignupForm = SignupForm(username: string, email: string, password: string, confirmPassword: string)

  datatype Field = Username | Email | Password | ConfirmPassword

  /** The `newErrors` object: a message per field that failed. */
  type Errors = map<Field, string>

  const UsernameRequired: string := "Username is required"
  const UsernameTooShort: string := "Username must be at least 3 characters"
  const UsernameTooLong: string := "Username must be less than 20 characters"
  const UsernameBadChars: string := "Username can only contain letters, numbers, and underscores"
  const EmailRequired: string := "Email is required"
  const EmailInvalid: string := "Please enter a valid email address"
  const PasswordRequired: string := "Password is required"
  const PasswordMustContain: string := "Password must contain "
  const ConfirmRequired: string := "Please confirm your password"
  const PasswordsDiffer: string := "Passwords do not match"

  /** The labels of the five password rules, in the order they are checked and reported. */
  const LengthLabel: string := "at least 8 characters"
  const UpperLabel: string := "one uppercase letter"
  const LowerLabel: string := "one lowercase letter"
  const DigitLabel: string := "one number"
  const SpecialLabel: string := "one special character (!@#$%^&* etc.)"

  const PasswordRuleLabels: seq<string> := [LengthLabel, UpperLabel, LowerLabel, DigitLabel, SpecialLabel]

  /** Password rule `k`: length at least 8, an upper-case letter, a lower-case letter, a
      digit, a special character. */
  predicate PasswordRule(k: nat, p: string)
    requires k < 5
  {
    if k == 0 then |p| >= 8
    else if k == 1 then HasUpper(p)
    else if k == 2 then HasLower(p)
    else if k == 3 then HasDigit(p)
    else HasSpecial(p)
  }

  /** A password that meets all five rules. */
  predicate StrongPassword(p: string) {
    |p| >= 8 && HasUpper(p) && HasLower(p) && HasDigit(p) && HasSpecial(p)
  }

  /** The labels of the rules before `k` that `p` fails, in rule order: the list as it
      stands after the first `k` checks. */
  function FailedRulesBefore(p: string, k: nat): seq<string>
    requires k <= 5
  {
    if k == 0 then []
    else FailedRulesBefore(p, k - 1) + (if PasswordRule(k - 1, p) then [] else [PasswordRuleLabels[k - 1]])
  }

  /** The `passwordErrors` list. */
  function PasswordFailures(p: string): seq<string> {
    FailedRulesBefore(p, 5)
  }

  lemma {:induction false} FailedRulesBeforeMembers(p: string, k: nat)
    requires k <= 5
    ensures |FailedRulesBefore(p, k)| <= k
    ensures forall m | 0 <= m < k :: PasswordRuleLabels[m] in FailedRulesBefore(p, k) <==> !PasswordRule(m, p)
    ensures forall m | k <= m < 5 :: PasswordRuleLabels[m] !in FailedRulesBefore(p, k)
  {
    if k > 0 {
      FailedRulesBeforeMembers(p, k - 1);
    }
  }

  /** A rule's label is reported exactly when the rule fails, and nothing is reported exactly
      when all five rules hold. */
  lemma PasswordFailuresSpec(p: string)
    ensures forall k | 0 <= k < 5 :: PasswordRuleLabels[k] in PasswordFailures(p) <==> !PasswordRule(k, p)
    ensures PasswordFailures(p) == [] <==> StrongPassword(p)
  {
    FailedRulesBeforeMembers(p, 5);
    if |p| < 8 {
      assert !PasswordRule(0, p) && PasswordRuleLabels[0] in PasswordFailures(p);
    } else if !HasUpper(p) {
      assert !PasswordRule(1, p) && PasswordRuleLabels[1] in PasswordFailures(p);
    } else if !HasLower(p) {
      assert !PasswordRule(2, p) && PasswordRuleLabels[2] in PasswordFailures(p);
    } else if !HasDigit(p) {
      assert !PasswordRule(3, p) && PasswordRuleLabels[3] in PasswordFailures(p);
    } else if !HasSpecial(p) {
      assert !PasswordRule(4, p) && PasswordRuleLabels[4] in PasswordFailures(p);
    } else {
      assert FailedRulesBefore(p, 1) == [];
      assert FailedRulesBefore(p, 2) == [];
      assert FailedRulesBefore(p, 3) == [];
      assert FailedRulesBefore(p, 4) == [];
    }
  }

  /** Characters such as '/', '~' and '`' are not special characters: a password whose only
      non-alphanumeric character is one of them fails the special-character rule alone. */
  lemma SlashTildeBacktickNotSpecial()
    ensures !IsPasswordSpecial('/') && !IsPasswordSpecial('~') && !IsPasswordSpecial('`')
    ensures PasswordFailures("Abcdefg1/") == [PasswordRuleLabels[4]]
  {
    var p := "Abcdefg1/";
    assert IsAsciiUpper(p[0]) && IsAsciiLower(p[1]) && IsAsciiDigit(p[7]);
  }

  /** The username message: one of the four, and none only for 3 to 20 word characters. */
  function UsernameError(u: string): (r: Option<string>)
    ensures r.Some? ==> r.value in {UsernameRequired, UsernameTooShort, UsernameTooLong, UsernameBadChars}
    ensures r.None? ==> 3 <= |u| <= 20 && IsWord(u)
  {
    if Trim(u) == "" then Some(UsernameRequired)
    else if |u| < 3 then Some(UsernameTooShort)
    else if |u| > 20 then Some(UsernameTooLong)
    else if !IsWord(u) then Some(UsernameBadChars)
    else None
  }

  /** The e-mail message: "required" or "invalid", and none only for an address the matcher
      accepts. */
  function EmailError(e: string): (r: Option<string>)
    ensures r.Some? ==> r.value == EmailRequired || r.value == EmailInvalid
    ensures r.None? ==> MatchesEmailRegex(e)
  {
    if Trim(e) == "" then Some(EmailRequired)
    else if !MatchesEmailRegex(e) then Some(EmailInvalid)
    else None
  }

  /** The password message: "required" for an empty password, otherwise the list of failed
      rules after "Password must contain ", and none only when no rule failed. */
  function PasswordError(p: string): (r: Option<string>)
    ensures p == "" ==> r == Some(PasswordRequired)
    ensures p != "" && r.Some? ==> PasswordMustContain <= r.value
    ensures r.None? ==> p != "" && PasswordFailures(p) == []
  {
    if p == "" then Some(PasswordRequired)
    else if |PasswordFailures(p)| > 0 then Some(PasswordMustContain + Join(PasswordFailures(p), ", "))
    else None
  }

  /** The confirmation message: "required" when empty, a mismatch otherwise, and none only for
      a non-empty copy of the password. */
  function ConfirmError(p: string, c: string): (r: Option<string>)
    ensures c == "" ==> r == Some(ConfirmRequired)
    ensures c != "" && r.Some? ==> r == Some(PasswordsDiffer) && c != p
    ensures r.None? ==> c != "" && c == p
  {
    if c == "" then Some(ConfirmRequired)
    else if p != c then Some(PasswordsDiffer)
    else None
  }

  /** Field `f` of an error map holds message `e`: present with that text when there is one,
      absent otherwise. */
  predicate Reports(errors: Errors, f: Field, e: Option<string>) {
    (f in errors <==> e.Some?) && (e.Some? ==> errors[f] == e.value)
  }

  function AddError(errors: Errors, f: Field, e: Option<string>): Errors {
    if e.Some? then errors[f := e.value] else errors
  }

  /** Adding field `f`'s message to a map without `f` makes the map report it; what another
      field reports is left as it was. */
  lemma AddErrorReports(errors: Errors, f: Field, e: Option<string>)
    requires f !in errors
    ensures Reports(AddError(errors, f, e), f, e)
    ensures forall g, m | g != f && Reports(errors, g, m) :: Reports(AddError(errors, f, e), g, m)
  {
  }

  /** The password and confirm-password entries, added to `errors`. */
  function PasswordErrors(errors: Errors, p: string, c: string): Errors {
    AddError(AddError(errors, Password, PasswordError(p)), ConfirmPassword, ConfirmError(p, c))
  }

  /** The error map `validateForm` builds: each field holds its own message, if any, and no
      other key is present. */
  function FormErrors(form: SignupForm): (r: Errors)
    ensures Reports(r, Username, UsernameError(form.username))
    ensures Reports(r, Email, EmailError(form.email))
    ensures Reports(r, Password, PasswordError(form.password))
    ensures Reports(r, ConfirmPassword, ConfirmError(form.password, form.confirmPassword))
  {
    var e := AddError(map[], Username, UsernameError(form.username));
    var e' := AddError(e, Email, EmailError(form.email));
    FourReports(UsernameError(form.username), EmailError(form.email),
      PasswordError(form.password), ConfirmError(form.password, form.confirmPassword));
    PasswordErrors(e', form.password, form.confirmPassword)
  }

  /** Adding the four fields' messages in turn to an empty map gives a map that reports each
      of them. */
  lemma FourReports(u: Option<string>, m: Option<string>, p: Option<string>, c: Option<string>)
    ensures var r := AddError(AddError(AddError(AddError(map[], Username, u), Email, m), Password, p), ConfirmPassword, c);
      Reports(r, Username, u) && Reports(r, Email, m) && Reports(r, Password, p) && Reports(r, ConfirmPassword, c)
  {
    var e := AddError(map[], Username, u);
    AddErrorReports(map[], Username, u);
    var e' := AddError(e, Email, m);
    AddErrorReports(e, Email, m);
    var e'' := AddError(e', Password, p);
    AddErrorReports(e', Password, p);
    AddErrorReports(e'', ConfirmPassword, c);
  }

  /** The username messages, in the order they are checked: blank, then too short, too long,
      bad characters; at most one is reported. */
  lemma UsernameErrorOrder(u: string)
    ensures IsBlank(u) ==> UsernameError(u) == Some(UsernameRequired)
    ensures !IsBlank(u) && |u| < 3 ==> UsernameError(u) == Some(UsernameTooShort)
    ensures !IsBlank(u) && 3 <= |u| && |u| > 20 ==> UsernameError(u) == Some(UsernameTooLong)
    ensures !IsBlank(u) && 3 <= |u| <= 20 && !IsWord(u) ==> UsernameError(u) == Some(UsernameBadChars)
  {
    TrimEmptyIffBlank(u);
  }

  /** A username is accepted exactly when it has 3 to 20 characters (20 included), all of them
      letters, digits or underscores. */
  lemma UsernameAcceptedIff(u: string)
    ensures UsernameError(u) == None <==> 3 <= |u| <= 20 && IsWord(u)
  {
    TrimEmptyIffBlank(u);
    if IsWord(u) {
      assert !IsWhitespace(u[0]);
    }
  }

  /** The length is measured before trimming, so a username with surrounding spaces passes the
      blank and length checks and is refused by the character rule. */
  lemma PaddedUsernameRefused(u: string)
    requires !IsBlank(u) && 3 <= |u| <= 20
    requires IsWhitespace(u[0]) || IsWhitespace(u[|u| - 1])
    ensures UsernameError(u) == Some(UsernameBadChars)
  {
    TrimEmptyIffBlank(u);
  }

  /** An e-mail address is accepted exactly when it matches `^\S+@\S+\.\S+$`. */
  lemma EmailAcceptedIff(e: string)
    ensures EmailError(e) == None <==> EmailPattern(e)
  {
    MatchesEmailRegexIsPattern(e);
    TrimEmptyIffBlank(e);
    if MatchesEmailRegex(e) {
      EmailHasNoWhitespace(e);
    }
  }

  /** An empty password gives "Password is required" and no rule list; otherwise the password
      is accepted exactly when all five rules hold. */
  lemma PasswordAcceptedIff(p: string)
    ensures p == "" ==> PasswordError(p) == Some(PasswordRequired)
    ensures PasswordError(p) == None <==> StrongPassword(p)
  {
    PasswordFailuresSpec(p);
  }

  /** The confirmation reports "Please confirm" when empty, before any mismatch. */
  lemma ConfirmAcceptedIff(p: string, c: string)
    ensures c == "" ==> ConfirmError(p, c) == Some(ConfirmRequired)
    ensures ConfirmError(p, c) == None <==> c != "" && c == p
  {
  }

  /** Adding a message makes the map non-empty; adding none leaves it as it was. */
  lemma AddErrorEmptyIff(errors: Errors, f: Field, e: Option<string>)
    ensures AddError(errors, f, e) == map[] <==> errors == map[] && e.None?
  {
    if e.Some? {
      assert f in AddError(errors, f, e);
    }
  }

  /** The error map is empty exactly when no field reports a message. */
  lemma FormErrorsEmptyIff(form: SignupForm)
    ensures FormErrors(form) == map[] <==>
      && UsernameError(form.username).None? && EmailError(form.email).None?
      && PasswordError(form.password).None? && ConfirmError(form.password, form.confirmPassword).None?
  {
    var e := AddError(map[], Username, UsernameError(form.username));
    var e' := AddError(e, Email, EmailError(form.email));
    var e'' := AddError(e', Password, PasswordError(form.password));
    AddErrorEmptyIff(map[], Username, UsernameError(form.username));
    AddErrorEmptyIff(e, Email, EmailError(form.email));
    AddErrorEmptyIff(e', Password, PasswordError(form.password));
    AddErrorEmptyIff(e'', ConfirmPassword, ConfirmError(form.password, form.confirmPassword));
  }

  /** The form is valid exactly when every field passes its rules. */
  lemma FormValidIff(form: SignupForm)
    ensures FormErrors(form) == map[] <==>
      && 3 <= |form.username| <= 20 && IsWord(form.username)
      && EmailPattern(form.email)
      && StrongPassword(form.password)
      && form.confirmPassword != "" && form.confirmPassword == form.password
  {
    FormErrorsEmptyIff(form);
    UsernameAcceptedIff(form.username);
    EmailAcceptedIff(form.email);
    PasswordAcceptedIff(form.password);
    ConfirmAcceptedIff(form.password, form.confirmPassword);
    var u := UsernameError(form.username).None?;
    var e := EmailError(form.email).None?;
    var p := PasswordError(form.password).None?;
    var c := ConfirmError(form.password, form.confirmPassword).None?;
    assert FormErrors(form) == map[] <==> u && e && p && c;
  }

  /** The `passwordErrors` list of `validateForm`: the label of each failed rule, pushed in
      rule order. */
  method CollectPasswordFailures(password: string) returns (passwordErrors: seq<string>)
    ensures passwordErrors == PasswordFailures(password)
  {
    passwordErrors := [];
    if |password| < 8 {
      passwordErrors := passwordErrors + [LengthLabel];
    }
    assert passwordErrors == FailedRulesBefore(password, 1);
    if !HasUpper(password) {
      passwordErrors := passwordErrors + [UpperLabel];
    }
    assert passwordErrors == FailedRulesBefore(password, 2);
    if !HasLower(password) {
      passwordErrors := passwordErrors + [LowerLabel];
    }
    assert passwordErrors == FailedRulesBefore(password, 3);
    if !HasDigit(password) {
      passwordErrors := passwordErrors + [DigitLabel];
    }
    assert passwordErrors == FailedRulesBefore(password, 4);
    if !HasSpecial(password) {
      passwordErrors := passwordErrors + [SpecialLabel];
    }
  }

  /** The password block of `validateForm`. */
  method CheckPassword(errors: Errors, password: string) returns (errors': Errors)
    ensures errors' == AddError(errors, Password, PasswordError(password))
  {
    errors' := errors;
    if password == "" {
      errors' := errors'[Password := PasswordRequired];
    } else {
      var passwordErrors := CollectPasswordFailures(password);
      if |passwordErrors| > 0 {
        errors' := errors'[Password := PasswordMustContain + Join(passwordErrors, ", ")];
      }
    }
  }

  /** `validateForm`: builds the error map field by field and reports whether it is empty.
      The username, e-mail and confirmation blocks each pick at most one message, which is
      what `UsernameError`, `EmailError` and `ConfirmError` compute; the password block
      collects its failures step by step in `CheckPassword`. */
  method ValidateForm(form: SignupForm) returns (errors: Errors, valid: bool)
    ensures errors == FormErrors(form)
    ensures valid <==> errors == map[]
  {
    errors := AddError(map[], Username, UsernameError(form.username));
    errors := AddError(errors, Email, EmailError(form.email));
    errors := CheckPassword(errors, form.password);
    errors := AddError(errors, ConfirmPassword, ConfirmError(form.password, form.confirmPassword));
    valid := |errors.Keys| == 0;
    if errors != map[] {
      var f :| f in errors;
      assert f in errors.Keys;
    }
  }

  /** The body posted to the sign-up endpoint. */
  datatype SignupRequest = SignupRequest(username: string, email: string, password: string)

  /** `handleSubmit`: an invalid form sends nothing; a valid one sends the three fields as
      typed (untrimmed). */
  method HandleSubmit(form: SignupForm) returns (request: Option<SignupRequest>, errors: Errors)
    ensures errors == FormErrors(form)
    ensures request.Some? <==> errors == map[]
    ensures request.Some? ==> request.value == SignupRequest(form.username, form.email, form.password)
  {
    var valid;
    errors, valid := ValidateForm(form);
    if !valid {
      return None, errors;
    }
    request := Some(SignupRequest(form.username, form.email, form.password));
  }
}
