/** The log-in screen: an e-mail and a password field, a validator that records at most one
    message per field, and a log-in handler that sends nothing unless the validator accepts. */
module LoginScreen {
  import opened Common
  import opened JsString
  import opened EmailPattern
  import opened FormRules

  const EmailKey: string := "email"
  const PasswordKey: string := "password"

  const PasswordRequired: string := "Password is required"
  const PasswordTooShort: string := "Password must be at least 6 characters"
  const MinPasswordLength: nat := 6

  /** The password rule: emptiness is judged on the trimmed value, the minimum length on the
      value as typed. */
  function PasswordError(password: string): Option<string> {
    if Trim(password) == "" then Some(PasswordRequired)
    else if |password| < MinPasswordLength then Some(PasswordTooShort)
    else None
  }

  /** The password rule accepts exactly a value of six or more characters that is not all white
      space. */
  lemma PasswordErrorIff(password: string)
    ensures PasswordError(password).None? <==> |password| >= MinPasswordLength && !AllWhitespace(password)
    ensures PasswordError(password) == Some(PasswordRequired) <==> AllWhitespace(password)
  {
  }

  /** Padding counts towards the minimum: five spaces and one letter pass, although the trimmed
      value has one character. */
  lemma PaddedPasswordAccepted()
    ensures PasswordError("     a").None? && |Trim("     a")| == 1
  {
    var s := "     a";
    assert !IsWhitespace(s[5]);
    assert LeadingWhitespace(s[5..]) == 0;
    assert LeadingWhitespace(s) == 5;
    assert s[5..] == "a";
  }

  /** `validateForm`'s `newErrors`. */
  function FormErrors(email: string, password: string): Errors {
    Record(Record(map[], EmailKey, EmailError(email)), PasswordKey, PasswordError(password))
  }

  predicate FormAccepts(email: string, password: string) {
    |FormErrors(email, password)| == 0
  }

  /** The validator records one message per failing field and nothing else. */
  lemma FormErrorsPerField(email: string, password: string)
    ensures FormErrors(email, password).Keys <= {EmailKey, PasswordKey}
    ensures EmailKey in FormErrors(email, password) <==> EmailError(email).Some?
    ensures EmailKey in FormErrors(email, password) ==> FormErrors(email, password)[EmailKey] == EmailError(email)
    ensures PasswordKey in FormErrors(email, password) <==> PasswordError(password).Some?
    ensures PasswordKey in FormErrors(email, password)
            ==> FormErrors(email, password)[PasswordKey] == PasswordError(password)
  {
  }

  /** The validator accepts exactly an e-mail value the pattern's `test` accepts and a password
      of six or more characters that is not all white space. */
  lemma FormAcceptsIff(email: string, password: string)
    ensures FormAccepts(email, password)
            <==> TestMatches(email) && |password| >= MinPasswordLength && !AllWhitespace(password)
  {
    EmailErrorIffTest(email);
    PasswordErrorIff(password);
    FormErrorsPerField(email, password);
    if !FormAccepts(email, password) {
      var k :| k in FormErrors(email, password);
    }
  }

  /** The argument of `login`. */
  datatype Credentials = Credentials(email: string, password: string)

  /** `handleLogin`'s normalisation: trimmed and lower-cased e-mail, the password as typed. */
  function Sent(email: string, password: string): (r: Credentials)
    ensures r.email == NormalizeEmail(email) && r.password == password
  {
    Credentials(NormalizeEmail(email), password)
  }

  /** Accepted input is sent as an address that still matches the pattern and is its own normal
      form, with the password of six or more characters untouched. */
  lemma AcceptedFormSent(email: string, password: string)
    requires FormAccepts(email, password)
    ensures LooksLikeEmail(Sent(email, password).email)
    ensures NormalizeEmail(Sent(email, password).email) == Sent(email, password).email
    ensures |Sent(email, password).password| >= MinPasswordLength
  {
    FormAcceptsIff(email, password);
    LooksLikeEmailIffTest(email);
    NormalizeKeepsMatch(email);
    NormalizeEmailIdempotent(email);
  }

  /** How the `login` call settled: success, a failure carrying a `details` array, or any other
      failure (reported in an alert). */
  datatype Outcome = LoggedIn | Rejected(details: seq<Detail>) | Failed

  /** The screen's state. */
  class Login {
    var email: string
    var password: string
    var isLoading: bool
    var errors: Errors

    constructor ()
      ensures email == "" && password == "" && !isLoading && errors == map[]
    {
      email := "";
      password := "";
      isLoading := false;
      errors := map[];
    }

    /** The e-mail input's `onChangeText`: only the e-mail error is cleared. */
    method EditEmail(text: string)
      modifies this
      ensures email == text && password == old(password) && isLoading == old(isLoading)
      ensures errors == ClearIfShown(old(errors), EmailKey)
    {
      email := text;
      if Shows(errors, EmailKey) {
        errors := errors[EmailKey := None];
      }
    }

    /** The password input's `onChangeText`: only the password error is cleared. */
    method EditPassword(text: string)
      modifies this
      ensures password == text && email == old(email) && isLoading == old(isLoading)
      ensures errors == ClearIfShown(old(errors), PasswordKey)
    {
      password := text;
      if Shows(errors, PasswordKey) {
        errors := errors[PasswordKey := None];
      }
    }

    /** `validateForm`: replaces the errors with the form's and reports whether there are none. */
    method ValidateForm() returns (ok: bool)
      modifies this
      ensures errors == FormErrors(email, password) && ok == FormAccepts(email, password)
      ensures email == old(email) && password == old(password) && isLoading == old(isLoading)
    {
      errors := FormErrors(email, password);
      ok := |errors| == 0;
    }

    /** `handleLogin` up to the `login` call: no call unless the form validates; when it does,
        the screen starts loading with no errors and sends the normalised credentials. */
    method HandleLogin() returns (request: Option<Credentials>)
      modifies this
      ensures request.Some? <==> FormAccepts(email, password)
      ensures request.None? ==> errors == FormErrors(email, password) && isLoading == old(isLoading)
      ensures request.Some? ==> request.value == Sent(email, password) && errors == map[] && isLoading
      ensures email == old(email) && password == old(password)
    {
      var ok := ValidateForm();
      if !ok {
        return None;
      }
      isLoading := true;
      errors := map[];
      request := Some(Sent(email, password));
    }

    /** The end of `handleLogin`: loading stops; a failure with `details` shows them per field. */
    method LoginSettled(outcome: Outcome)
      modifies this
      ensures !isLoading
      ensures errors == if outcome.Rejected? then ErrorsFromDetails(outcome.details) else old(errors)
      ensures email == old(email) && password == old(password)
    {
      if outcome.Rejected? {
        errors := ErrorsFromDetails(outcome.details);
      }
      isLoading := false;
    }
  }
}
