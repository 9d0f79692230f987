/** The two-step sign-up screen: step 1 asks for the full name and the e-mail address, step 2 for
    the password, its confirmation and agreement to the terms. Each step's validator records at
    most one message per field and accepts iff it recorded none. */
module SignupScreen {
  import opened Common
  import opened JsString
  import opened EmailPattern
  import opened FormRules
  import PasswordPattern

  datatype Field = FullName | Email | Password | ConfirmPassword

  /** The property name `handleInputChange` is called with, which is also the `errors` key. */
  function Key(f: Field): string {
    match f
    case FullName => "fullName"
    case Email => "email"
    case Password => "password"
    case ConfirmPassword => "confirmPassword"
  }

  const TermsKey: string := "terms"

  /** The fields are told apart by their keys. */
  lemma KeysDistinct(f: Field, g: Field)
    ensures Key(f) == Key(g) <==> f == g
    ensures Key(f) != TermsKey
  {
  }

  /** `formData`. */
  datatype Form = Form(fullName: string, email: string, password: string, confirmPassword: string)

  const EmptyForm: Form := Form("", "", "", "")

  function Get(form: Form, f: Field): string {
    match f
    case FullName => form.fullName
    case Email => form.email
    case Password => form.password
    case ConfirmPassword => form.confirmPassword
  }

  /** `{ ...prev, [field]: value }`: the named field reads back the new value, every other field
      reads back what it held. */
  function Set(form: Form, f: Field, value: string): (r: Form)
    ensures Get(r, f) == value
    ensures forall g :: g != f ==> Get(r, g) == Get(form, g)
  {
    match f
    case FullName => form.(fullName := value)
    case Email => form.(email := value)
    case Password => form.(password := value)
    case ConfirmPassword => form.(confirmPassword := value)
  }

  // ---------------------------------------------------------------------------------------------
  // Field rules

  const NameRequired: string := "Full name is required"
  const NameTooShort: string := "Name must be at least 2 characters"
  const PasswordRequired: string := "Password is required"
  const PasswordTooShort: string := "Password must be at least 6 characters"
  const PasswordTooWeak: string := "Password must contain uppercase, lowercase, and number"
  const ConfirmRequired: string := "Please confirm your password"
  const ConfirmMismatch: string := "Passwords do not match"
  const TermsRequired: string := "Please agree to terms and conditions"

  const MinNameLength: nat := 2
  const MinPasswordLength: nat := 6

  /** The full-name rule: judged on the trimmed value. */
  function FullNameError(name: string): Option<string> {
    if Trim(name) == "" then Some(NameRequired)
    else if |Trim(name)| < MinNameLength then Some(NameTooShort)
    else None
  }

  /** The full-name rule accepts exactly the names of at least two characters once trimmed. */
  lemma FullNameErrorIff(name: string)
    ensures FullNameError(name).None? <==> |Trim(name)| >= MinNameLength
    ensures FullNameError(name) == Some(NameRequired) <==> AllWhitespace(name)
  {
  }

  /** The password rule: judged on the raw value, length first, then the three look-aheads. */
  function PasswordError(password: string): Option<string> {
    if password == "" then Some(PasswordRequired)
    else if |password| < MinPasswordLength then Some(PasswordTooShort)
    else if !PasswordPattern.StrongEnough(password) then Some(PasswordTooWeak)
    else None
  }

  /** The password rule accepts exactly the passwords of at least six characters that pass the
      regular expression's `test`. */
  lemma PasswordErrorIff(password: string)
    ensures PasswordError(password).None?
            <==> |password| >= MinPasswordLength && PasswordPattern.TestMatches(password)
  {
    PasswordPattern.StrongEnoughIffTest(password);
  }

  /** A password of only spaces is not "required": the emptiness check does not trim. */
  lemma BlankPasswordNotMissing()
    ensures PasswordError("      ") == Some(PasswordTooWeak)
  {
    var s := "      ";
    assert !PasswordPattern.Contains(PasswordPattern.FirstLine(s), PasswordPattern.Lower) by {
      var line := PasswordPattern.FirstLine(s);
      forall i | 0 <= i < |line|
        ensures !PasswordPattern.InClass(line[i], PasswordPattern.Lower)
      {
        assert line[i] == s[i];
      }
    }
  }

  function ConfirmError(password: string, confirm: string): Option<string> {
    if confirm == "" then Some(ConfirmRequired)
    else if password != confirm then Some(ConfirmMismatch)
    else None
  }

  /** The confirmation is accepted exactly when it repeats a non-empty password character for
      character; it is "required" only when it is empty. */
  lemma ConfirmErrorIff(password: string, confirm: string)
    ensures ConfirmError(password, confirm).None? <==> confirm == password && password != ""
    ensures ConfirmError(password, confirm) == Some(ConfirmRequired) <==> confirm == ""
  {
  }

  function TermsError(agreeTerms: bool): Option<string> {
    if agreeTerms then None else Some(TermsRequired)
  }

  // ---------------------------------------------------------------------------------------------
  // The validators

  /** `validateStep1`'s `newErrors`. */
  function Step1Errors(form: Form): Errors {
    var e := Record(map[], Key(FullName), FullNameError(form.fullName));
    Record(e, Key(Email), EmailError(form.email))
  }

  /** `validateStep2`'s `newErrors`. */
  function Step2Errors(form: Form, agreeTerms: bool): Errors {
    var e := Record(map[], Key(Password), PasswordError(form.password));
    var e := Record(e, Key(ConfirmPassword), ConfirmError(form.password, form.confirmPassword));
    Record(e, TermsKey, TermsError(agreeTerms))
  }

  /** `Object.keys(newErrors).length === 0`. */
  predicate Step1Accepts(form: Form) {
    |Step1Errors(form)| == 0
  }

  predicate Step2Accepts(form: Form, agreeTerms: bool) {
    |Step2Errors(form, agreeTerms)| == 0
  }

  /** Step 1 records one message per failing field and nothing else. */
  lemma Step1ErrorsPerField(form: Form)
    ensures Step1Errors(form).Keys <= {Key(FullName), Key(Email)}
    ensures Key(FullName) in Step1Errors(form) <==> FullNameError(form.fullName).Some?
    ensures Key(FullName) in Step1Errors(form) ==> Step1Errors(form)[Key(FullName)] == FullNameError(form.fullName)
    ensures Key(Email) in Step1Errors(form) <==> EmailError(form.email).Some?
    ensures Key(Email) in Step1Errors(form) ==> Step1Errors(form)[Key(Email)] == EmailError(form.email)
  {
  }

  /** Step 1 accepts exactly a name of two or more characters once trimmed and an e-mail value
      the pattern's `test` accepts. */
  lemma Step1AcceptsIff(form: Form)
    ensures Step1Accepts(form) <==> |Trim(form.fullName)| >= MinNameLength && TestMatches(form.email)
  {
    FullNameErrorIff(form.fullName);
    EmailErrorIffTest(form.email);
    if FullNameError(form.fullName).Some? {
      assert Key(FullName) in Step1Errors(form);
    }
    if EmailError(form.email).Some? {
      assert Key(Email) in Step1Errors(form);
    }
  }

  /** Step 2 records one message per failing field (terms included) and nothing else. */
  lemma Step2ErrorsPerField(form: Form, agreeTerms: bool)
    ensures Step2Errors(form, agreeTerms).Keys <= {Key(Password), Key(ConfirmPassword), TermsKey}
    ensures Key(Password) in Step2Errors(form, agreeTerms) <==> PasswordError(form.password).Some?
    ensures Key(ConfirmPassword) in Step2Errors(form, agreeTerms)
            <==> ConfirmError(form.password, form.confirmPassword).Some?
    ensures TermsKey in Step2Errors(form, agreeTerms) <==> !agreeTerms
    ensures Key(Password) in Step2Errors(form, agreeTerms)
            ==> Step2Errors(form, agreeTerms)[Key(Password)] == PasswordError(form.password)
    ensures Key(ConfirmPassword) in Step2Errors(form, agreeTerms)
            ==> Step2Errors(form, agreeTerms)[Key(ConfirmPassword)]
                == ConfirmError(form.password, form.confirmPassword)
    ensures TermsKey in Step2Errors(form, agreeTerms)
            ==> Step2Errors(form, agreeTerms)[TermsKey] == TermsError(agreeTerms)
  {
  }

  /** Step 2 accepts exactly a password of six or more characters passing the pattern's `test`,
      repeated exactly in the confirmation, with the terms agreed to. */
  lemma Step2AcceptsIff(form: Form, agreeTerms: bool)
    ensures Step2Accepts(form, agreeTerms)
            <==> && |form.password| >= MinPasswordLength
                 && PasswordPattern.TestMatches(form.password)
                 && form.confirmPassword == form.password
                 && agreeTerms
  {
    PasswordErrorIff(form.password);
    Step2ErrorsPerField(form, agreeTerms);
    var errors := Step2Errors(form, agreeTerms);
    if !Step2Accepts(form, agreeTerms) {
      assert errors != map[];
      var k :| k in errors;
    }
  }

  // ---------------------------------------------------------------------------------------------
  // What is sent

  /** The argument of `register`. */
  datatype Registration = Registration(name: string, email: string, password: string)

  /** `handleSignup`'s normalisation: trimmed name, trimmed and lower-cased e-mail, the password
      as typed. */
  function Submitted(form: Form): (r: Registration)
    ensures r.name == Trim(form.fullName) && r.password == form.password
    ensures r.email == NormalizeEmail(form.email)
  {
    Registration(Trim(form.fullName), NormalizeEmail(form.email), form.password)
  }

  /** A form both steps accept is sent as a name of two or more characters without white space at
      either end, an address that still matches the pattern after normalisation and is its own
      normal form, and a password of six or more characters. */
  lemma AcceptedFormSubmission(form: Form, agreeTerms: bool)
    requires Step1Accepts(form) && Step2Accepts(form, agreeTerms)
    ensures var r := Submitted(form);
            && |r.name| >= MinNameLength && Trim(r.name) == r.name
            && LooksLikeEmail(r.email) && NormalizeEmail(r.email) == r.email
            && |r.password| >= MinPasswordLength && PasswordPattern.TestMatches(r.password)
  {
    Step1AcceptsIff(form);
    Step2AcceptsIff(form, agreeTerms);
    TrimIdempotent(form.fullName);
    LooksLikeEmailIffTest(form.email);
    NormalizeKeepsMatch(form.email);
    NormalizeEmailIdempotent(form.email);
  }

  /** How the `register` call settled: success, a failure carrying a `details` array, or any
      other failure (reported in an alert). */
  datatype Outcome = Registered | Rejected(details: seq<Detail>) | Failed

  // ---------------------------------------------------------------------------------------------
  // The screen

  /** The screen's state. `step` is `currentStep`; step 2 is only reached through `HandleNext`,
      and step 1's inputs are not on screen while on step 2, so on step 2 the step 1 fields are
      always ones step 1 accepted. */
  class Signup {
    var form: Form
    var agreeTerms: bool
    var step: int
    var isLoading: bool
    var errors: Errors

    ghost predicate Valid()
      reads this
    {
      (step == 1 || step == 2) && (step == 2 ==> Step1Accepts(form))
    }

    constructor ()
      ensures Valid()
      ensures form == EmptyForm && !agreeTerms && step == 1 && !isLoading && errors == map[]
    {
      form := EmptyForm;
      agreeTerms := false;
      step := 1;
      isLoading := false;
      errors := map[];
    }

    /** `handleInputChange(field, value)`; only the inputs of the step on screen can call it. */
    method HandleInputChange(field: Field, value: string)
      requires Valid()
      requires step == 2 ==> field == Password || field == ConfirmPassword
      modifies this
      ensures Valid()
      ensures form == Set(old(form), field, value)
      ensures errors == ClearIfShown(old(errors), Key(field))
      ensures agreeTerms == old(agreeTerms) && step == old(step) && isLoading == old(isLoading)
    {
      form := Set(form, field, value);
      if Shows(errors, Key(field)) {
        errors := errors[Key(field) := None];
      }
    }

    /** The terms check box. */
    method ToggleTerms()
      requires Valid()
      modifies this
      ensures Valid()
      ensures agreeTerms == !old(agreeTerms)
      ensures form == old(form) && step == old(step) && isLoading == old(isLoading) && errors == old(errors)
    {
      agreeTerms := !agreeTerms;
    }

    /** The back button of step 2. */
    method HandleBack()
      requires Valid()
      modifies this
      ensures Valid()
      ensures step == 1
      ensures form == old(form) && agreeTerms == old(agreeTerms) && isLoading == old(isLoading)
      ensures errors == old(errors)
    {
      step := 1;
    }

    /** `validateStep1`: replaces the errors with step 1's and reports whether there are none. */
    method ValidateStep1() returns (ok: bool)
      modifies this
      ensures errors == Step1Errors(form) && ok == Step1Accepts(form)
      ensures form == old(form) && agreeTerms == old(agreeTerms) && step == old(step)
      ensures isLoading == old(isLoading)
    {
      errors := Step1Errors(form);
      ok := |errors| == 0;
    }

    /** `validateStep2`. */
    method ValidateStep2() returns (ok: bool)
      modifies this
      ensures errors == Step2Errors(form, agreeTerms) && ok == Step2Accepts(form, agreeTerms)
      ensures form == old(form) && agreeTerms == old(agreeTerms) && step == old(step)
      ensures isLoading == old(isLoading)
    {
      errors := Step2Errors(form, agreeTerms);
      ok := |errors| == 0;
    }

    /** `handleNext`: moves to step 2 exactly when step 1 validates. */
    method HandleNext()
      requires Valid()
      modifies this
      ensures Valid()
      ensures errors == Step1Errors(form)
      ensures step == if Step1Accepts(form) then 2 else old(step)
      ensures form == old(form) && agreeTerms == old(agreeTerms) && isLoading == old(isLoading)
    {
      var ok := ValidateStep1();
      if ok {
        step := 2;
      }
    }

    /** `handleSignup` up to the `register` call: nothing is sent unless step 2 validates; when it
        does, the screen starts loading with no errors and sends the normalised registration
        (which `AcceptedFormSubmission` shows satisfies both steps' rules). */
    method HandleSignup() returns (request: Option<Registration>)
      requires Valid() && step == 2
      modifies this
      ensures Valid()
      ensures request.Some? <==> Step2Accepts(form, agreeTerms)
      ensures request.None? ==> errors == Step2Errors(form, agreeTerms) && isLoading == old(isLoading)
      ensures request.Some? ==> && request.value == Submitted(form)
                                && errors == map[] && isLoading
                                && Step1Accepts(form)
      ensures form == old(form) && agreeTerms == old(agreeTerms) && step == old(step)
    {
      var ok := ValidateStep2();
      if !ok {
        return None;
      }
      isLoading := true;
      errors := map[];
      request := Some(Submitted(form));
    }

    /** The end of `handleSignup`: loading stops; a failure with `details` shows them per field. */
    method SignupSettled(outcome: Outcome)
      requires Valid()
      modifies this
      ensures Valid()
      ensures !isLoading
      ensures errors == if outcome.Rejected? then ErrorsFromDetails(outcome.details) else old(errors)
      ensures form == old(form) && agreeTerms == old(agreeTerms) && step == old(step)
    {
      if outcome.Rejected? {
        errors := ErrorsFromDetails(outcome.details);
      }
      isLoading := false;
    }
  }
}
