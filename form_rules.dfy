/** What the sign-up and log-in screens share: the `errors` object they keep in state, the e-mail
    field rule, and the server's per-field validation details. */
module FormRules {
  import opened Common
  import opened JsString
  import opened EmailPattern

  /** A screen's `errors` object: a key maps to a message, or to `null` once cleared. */
  type Errors = map<string, Option<string>>

  /** `errors[key]` is truthy: the screen shows an error under that field. */
  predicate Shows(errors: Errors, key: string) {
    key in errors && Truthy(errors[key])
  }

  /** `{ ...prev, [key]: null }` when `errors[key]` is truthy, otherwise `errors` as it was. */
  function ClearIfShown(errors: Errors, key: string): (r: Errors)
    ensures !Shows(r, key)
    ensures forall k :: k != key ==> (k in r <==> k in errors)
    ensures forall k :: k != key && k in r ==> r[k] == errors[k]
    ensures !Shows(errors, key) ==> r == errors
  {
    if Shows(errors, key) then errors[key := None] else errors
  }

  /** `newErrors.<key> = message` when a rule produced one. */
  function Record(errors: Errors, key: string, e: Option<string>): Errors {
    if e.Some? then errors[key := e] else errors
  }

  const EmailRequired: string := "Email is required"
  const EmailInvalid: string := "Please enter a valid email"

  /** The e-mail rule of both screens: a blank value is missing, otherwise it must pass the
      unanchored `\S+@\S+\.\S+` test. At most one message. */
  function EmailError(email: string): (r: Option<string>)
    ensures r.Some? ==> r.value == EmailRequired || r.value == EmailInvalid
  {
    if Trim(email) == "" then Some(EmailRequired)
    else if !LooksLikeEmail(email) then Some(EmailInvalid)
    else None
  }

  /** The rule accepts exactly the values the regular expression's `test` accepts: the blank
      check never refuses a value the pattern would take. It asks for the address only when the
      value is blank. */
  lemma EmailErrorIffTest(email: string)
    ensures EmailError(email).None? <==> TestMatches(email)
    ensures EmailError(email) == Some(EmailRequired) <==> AllWhitespace(email)
  {
    LooksLikeEmailIffTest(email);
    if AllWhitespace(email) {
      BlankNeverMatches(email);
    }
  }

  /** One entry of a server reply's `details` array. */
  datatype Detail = Detail(field: string, message: string)

  /** `details.forEach(d => errors[d.field] = d.message)` on an empty object: one key per field
      named, holding the message of the LAST detail that names it. */
  function ErrorsFromDetails(details: seq<Detail>): (r: Errors)
    ensures forall k :: k in r <==> exists i :: 0 <= i < |details| && details[i].field == k
    decreases |details|
  {
    if details == [] then map[]
    else
      var last := details[|details| - 1];
      var front := ErrorsFromDetails(details[..|details| - 1]);
      assert forall i :: 0 <= i < |details| - 1 ==> details[..|details| - 1][i] == details[i];
      front[last.field := Some(last.message)]
  }

  /** Later details overwrite earlier ones: each key holds the message of the last detail that
      names its field. */
  lemma {:induction false} DetailsLastWins(details: seq<Detail>, i: nat)
    requires i < |details|
    requires forall j :: i < j < |details| ==> details[j].field != details[i].field
    ensures details[i].field in ErrorsFromDetails(details)
    ensures ErrorsFromDetails(details)[details[i].field] == Some(details[i].message)
    decreases |details|
  {
    if i < |details| - 1 {
      var front := details[..|details| - 1];
      assert front[i] == details[i];
      forall j | i < j < |front|
        ensures front[j].field != front[i].field
      {
        assert front[j] == details[j];
      }
      DetailsLastWins(front, i);
    }
  }
}
