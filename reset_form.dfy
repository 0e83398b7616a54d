/** The reset-password page (src/components/auth/ResetPassword.tsx): the
    client-side strength check `validatePassword` and the checks `handleSubmit`
    runs before it calls the reset route. The page's state is a class whose
    fields the handler updates; the answer of the reset call is a parameter. */
module ResetForm {
  import opened Text
  import opened Seqs
  import opened Users
  import opened PasswordResets
  import opened ResetRoutes

  // ---------------------------------------------------------------------
  // validatePassword

  const TooShortMessage: string := "Password must be at least 8 characters long"
  const NoUpperMessage: string := "Password must contain at least one uppercase letter"
  const NoLowerMessage: string := "Password must contain at least one lowercase letter"
  const NoDigitMessage: string := "Password must contain at least one number"

  /** The page's minimum length, the same as the reset route's. */
  const MinPasswordLength: nat := 8

  /** `/[A-Z]/.test(pwd)`, `/[a-z]/.test(pwd)` and `/\d/.test(pwd)`. */
  predicate HasUpper(pwd: string) { exists i :: 0 <= i < |pwd| && IsUpper(pwd[i]) }
  predicate HasLower(pwd: string) { exists i :: 0 <= i < |pwd| && IsLower(pwd[i]) }
  predicate HasDigit(pwd: string) { exists i :: 0 <= i < |pwd| && IsDigit(pwd[i]) }

  /** A password the page accepts. */
  predicate Strong(pwd: string) {
    |pwd| >= MinPasswordLength && HasUpper(pwd) && HasLower(pwd) && HasDigit(pwd)
  }

  /** Where each message stands in the order the checks run. */
  function MessageRank(m: string): nat {
    if m == TooShortMessage then 0
    else if m == NoUpperMessage then 1
    else if m == NoLowerMessage then 2
    else 3
  }

  /** `validatePassword`: one message per failed check, in the order the
      checks run: length, upper case, lower case, digit. */
  function ValidatePassword(pwd: string): (errors: seq<string>)
    ensures errors == [] <==> Strong(pwd)
    ensures |errors| <= 4
    ensures TooShortMessage in errors <==> |pwd| < MinPasswordLength
    ensures NoUpperMessage in errors <==> !HasUpper(pwd)
    ensures NoLowerMessage in errors <==> !HasLower(pwd)
    ensures NoDigitMessage in errors <==> !HasDigit(pwd)
    ensures forall m :: m in errors ==> m in [TooShortMessage, NoUpperMessage, NoLowerMessage, NoDigitMessage]
    ensures forall i, j :: 0 <= i < j < |errors| ==> MessageRank(errors[i]) < MessageRank(errors[j])
  {
    (if |pwd| < MinPasswordLength then [TooShortMessage] else [])
    + (if !HasUpper(pwd) then [NoUpperMessage] else [])
    + (if !HasLower(pwd) then [NoLowerMessage] else [])
    + (if !HasDigit(pwd) then [NoDigitMessage] else [])
  }

  // ---------------------------------------------------------------------
  // handleSubmit

  /** Why the page refuses to send the form. */
  datatype Refusal =
    | BothRequired
    | Mismatch
    | Weak(errors: seq<string>)
    | NoToken
  {
    /** The text the page shows. */
    function Message(): string {
      match this
      case BothRequired => "Both password fields are required"
      case Mismatch => "Passwords do not match"
      case Weak(errors) => Join(errors, ". ")
      case NoToken => "Invalid reset token"
    }
  }

  /** The checks `handleSubmit` runs before calling the route, in its order;
      `token` is the `token` query parameter, "" when it is absent. */
  function SubmitCheck(password: string, confirm: string, token: string): (r: Option<Refusal>)
    ensures r == Some(BothRequired) <==> password == "" || confirm == ""
    ensures r == Some(Mismatch) <==> password != "" && confirm != "" && password != confirm
    ensures r.Some? && r.value.Weak? <==>
      password != "" && password == confirm && !Strong(password)
    ensures r.Some? && r.value.Weak? ==> r.value.errors == ValidatePassword(password) && r.value.errors != []
    ensures r == Some(NoToken) <==> password != "" && password == confirm && Strong(password) && token == ""
    ensures r.None? <==> password != "" && password == confirm && Strong(password) && token != ""
  {
    if password == "" || confirm == "" then Some(BothRequired)
    else if password != confirm then Some(Mismatch)
    else if ValidatePassword(password) != [] then Some(Weak(ValidatePassword(password)))
    else if token == "" then Some(NoToken)
    else None
  }

  /** What the reset call answered. */
  datatype Reply =
    | Succeeded
    | Refused(error: string)
    | NetworkFailure

  const FallbackError: string := "Failed to reset password"
  const NetworkError: string := "Network error. Please check your connection and try again."

  /** The page's state. */
  class ResetPasswordForm {
    var password: string
    var confirmPassword: string
    var token: string
    var loading: bool
    var error: Option<string>
    var success: bool

    /** A fresh page for the `token` of its address. */
    constructor(token: string)
      ensures this.token == token && password == "" && confirmPassword == ""
      ensures !loading && error.None? && !success
    {
      this.token := token;
      password := "";
      confirmPassword := "";
      loading := false;
      error := None;
      success := false;
    }

    /** `handleSubmit`: the route is called (`called`) only when every check
        passes; `reply` is what it answers then. The typed fields and the
        token are left as they are. */
    method HandleSubmit(reply: Reply) returns (called: bool)
      modifies this
      ensures password == old(password) && confirmPassword == old(confirmPassword) && token == old(token)
      ensures !loading
      ensures called <==> SubmitCheck(password, confirmPassword, token).None?
      ensures !called ==>
        error == Some(SubmitCheck(password, confirmPassword, token).value.Message()) && success == old(success)
      ensures called && reply.Succeeded? ==> success && error.None?
      ensures called && reply.Refused? ==>
        success == old(success) && error == Some(if reply.error != "" then reply.error else FallbackError)
      ensures called && reply.NetworkFailure? ==> success == old(success) && error == Some(NetworkError)
    {
      loading := true;
      error := None;
      var refusal := SubmitCheck(password, confirmPassword, token);
      if refusal.Some? {
        error := Some(refusal.value.Message());
        loading := false;
        return false;
      }
      called := true;
      match reply {
        case Succeeded =>
          success := true;
        case Refused(e) =>
          error := Some(if e != "" then e else FallbackError);
        case NetworkFailure =>
          error := Some(NetworkError);
      }
      loading := false;
    }
  }

  /** A form the page sends is never refused by the route for a missing field
      or a short password: those refusals are left to the token and account. */
  lemma SubmittedFormPassesFieldChecks(users: seq<User>, resets: seq<ResetRecord>, now: int,
                                       password: string, confirm: string, token: string)
    requires SubmitCheck(password, confirm, token).None?
    ensures ResetCheck(users, resets, now, token, password) != Some(ResetMissingFields)
    ensures ResetCheck(users, resets, now, token, password) != Some(ResetPasswordTooShort)
    ensures ResetCheck(users, resets, now, token, password).Some? ==>
      ResetCheck(users, resets, now, token, password).value in {InvalidResetToken, AccountUnavailable}
  {
    assert |password| >= ResetMinPassword;
  }
}
