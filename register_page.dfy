/** The registration page: the client-side form check and the submit
    handler that calls `register` only for a valid form. */
module RegisterPage {

  import opened Common
  import opened Text
  import opened UserModel
  import opened UserController

  const MismatchMessage := "Les mots de passe ne correspondent pas"
  const TooShortMessage := "Le mot de passe doit contenir au moins 8 caractères"
  const DefaultErrorMessage := "Une erreur s'est produite lors de l'inscription"
  const MinClientPasswordLength := 8

  /** What `validateForm` returns, with the error it sets when it fails. */
  datatype Validation = Valid | Invalid(message: string)

  /** `validateForm`: a mismatch is reported before a short password. */
  function ValidateForm(password: string, confirmPassword: string): (v: Validation)
    ensures v.Valid? <==> password == confirmPassword && Utf16Length(password) >= MinClientPasswordLength
    ensures password != confirmPassword ==> v == Invalid(MismatchMessage)
    ensures password == confirmPassword && Utf16Length(password) < MinClientPasswordLength ==> v == Invalid(TooShortMessage)
  {
    if password != confirmPassword then Invalid(MismatchMessage)
    else if Utf16Length(password) < MinClientPasswordLength then Invalid(TooShortMessage)
    else Valid
  }

  /** The request `register(username, email, password)` sends. */
  datatype RegisterRequest = RegisterRequest(username: string, email: string, password: string)

  /** How the awaited `register` call ends: it resolves, or it throws an
      error whose `error` field may be missing. */
  datatype CallOutcome = Resolved | Rejected(error: Option<string>)

  class RegisterForm {
    var username: string
    var email: string
    var password: string
    var confirmPassword: string
    var error: string
    var navigatedTo: Option<string>

    constructor ()
      ensures username == "" && email == "" && password == "" && confirmPassword == ""
      ensures error == "" && navigatedTo == None
    {
      username, email, password, confirmPassword := "", "", "", "";
      error := "";
      navigatedTo := None;
    }

    /** `handleRegister`: clears the error, validates, and only for a valid
        form sends the request; `outcome` is how that request ends. */
    method HandleRegister(outcome: CallOutcome) returns (sent: Option<RegisterRequest>)
      modifies this
      ensures sent.Some? <==> ValidateForm(password, confirmPassword).Valid?
      ensures sent.Some? ==> sent.value == RegisterRequest(username, email, password)
      ensures ValidateForm(password, confirmPassword).Invalid? ==>
        error == ValidateForm(password, confirmPassword).message && navigatedTo == old(navigatedTo)
      ensures sent.Some? && outcome.Resolved? ==> error == "" && navigatedTo == Some("/")
      ensures sent.Some? && outcome.Rejected? ==>
        navigatedTo == old(navigatedTo)
        && error == (if outcome.error.Some? && outcome.error.value != "" then outcome.error.value else DefaultErrorMessage)
      ensures username == old(username) && email == old(email)
      ensures password == old(password) && confirmPassword == old(confirmPassword)
    {
      error := "";
      var v := ValidateForm(password, confirmPassword);
      if v.Invalid? {
        error := v.message;
        return None;
      }
      sent := Some(RegisterRequest(username, email, password));
      match outcome
      case Resolved =>
        navigatedTo := Some("/");
      case Rejected(e) =>
        error := if e.Some? && e.value != "" then e.value else DefaultErrorMessage;
    }
  }

  /** A request the form lets through never fails the server's presence or
      length check on the password: the client asks for 8 characters, the
      server for 6. */
  lemma {:induction false} ClientCheckCoversServerPassword(users: map<Id, User>, username: string, email: string, password: string)
    requires ValidateForm(password, password).Valid?
    requires username != "" && email != ""
    ensures RegisterGuard(users, username, email, password) != Some(MissingField)
    ensures RegisterGuard(users, username, email, password) != Some(ShortPassword)
  {
    assert Utf16Length(password) >= MinClientPasswordLength;
    assert password != "";
  }

  /** The converse fails: a 6-character password that the server accepts is
      refused by the form. */
  lemma ServerAcceptsWhatFormRefuses()
    ensures var p := "abcdef";
      Utf16Length(p) >= MinPasswordLength && ValidateForm(p, p) == Invalid(TooShortMessage)
  {
    Utf16LengthInBasicPlane("abcdef");
  }
}
