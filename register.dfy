/**
 * The sign-up form (RegisterForm): the client-side password checks, in the order the
 * form applies them, and what a submit leaves on screen once the registration request
 * has been answered. The request itself is an oracle: its reply is a parameter.
 */
module Register {
  import opened Wrappers
  import opened JsText

  /** The shortest password the form lets through, in UTF-16 code units (`password.length`). */
  const MinPasswordLength: nat := 6

  const MismatchError := "Las contraseñas no coinciden"
  const TooShortError := "La contraseña debe tener al menos 6 caracteres"
  const DefaultServerError := "Error al registrar usuario"
  const ConnectionError := "Error al conectar con el servidor"

  /** Where a successful registration sends the browser. */
  const LoginAfterRegister := "/auth/login?registered=true"

  /** Why the form refused to send the request. */
  datatype Rejection = Mismatch | TooShort

  function RejectionMessage(r: Rejection): (m: string)
    ensures m != ""
  {
    match r
    case Mismatch => MismatchError
    case TooShort => TooShortError
  }

  /** The checks before any request: the confirmation first, then the length. */
  function CheckPassword(password: string, confirm: string): (r: Option<Rejection>)
    ensures r.None? <==> password == confirm && Utf16Length(password) >= MinPasswordLength
  {
    if password != confirm then Some(Mismatch)
    else if Utf16Length(password) < MinPasswordLength then Some(TooShort)
    else None
  }

  /** A mismatch is reported whatever the length, so a short mismatched pair reports
   *  the mismatch and never the length. */
  lemma MismatchReportedFirst(password: string, confirm: string)
    requires password != confirm
    ensures CheckPassword(password, confirm) == Some(Mismatch)
  {
  }

  /** A matching pair shorter than six code units is refused for its length only. */
  lemma ShortMatchingRefused(password: string)
    requires Utf16Length(password) < MinPasswordLength
    ensures CheckPassword(password, password) == Some(TooShort)
  {
  }

  /** The length is counted in UTF-16 code units: six characters always pass, and
   *  three characters outside the Basic Multilingual Plane pass as well. */
  lemma LengthInCodeUnits(password: string)
    requires |password| >= 6 || (|password| == 3 && forall i :: 0 <= i < 3 ==> password[i] as int >= 0x1_0000)
    ensures CheckPassword(password, password).None?
  {
    if |password| == 3 {
      assert password == [password[0]] + [password[1]] + [password[2]];
      Utf16LengthAppend([password[0]] + [password[1]], [password[2]]);
      Utf16LengthAppend([password[0]], [password[1]]);
      assert Utf16Length([password[0]]) == 2;
      assert Utf16Length([password[1]]) == 2;
      assert Utf16Length([password[2]]) == 2;
    }
  }

  /** What the request to /api/auth/register ended in. */
  datatype Reply =
    | Thrown                                     // fetch rejected, or the reply body was not JSON
    | Response(ok: bool, error: Option<string>)  // `res.ok` and the `error` member of the JSON body

  /** The body posted to the server. */
  datatype RegisterRequest = RegisterRequest(name: string, email: string, password: string)

  datatype Submission =
    | Rejected(why: Rejection)   // a check failed; nothing was sent
    | Failed(message: string)    // the request was sent and did not register the user
    | Registered                 // the server accepted; the browser goes to the login page

  /** The outcome of one submit. */
  function SubmissionOf(password: string, confirm: string, reply: Reply): Submission {
    match CheckPassword(password, confirm)
    case Some(why) => Rejected(why)
    case None =>
      match reply
      case Thrown => Failed(ConnectionError)
      case Response(ok, error) =>
        if ok then Registered
        else Failed(if error.Some? && error.value != "" then error.value else DefaultServerError)
  }

  /** The error line the form shows afterwards ("" shows nothing). */
  function ErrorShown(s: Submission): string {
    match s
    case Rejected(why) => RejectionMessage(why)
    case Failed(message) => message
    case Registered => ""
  }

  /** Every outcome but a registration leaves a visible error; the request is sent
   *  exactly when the checks pass; a server error text, when present, is shown as is. */
  lemma SubmissionOutcome(password: string, confirm: string, reply: Reply)
    ensures var s := SubmissionOf(password, confirm, reply);
      && (s.Rejected? <==> CheckPassword(password, confirm).Some?)
      && (s.Registered? <==> CheckPassword(password, confirm).None? && reply.Response? && reply.ok)
      && (ErrorShown(s) == "" <==> s.Registered?)
      && (s.Failed? && reply.Response? && reply.error.Some? && reply.error.value != "" ==> ErrorShown(s) == reply.error.value)
      && (s.Failed? && reply.Thrown? ==> ErrorShown(s) == ConnectionError)
  {
  }

  /** The form's state. */
  class RegisterForm {
    var name: string
    var email: string
    var password: string
    var confirmPassword: string
    var error: string
    var isLoading: bool
    /** The requests sent, oldest first. */
    var sent: seq<RegisterRequest>
    /** The pages the router was asked to show, oldest first. */
    var navigations: seq<string>

    constructor ()
      ensures name == "" && email == "" && password == "" && confirmPassword == ""
      ensures error == "" && !isLoading && sent == [] && navigations == []
    {
      name := "";
      email := "";
      password := "";
      confirmPassword := "";
      error := "";
      isLoading := false;
      sent := [];
      navigations := [];
    }

    /** handleSubmit, with the server's answer as `reply`. */
    method HandleSubmit(reply: Reply) returns (outcome: Submission)
      modifies this`error, this`isLoading, this`sent, this`navigations
      ensures outcome == SubmissionOf(password, confirmPassword, reply)
      ensures error == ErrorShown(outcome)
      ensures outcome.Rejected? ==> sent == old(sent) && isLoading == old(isLoading)
      ensures !outcome.Rejected? ==> sent == old(sent) + [RegisterRequest(name, email, password)] && !isLoading
      ensures navigations == old(navigations) + (if outcome.Registered? then [LoginAfterRegister] else [])
    {
      error := "";
      if password != confirmPassword {
        error := MismatchError;
        return Rejected(Mismatch);
      }
      if Utf16Length(password) < MinPasswordLength {
        error := TooShortError;
        return Rejected(TooShort);
      }
      isLoading := true;
      sent := sent + [RegisterRequest(name, email, password)];
      if reply.Thrown? {
        error := ConnectionError;
        outcome := Failed(ConnectionError);
      } else if !reply.ok {
        var message := if reply.error.Some? && reply.error.value != "" then reply.error.value else DefaultServerError;
        error := message;
        outcome := Failed(message);
      } else {
        navigations := navigations + [LoginAfterRegister];
        outcome := Registered;
      }
      isLoading := false;
    }
  }
}
