/**
 The Login page: a form with two modes sharing one page, the submit-enabled
 rule of each mode, the request each mode sends, and what a reply does to
 the form, the local storage area and the page location.
 */
module LoginForm {
  import opened Wrappers
  import opened Storage
  import opened Validation

  datatype Mode = Login | Signup

  /** The `name` attributes of the form's inputs. */
  datatype Field = Email | Password | ConfirmPassword

  /** The payload object; `confirmPassword` exists only once the form has been reset for Signup. */
  datatype Payload = Payload(email: string, password: string, confirmPassword: Option<string>)

  datatype Status = Success | Failure

  /** The banner message: a status and its text. */
  datatype Notice = Notice(status: Status, content: string)

  datatype Form = Form(mode: Mode, payload: Payload, message: Option<Notice>)

  /** The form on first render: Login mode, empty email and password, no message. */
  const Initial: Form := Form(Login, Payload("", "", None), None)

  /** A field as `payload[name]` reads it: absent for a missing `confirmPassword`. */
  function Read(p: Payload, f: Field): Option<string> {
    match f
    case Email => Some(p.email)
    case Password => Some(p.password)
    case ConfirmPassword => p.confirmPassword
  }

  /**
   Switching mode. The reset effect depends on the mode only, so choosing
   the current mode again changes nothing; choosing the other mode empties
   every field (with `confirmPassword` present exactly in Signup) and
   clears the message.
   */
  function SwitchMode(f: Form, m: Mode): (r: Form)
    ensures r.mode == m
    ensures m == f.mode ==> r == f
    ensures m != f.mode ==> r.message.None?
    ensures m != f.mode ==> Read(r.payload, Email) == Some("") && Read(r.payload, Password) == Some("")
    ensures m != f.mode ==> (Read(r.payload, ConfirmPassword).Some? <==> m == Signup)
    ensures m != f.mode ==> forall g :: Read(r.payload, g).Some? ==> Read(r.payload, g) == Some("")
  {
    if m == f.mode then f
    else
      match m
      case Login => Form(Login, Payload("", "", None), None)
      case Signup => Form(Signup, Payload("", "", Some("")), None)
  }

  /** `handlePayloadUpdate`: the named field takes the new value; nothing else changes. */
  function Edit(f: Form, name: Field, value: string): (r: Form)
    ensures Read(r.payload, name) == Some(value)
    ensures forall g :: g != name ==> Read(r.payload, g) == Read(f.payload, g)
    ensures r.mode == f.mode && r.message == f.message
  {
    match name
    case Email => f.(payload := f.payload.(email := value))
    case Password => f.(payload := f.payload.(password := value))
    case ConfirmPassword => f.(payload := f.payload.(confirmPassword := Some(value)))
  }

  /** The banner's close button: the message goes away; nothing else changes. */
  function Dismiss(f: Form): (r: Form)
    ensures r.message.None?
    ensures r.mode == f.mode && r.payload == f.payload
  {
    f.(message := None)
  }

  /**
   The negation of the submit button's `disabled` expression, clause by
   clause: truthiness of a string is non-emptiness, and `===` against a
   missing `confirmPassword` is false. The Login clause tests EMAIL_REGEX
   twice and PASSWORD_REGEX never.
   */
  predicate SubmitEnabled(f: Form) {
    var p := f.payload;
    || (f.mode == Signup && p.password != "" && p.email != "" && IsValidEmail(p.email)
        && IsValidPassword(p.password) && p.confirmPassword == Some(p.password))
    || (f.mode == Login && p.email != "" && IsValidEmail(p.email) && p.password != ""
        && IsValidEmail(p.email))
  }

  /**
   What the submit rule amounts to in each mode: Login needs a valid email
   and a non-empty password; Signup needs a valid email, a valid password and
   a matching confirmation.
   */
  lemma SubmitEnabledIff(f: Form)
    ensures f.mode == Login ==>
      (SubmitEnabled(f) <==> IsValidEmail(f.payload.email) && f.payload.password != "")
    ensures f.mode == Signup ==>
      (SubmitEnabled(f) <==> IsValidEmail(f.payload.email) && IsValidPassword(f.payload.password)
                             && f.payload.confirmPassword == Some(f.payload.password))
  {
  }

  /** In Login mode the password rule is not applied: a one-character password can be submitted. */
  lemma LoginIgnoresPasswordRule()
    ensures !IsValidPassword("x")
    ensures SubmitEnabled(Form(Login, Payload("ab@cd.ef", "x", None), None))
  {
    var s := "ab@cd.ef";
    assert EmailSplit(s, 2, 5);
    ValidEmailIffRegexMatches(s);
  }

  /** The request bodies the two endpoints receive. */
  datatype AuthRequest =
    | LoginRequest(email: string, password: string)
    | SignupRequest(username: string, email: string, password: string)

  /**
   Pressing Submit: nothing is sent while the button is disabled; otherwise
   Login mode sends email and password, and Signup mode sends the derived
   username too, which is then non-empty, free of '@', and the email's text
   before its only '@'.
   */
  function Submit(f: Form): (r: Option<AuthRequest>)
    ensures r.Some? <==> SubmitEnabled(f)
    ensures r.Some? ==> r.value.email == f.payload.email && r.value.password == f.payload.password
    ensures r.Some? ==> (r.value.LoginRequest? <==> f.mode == Login)
    ensures r.Some? && r.value.SignupRequest? ==>
      && |r.value.username| > 0
      && '@' !in r.value.username
      && |r.value.username| < |r.value.email|
      && r.value.email[..|r.value.username|] == r.value.username
      && r.value.email[|r.value.username|] == '@'
      && IsValidPassword(r.value.password)
  {
    if !SubmitEnabled(f) then None
    else if f.mode == Login then Some(LoginRequest(f.payload.email, f.payload.password))
    else
      UsernameOfValidEmail(f.payload.email);
      Some(SignupRequest(Username(f.payload.email), f.payload.email, f.payload.password))
  }

  /** How a login request ends: a reply reaching the success handler, or a rejection. */
  datatype LoginReply = LoginResponse(status: int, accessToken: string, refreshToken: string) | LoginRejected

  /** How a signup request ends. */
  datatype SignupReply = SignupResponse(status: int) | SignupRejected

  /** The effect of a login reply: the form, the local storage area, and a page navigation if any. */
  datatype LoginOutcome = LoginOutcome(form: Form, local: Area, navigate: Option<string>)

  const LoginSucceeded: Notice := Notice(Success, "Login successful")
  const LoginFailed: Notice := Notice(Failure, "Login failed!")
  const SignupSucceeded: Notice := Notice(Success, "Registration successful")
  const SignupFailed: Notice := Notice(Failure, "Account already registered!")

  /**
   A login reply. Status 200 stores both tokens under their keys, sets the
   success message and navigates to "/"; a rejection only sets the failure
   message; any other status changes nothing. Storage is written and a
   navigation happens only on 200.
   */
  function OnLoginReply(f: Form, local: Area, reply: LoginReply): (o: LoginOutcome)
    ensures o.form.mode == f.mode && o.form.payload == f.payload
    ensures reply.LoginResponse? && reply.status == 200 ==>
      && GetItem(o.local, RefreshTokenKey) == Some(reply.refreshToken)
      && GetItem(o.local, AccessTokenKey) == Some(reply.accessToken)
      && o.form.message == Some(Notice(Success, "Login successful"))
      && o.navigate == Some("/")
    ensures !(reply.LoginResponse? && reply.status == 200) ==> o.local == local && o.navigate.None?
    ensures reply.LoginRejected? ==> o.form.message == Some(Notice(Failure, "Login failed!"))
    ensures reply.LoginResponse? && reply.status != 200 ==> o.form == f
  {
    match reply
    case LoginResponse(status, accessToken, refreshToken) =>
      if status == 200 then
        LoginOutcome(FormAfterLogin(f, reply), StoreTokens(local, accessToken, refreshToken), Some("/"))
      else
        LoginOutcome(FormAfterLogin(f, reply), local, None)
    case LoginRejected =>
      LoginOutcome(FormAfterLogin(f, reply), local, None)
  }

  /** The form part of a login reply: only the message can change. */
  function FormAfterLogin(f: Form, reply: LoginReply): Form {
    match reply
    case LoginResponse(status, _, _) => if status == 200 then f.(message := Some(LoginSucceeded)) else f
    case LoginRejected => f.(message := Some(LoginFailed))
  }

  /**
   A signup reply: status 201 sets the success message, a rejection the
   "already registered" message, any other status nothing; the mode and the
   payload are kept either way.
   */
  function OnSignupReply(f: Form, reply: SignupReply): (r: Form)
    ensures r.mode == f.mode && r.payload == f.payload
    ensures reply == SignupResponse(201) ==> r.message == Some(Notice(Success, "Registration successful"))
    ensures reply.SignupRejected? ==> r.message == Some(Notice(Failure, "Account already registered!"))
    ensures reply.SignupResponse? && reply.status != 201 ==> r == f
  {
    match reply
    case SignupResponse(status) => if status == 201 then f.(message := Some(SignupSucceeded)) else f
    case SignupRejected => f.(message := Some(SignupFailed))
  }

  /** What can happen to the form: the mode buttons, typing, the close button, and the two replies. */
  datatype Event =
    | ChooseMode(mode: Mode)
    | Type(name: Field, value: string)
    | Close
    | LoginDone(loginReply: LoginReply)
    | SignupDone(signupReply: SignupReply)

  /** The confirmation input exists only in Signup mode; the other two always. */
  predicate Rendered(f: Form, name: Field) {
    name != ConfirmPassword || f.mode == Signup
  }

  /** One event; typing into an input that is not rendered cannot happen and changes nothing. */
  function Next(f: Form, e: Event): Form {
    match e
    case ChooseMode(m) => SwitchMode(f, m)
    case Type(name, value) => if Rendered(f, name) then Edit(f, name, value) else f
    case Close => Dismiss(f)
    case LoginDone(reply) => FormAfterLogin(f, reply)
    case SignupDone(reply) => OnSignupReply(f, reply)
  }

  function Run(f: Form, events: seq<Event>): Form
    decreases |events|
  {
    if |events| == 0 then f else Run(Next(f, events[0]), events[1..])
  }

  /** The payload has a `confirmPassword` exactly in Signup mode. */
  predicate WellShaped(f: Form) {
    f.payload.confirmPassword.Some? <==> f.mode == Signup
  }

  /**
   From the first render, whatever happens, the payload carries a
   confirmation exactly in Signup mode; so a Login-mode payload never has
   one, and a Signup-mode payload is never missing one.
   */
  lemma {:induction false} RunKeepsShape(events: seq<Event>)
    ensures WellShaped(Initial)
    ensures WellShaped(Run(Initial, events))
  {
    ShapePreserved(Initial, events);
  }

  lemma {:induction false} ShapePreserved(f: Form, events: seq<Event>)
    requires WellShaped(f)
    ensures WellShaped(Run(f, events))
    decreases |events|
  {
    if |events| > 0 {
      ShapePreserved(Next(f, events[0]), events[1..]);
    }
  }
}
