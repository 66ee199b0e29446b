/** The authentication page (app/auth/page.tsx): which of the login,
    registration and confirmation forms is shown, the address waiting for
    confirmation, and the redirects to the home page. */
module AuthPage {
  import opened Wrappers
  import opened AuthContext

  datatype Mode = LoginMode | RegisterMode | ConfirmMode

  /** What the page renders. */
  datatype AuthView = LoginFormView | RegisterFormView | ConfirmFormView(email: string) | NoView

  const Home := "/"

  /** handleToggleMode: login goes to register, anything else to login. */
  function Toggled(m: Mode): (r: Mode)
    ensures r != ConfirmMode
    ensures r == RegisterMode <==> m == LoginMode
  {
    if m == LoginMode then RegisterMode else LoginMode
  }

  /** Between the login and registration forms the toggle is its own inverse. */
  lemma ToggleTwice(m: Mode)
    ensures Toggled(Toggled(m)) == (if m == ConfirmMode then RegisterMode else m)
  {
  }

  /** The mode a rendered form belongs to. */
  function ModeOf(v: AuthView): Option<Mode>
  {
    match v
    case LoginFormView => Some(LoginMode)
    case RegisterFormView => Some(RegisterMode)
    case ConfirmFormView(_) => Some(ConfirmMode)
    case NoView => None
  }

  /** The effect on user: a signed-in user is sent to the home page. */
  function RedirectFor(user: Option<User>): (r: Option<string>)
    ensures r.Some? <==> user.Some?
    ensures r.Some? ==> r.value == Home
  {
    if user.Some? then Some(Home) else None
  }

  class AuthPageState {
    var mode: Mode
    var confirmationEmail: string

    constructor ()
      ensures mode == LoginMode && confirmationEmail == ""
    {
      mode := LoginMode;
      confirmationEmail := "";
    }

    /** With no user, the one form of the current mode (the confirmation form
        with the address to confirm); with a user, nothing. */
    function View(user: Option<User>): (v: AuthView)
      reads this
      ensures v == NoView <==> user.Some?
      ensures user.None? ==> ModeOf(v) == Some(mode)
      ensures v.ConfirmFormView? ==> v.email == confirmationEmail
    {
      if user.Some? then NoView
      else
        match mode
        case LoginMode => LoginFormView
        case RegisterMode => RegisterFormView
        case ConfirmMode => ConfirmFormView(confirmationEmail)
    }

    method HandleToggleMode()
      modifies this
      ensures mode == Toggled(old(mode)) && confirmationEmail == old(confirmationEmail)
    {
      mode := if mode == LoginMode then RegisterMode else LoginMode;
    }

    /** handleRegistrationSuccess(email, needsConfirmation): either the
        confirmation form for that address, or a redirect home with the
        state left as it was. */
    method HandleRegistrationSuccess(email: string, needsConfirmation: bool) returns (redirect: Option<string>)
      modifies this
      ensures needsConfirmation ==>
                mode == ConfirmMode && confirmationEmail == email && redirect == None
      ensures !needsConfirmation ==>
                mode == old(mode) && confirmationEmail == old(confirmationEmail) && redirect == Some(Home)
    {
      if needsConfirmation {
        confirmationEmail := email;
        mode := ConfirmMode;
        redirect := None;
      } else {
        redirect := Some(Home);
      }
    }

    method HandleConfirmationSuccess()
      modifies this
      ensures mode == LoginMode && confirmationEmail == old(confirmationEmail)
    {
      mode := LoginMode;
    }

    /** The confirmation form's "back to login". */
    method BackToLogin()
      modifies this
      ensures mode == LoginMode && confirmationEmail == old(confirmationEmail)
    {
      mode := LoginMode;
    }
  }

  /** A registration that needs confirmation shows the confirmation form
      for that address; confirming it brings back the login form. */
  method RegistrationRoundTrip(page: AuthPageState, email: string)
    modifies page
    ensures page.View(None) == LoginFormView && page.confirmationEmail == email
  {
    var redirect := page.HandleRegistrationSuccess(email, true);
    assert page.View(None) == ConfirmFormView(email);
    page.HandleConfirmationSuccess();
  }
}
