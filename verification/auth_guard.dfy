/** The route guard of components/auth/auth-guard.tsx: a spinner while the
    session is being checked, then the protected children for a signed-in
    user, or nothing and a redirect for everybody else. */
module AuthGuard {
  import opened Wrappers
  import opened AuthContext

  datatype GuardView = Spinner | Children | Blank

  /** What the guard renders, and where its effect navigates, if anywhere. */
  datatype GuardOutcome = GuardOutcome(view: GuardView, redirect: Option<string>)

  const DefaultRedirect := "/auth"

  /** The redirectTo prop, "/auth" when it is not given. */
  function Target(redirectTo: Option<string>): string
  {
    if redirectTo.Some? then redirectTo.value else DefaultRedirect
  }

  /** Exactly one of: the spinner, the children, a redirect to Target. */
  function Guard(checkingAuth: bool, user: Option<User>, redirectTo: Option<string>): (g: GuardOutcome)
    ensures g.view == Spinner <==> checkingAuth
    ensures g.view == Children <==> !checkingAuth && user.Some?
    ensures g.redirect.Some? <==> !checkingAuth && user.None?
    ensures g.redirect.Some? ==> g.view == Blank && g.redirect.value == Target(redirectTo)
  {
    var redirect := if !checkingAuth && user.None? then Some(Target(redirectTo)) else None;
    if checkingAuth then GuardOutcome(Spinner, redirect)
    else if user.Some? then GuardOutcome(Children, redirect)
    else GuardOutcome(Blank, redirect)
  }

  /** Without a redirectTo prop a signed-out visitor is sent to "/auth". */
  lemma DefaultTarget(user: Option<User>)
    requires user.None?
    ensures Guard(false, user, None).redirect == Some("/auth")
  {
  }
}
