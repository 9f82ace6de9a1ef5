/** `ProtectedRoute`: what the guard renders and whether it redirects, for a given
    authentication state. */
module RouteGuard {
  import opened Wrappers
  import AuthPaths

  datatype View = Spinner | Nothing | Children

  datatype Decision = Decision(view: View, redirect: Option<string>)

  /** The render result and the redirect the effect performs. */
  function Guard(isLoading: bool, hasUser: bool): (d: Decision)
    ensures isLoading ==> d.view == Spinner
    ensures d.view == Children <==> hasUser && !isLoading
    ensures d.view == Nothing <==> !hasUser && !isLoading
    ensures d.redirect.Some? <==> !isLoading && !hasUser
    ensures d.redirect.Some? ==> d.redirect.value == AuthPaths.SignIn
  {
    var view := if isLoading then Spinner else if !hasUser then Nothing else Children;
    var redirect := if !isLoading && !hasUser then Some(AuthPaths.SignIn) else None;
    Decision(view, redirect)
  }

  /** Every authentication state leads to exactly one of three outcomes: the
      spinner, the protected content, or a redirect to sign-in. The content is
      never shown in a state that redirects. */
  lemma ExactlyOneOutcome(isLoading: bool, hasUser: bool)
    ensures var d := Guard(isLoading, hasUser);
      (if d.view == Spinner then 1 else 0) + (if d.view == Children then 1 else 0) +
      (if d.redirect.Some? then 1 else 0) == 1
    ensures var d := Guard(isLoading, hasUser); d.view == Children ==> d.redirect.None?
  {
  }
}
