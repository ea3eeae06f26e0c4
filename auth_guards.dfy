/** The authentication middleware: two guards that either let a request through or redirect it. */
module AuthGuards {
  import opened Base
  import opened Http

  /** `next()`, or the response the guard sends instead. */
  datatype Verdict = Proceed | Stop(resp: Response)

  /** `ensureAuthenticated`: only a logged-in user gets through; anyone else goes to the login page. */
  function EnsureAuthenticated(authenticated: bool): (v: Verdict)
    ensures v.Proceed? <==> authenticated
    ensures v.Stop? ==> v.resp == Redirect(Path("/login"), None)
  {
    if authenticated then Proceed else Stop(Redirect(Path("/login"), None))
  }

  /** `forwardAuthenticated`: only a visitor gets through; a logged-in user goes to the homepage. */
  function ForwardAuthenticated(authenticated: bool): (v: Verdict)
    ensures v.Proceed? <==> !authenticated
    ensures v.Stop? ==> v.resp == Redirect(Path("/"), None)
  {
    if !authenticated then Proceed else Stop(Redirect(Path("/"), None))
  }

  /** Every request passes exactly one of the two guards. */
  lemma GuardsAreComplementary(authenticated: bool)
    ensures EnsureAuthenticated(authenticated).Proceed? != ForwardAuthenticated(authenticated).Proceed?
  {
  }
}
