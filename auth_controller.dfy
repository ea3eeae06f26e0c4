/**
 * The auth controller: the guard chain of `register` in front of `addUser`,
 * and the failure branch of `login`. The reCAPTCHA verdict is an input.
 */
module AuthController {
  import opened Base
  import opened Text
  import opened Store
  import opened Http
  import opened UserQueries

  /** The fields of the sign-up form. */
  datatype SignupForm = SignupForm(
    username: Option<string>,
    email: Option<string>,
    password: Option<string>,
    confirmPassword: Option<string>,
    birthDate: Option<string>)

  /** What the sign-up page is re-rendered with: the two fields it echoes back, and nothing else. */
  datatype FormEcho = FormEcho(username: Option<string>, email: Option<string>)

  /** `res.status(400).render('signup', { error, formData })`, or the redirect after success. */
  datatype RegisterReply = SignupAgain(status: int, error: string, formData: FormEcho) | ToLogin(path: string)

  const MissingFields := "All fields are required"
  const PasswordsDontMatch := "Passwords don't match"
  const CaptchaFailed := "reCAPTCHA verification failed"
  const Registered := "/login?registered=true"

  predicate FormComplete(form: SignupForm) {
    Truthy(form.username) && Truthy(form.email) && Truthy(form.password)
    && Truthy(form.confirmPassword) && Truthy(form.birthDate)
  }

  /**
   * The checks made before `addUser` is called, in order: missing field,
   * password mismatch, captcha. The captcha verdict only counts once the
   * first two have passed.
   */
  function RegisterRefusal(form: SignupForm, captchaOk: bool): (r: Option<string>)
    ensures r == Some(MissingFields) <==> !FormComplete(form)
    ensures r == Some(PasswordsDontMatch) <==> FormComplete(form) && form.password != form.confirmPassword
    ensures r == Some(CaptchaFailed) <==> FormComplete(form) && form.password == form.confirmPassword && !captchaOk
    ensures r.None? <==> FormComplete(form) && form.password == form.confirmPassword && captchaOk
  {
    if !FormComplete(form) then Some(MissingFields)
    else if form.password != form.confirmPassword then Some(PasswordsDontMatch)
    else if !captchaOk then Some(CaptchaFailed)
    else None
  }

  /** What `register` passes on to `addUser`. */
  function ToUserData(form: SignupForm): UserData {
    UserData(form.email, form.username, form.password, form.birthDate)
  }

  /** `register`: the guards, then `addUser`, whose error is shown with status 400. */
  method Register(db: Db, form: SignupForm, captchaOk: bool, parseDate: string -> Option<Millis>,
                  bcrypt: string -> string, fault: Option<SaveFault>)
    returns (reply: RegisterReply)
    requires db.Valid()
    modifies db
    ensures db.Valid()
    ensures reply.SignupAgain? ==> reply.status == 400 && reply.formData == FormEcho(form.username, form.email)
    ensures RegisterRefusal(form, captchaOk).Some? ==>
      reply.SignupAgain? && reply.error == RegisterRefusal(form, captchaOk).value
      && db.users == old(db.users) && db.nextId == old(db.nextId)
    ensures RegisterRefusal(form, captchaOk).None? ==>
      var refusal := AddUserRefusal(old(db.users), ToUserData(form), parseDate);
      && (refusal.Some? ==>
            reply == SignupAgain(400, refusal.value, FormEcho(form.username, form.email))
            && db.users == old(db.users) && db.nextId == old(db.nextId))
      && (refusal.None? && fault.Some? ==>
            reply == SignupAgain(400, SaveFaultMessage(fault.value), FormEcho(form.username, form.email))
            && db.users == old(db.users))
      && (refusal.None? && fault.None? ==>
            && reply == ToLogin(Registered)
            && db.users == old(db.users) + [NewUser(old(db.nextId), ToUserData(form), bcrypt(form.password.value),
                                                    parseDate(form.birthDate.value).value)])
    ensures db.comics == old(db.comics) && db.chapters == old(db.chapters)
    ensures db.nextId == old(db.nextId) + (|db.users| - |old(db.users)|)
  {
    var refusal := RegisterRefusal(form, captchaOk);
    if refusal.Some? {
      return SignupAgain(400, refusal.value, FormEcho(form.username, form.email));
    }
    var result := AddUser(db, ToUserData(form), parseDate, bcrypt, fault);
    if result.Added? {
      return ToLogin(Registered);
    }
    reply := SignupAgain(400, result.error, FormEcho(form.username, form.email));
  }

  /** The captcha is never consulted for a form that fails an earlier check. */
  lemma CaptchaIrrelevantToEarlierChecks(form: SignupForm)
    requires !FormComplete(form) || form.password != form.confirmPassword
    ensures RegisterRefusal(form, true) == RegisterRefusal(form, false)
  {
  }

  /**
   * The failure branch of `login`: `info?.message || 'Login failed'` is
   * flashed and the user goes back to the Referer, or to `/login`.
   */
  function LoginFailure(infoMessage: Option<string>, referer: Option<string>): (resp: Response)
    ensures resp.Redirect? && resp.flash.Some? && resp.flash.value.FlashError?
    ensures resp.flash.value.message != ""
    ensures Truthy(infoMessage) ==> resp.flash.value.message == infoMessage.value
    ensures !Truthy(infoMessage) ==> resp.flash.value.message == "Login failed"
    ensures resp.location == (if Truthy(referer) then Path(referer.value) else Path("/login"))
  {
    Redirect(RefererOr(referer, Path("/login")),
             Some(FlashError(if Truthy(infoMessage) then infoMessage.value else "Login failed")))
  }
}
