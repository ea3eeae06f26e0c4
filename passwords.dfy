/**
 * The password controller: the reset-token life cycle of one account, over
 * the fields `resetPasswordToken`, `resetPasswordExpires` and `passwordHash`.
 * The SHA-256 digest and bcrypt are functions passed in; the random token,
 * the clock and the outcome of sending the e-mail are inputs.
 */
module PasswordReset {
  import opened Base
  import opened Text
  import opened Store
  import opened Http

  /** A reset link stays valid for one hour. */
  const ResetWindow: Millis := 3600000

  const NoAccount := "No account with that email address exists."
  const SendFailed := "Failed to send reset email. Please try again."
  const InvalidToken := "Password reset token is invalid or has expired."
  const PasswordsDiffer := "Passwords do not match."
  const ResetFailed := "An error occurred. Please try again."
  const PasswordUpdated := "Password successfully updated!"

  function EmailSentNotice(email: string): string {
    "An email has been sent to " + email + " with further instructions."
  }

  /** The account after a token is issued: only the digest is stored, expiring in an hour. */
  function Issue(u: User, digest: string, now: Millis): User {
    u.(resetPasswordToken := Some(digest), resetPasswordExpires := Some(now + ResetWindow))
  }

  /** The account after a reset: the new hash stored, token and expiry unset. */
  function Consume(u: User, passwordHash: string): User {
    u.(passwordHash := passwordHash, resetPasswordToken := None, resetPasswordExpires := None)
  }

  /** The query `{ resetPasswordToken: digest, resetPasswordExpires: { $gt: now } }` matches `u`. */
  predicate Live(u: User, digest: string, now: Millis) {
    u.resetPasswordToken == Some(digest) && u.resetPasswordExpires.Some? && u.resetPasswordExpires.value > now
  }

  /** The account a presented digest opens at time `now`, as `findOne` picks it. */
  function TokenHolder(users: seq<User>, digest: string, now: Millis): Option<nat> {
    FirstWhere(users, (u: User) => Live(u, digest, now))
  }

  /** The reset URL's path for a token. */
  function ResetPath(token: string): Location {
    Path("/reset-password/" + token)
  }

  /**
   * `forgotPasswordPost`. The token is saved before the e-mail goes out, so
   * a failed send still leaves it stored.
   */
  method ForgotPasswordPost(db: Db, email: string, token: string, sha: string -> string, now: Millis, emailSent: bool)
    returns (resp: Response)
    requires db.Valid()
    modifies db
    ensures db.Valid()
    ensures db.comics == old(db.comics) && db.chapters == old(db.chapters) && db.nextId == old(db.nextId)
    ensures UserByEmail(old(db.users), email).None? ==>
      db.users == old(db.users) && resp == Redirect(Path("/forgot-password"), Some(FlashError(NoAccount)))
    ensures UserByEmail(old(db.users), email).Some? ==>
      var i := UserByEmail(old(db.users), email).value;
      && db.users == old(db.users)[i := Issue(old(db.users)[i], sha(token), now)]
      && resp == Redirect(Path("/forgot-password"),
                          Some(if emailSent then FlashSuccess(EmailSentNotice(email)) else FlashError(SendFailed)))
  {
    var found := UserByEmail(db.users, email);
    if found.None? {
      return Redirect(Path("/forgot-password"), Some(FlashError(NoAccount)));
    }
    var i := found.value;
    var user := db.users[i];
    user := user.(resetPasswordToken := Some(sha(token)));
    user := user.(resetPasswordExpires := Some(now + ResetWindow));
    ReplaceKeepsUsers(db.users, i, user, db.nextId);
    db.users := db.users[i := user];
    if !emailSent {
      return Redirect(Path("/forgot-password"), Some(FlashError(SendFailed)));
    }
    resp := Redirect(Path("/forgot-password"), Some(FlashSuccess(EmailSentNotice(email))));
  }

  /** `resetPasswordGet`: the form for a live token, otherwise back to forgot-password. */
  function ResetPasswordGet(users: seq<User>, token: string, sha: string -> string, now: Millis): (resp: Response)
    ensures resp.Render? <==> exists k :: 0 <= k < |users| && Live(users[k], sha(token), now)
    ensures resp.Render? ==> resp == Render(200, "reset-password")
    ensures resp.Redirect? ==> resp == Redirect(Path("/forgot-password"), Some(FlashError(InvalidToken)))
  {
    if TokenHolder(users, sha(token), now).None? then Redirect(Path("/forgot-password"), Some(FlashError(InvalidToken)))
    else Render(200, "reset-password")
  }

  /**
   * `resetPasswordPost`. The confirmation is checked before the lookup; a
   * missing password makes bcrypt throw after the lookup.
   */
  method ResetPasswordPost(db: Db, token: string, password: Option<string>, confirmPassword: Option<string>,
                           sha: string -> string, bcrypt: string -> string, now: Millis)
    returns (resp: Response)
    requires db.Valid()
    modifies db
    ensures db.Valid()
    ensures db.comics == old(db.comics) && db.chapters == old(db.chapters) && db.nextId == old(db.nextId)
    ensures password != confirmPassword ==>
      db.users == old(db.users) && resp == Redirect(ResetPath(token), Some(FlashError(PasswordsDiffer)))
    ensures password == confirmPassword && TokenHolder(old(db.users), sha(token), now).None? ==>
      db.users == old(db.users) && resp == Redirect(Path("/forgot-password"), Some(FlashError(InvalidToken)))
    ensures password == confirmPassword && TokenHolder(old(db.users), sha(token), now).Some? ==>
      var i := TokenHolder(old(db.users), sha(token), now).value;
      && (password.None? ==>
            db.users == old(db.users) && resp == Redirect(ResetPath(token), Some(FlashError(ResetFailed))))
      && (password.Some? ==>
            && db.users == old(db.users)[i := Consume(old(db.users)[i], bcrypt(password.value))]
            && resp == Redirect(Path("/login"), Some(FlashSuccess(PasswordUpdated))))
  {
    if password != confirmPassword {
      return Redirect(ResetPath(token), Some(FlashError(PasswordsDiffer)));
    }
    var found := TokenHolder(db.users, sha(token), now);
    if found.None? {
      return Redirect(Path("/forgot-password"), Some(FlashError(InvalidToken)));
    }
    if password.None? {
      return Redirect(ResetPath(token), Some(FlashError(ResetFailed)));
    }
    var i := found.value;
    var user := db.users[i];
    user := user.(passwordHash := bcrypt(password.value));
    user := user.(resetPasswordToken := None);
    user := user.(resetPasswordExpires := None);
    ReplaceKeepsUsers(db.users, i, user, db.nextId);
    db.users := db.users[i := user];
    resp := Redirect(Path("/login"), Some(FlashSuccess(PasswordUpdated)));
  }

  /**
   * With an injective digest, a freshly issued token is accepted exactly when
   * the presented token is that token and the hour has not yet passed.
   */
  lemma IssuedTokenAcceptedIffSameAndUnexpired(u: User, sha: string -> string, token: string, presented: string,
                                               now: Millis, later: Millis)
    requires forall a, b :: sha(a) == sha(b) ==> a == b
    ensures Live(Issue(u, sha(token), now), sha(presented), later) <==> presented == token && later < now + ResetWindow
  {
  }

  /** Issuing a second token revokes the first: one live token per account. */
  lemma ReissueRevokesEarlierToken(u: User, first: string, second: string, now1: Millis, now2: Millis, later: Millis)
    requires first != second
    ensures !Live(Issue(Issue(u, first, now1), second, now2), first, later)
  {
  }

  /** An account has at most one live digest at any time. */
  lemma AtMostOneLiveDigest(u: User, d1: string, d2: string, now: Millis)
    requires Live(u, d1, now) && Live(u, d2, now)
    ensures d1 == d2
  {
  }

  /** No digest has been stored for two accounts at once. */
  ghost predicate DigestsDistinct(users: seq<User>) {
    forall i, j :: 0 <= i < j < |users| && users[i].resetPasswordToken.Some? ==>
      users[i].resetPasswordToken != users[j].resetPasswordToken
  }

  /**
   * A consumed token is dead: once the account it opened has been reset, the
   * same digest opens no account at any later time.
   */
  lemma ConsumedTokenIsDead(users: seq<User>, digest: string, now: Millis, hash: string, later: Millis)
    requires DigestsDistinct(users)
    requires TokenHolder(users, digest, now).Some?
    ensures var i := TokenHolder(users, digest, now).value;
      TokenHolder(users[i := Consume(users[i], hash)], digest, later).None?
  {
    var i := TokenHolder(users, digest, now).value;
    var after := users[i := Consume(users[i], hash)];
    forall k | 0 <= k < |after| ensures !Live(after[k], digest, later) {
      if k < i {
        assert users[k].resetPasswordToken != users[i].resetPasswordToken;
      } else if k > i {
        assert users[i].resetPasswordToken != users[k].resetPasswordToken;
      }
    }
  }

  /** Issuing a digest no account holds keeps the digests distinct. */
  lemma IssueFreshKeepsDigestsDistinct(users: seq<User>, i: nat, digest: string, now: Millis)
    requires i < |users| && DigestsDistinct(users)
    requires forall k :: 0 <= k < |users| ==> users[k].resetPasswordToken != Some(digest)
    ensures DigestsDistinct(users[i := Issue(users[i], digest, now)])
  {
  }

  /** A reset keeps the digests distinct. */
  lemma ConsumeKeepsDigestsDistinct(users: seq<User>, i: nat, hash: string)
    requires i < |users| && DigestsDistinct(users)
    ensures DigestsDistinct(users[i := Consume(users[i], hash)])
  {
  }
}
