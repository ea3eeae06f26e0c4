/**
 * The user controller: choosing one of the eight avatars. The number is read
 * with `parseInt(pfp, 10)`, checked against 1..8, and written to the `pfp`
 * field of the logged-in user and to nothing else.
 */
module UserController {
  import opened Base
  import opened Text
  import opened Store
  import opened Http

  const AvatarCount := 8
  const InvalidAvatar := "Invalid avatar selection."

  /** The avatar number the form asks for, when it is one of 1..8. */
  function AvatarChoice(pfp: Option<string>): (r: Option<int>)
    ensures r.Some? <==> ParseInt(ToJsString(pfp)).Some? && 1 <= ParseInt(ToJsString(pfp)).value <= AvatarCount
    ensures r.Some? ==> r == ParseInt(ToJsString(pfp)) && 1 <= r.value <= AvatarCount
  {
    var num := ParseInt(ToJsString(pfp));
    if num.None? || num.value < 1 || num.value > AvatarCount then None else num
  }

  /** `User.updateOne({ _id }, { $set: { pfp } })`: the first user with that id gets the new avatar. */
  function SetPfp(users: seq<User>, id: Id, pfp: int): (r: seq<User>)
    ensures |r| == |users|
    ensures forall k :: 0 <= k < |r| ==> r[k] == users[k].(pfp := r[k].pfp)
    ensures forall k :: 0 <= k < |r| ==> r[k].pfp == (if Some(k) == UserById(users, id) then pfp else users[k].pfp)
  {
    match UserById(users, id)
    case None => users
    case Some(i) => users[i := users[i].(pfp := pfp)]
  }

  function UserById(users: seq<User>, id: Id): Option<nat> {
    FirstWhere(users, (u: User) => u.id == id)
  }

  /** `updateProfilePicture` for the logged-in user `userId`. */
  method UpdateProfilePicture(db: Db, userId: Id, pfp: Option<string>) returns (resp: Response)
    requires db.Valid()
    modifies db
    ensures db.Valid()
    ensures db.comics == old(db.comics) && db.chapters == old(db.chapters) && db.nextId == old(db.nextId)
    ensures AvatarChoice(pfp).None? ==> resp == Send(400, InvalidAvatar) && db.users == old(db.users)
    ensures AvatarChoice(pfp).Some? ==>
      resp == Redirect(Path("/profile"), None) && db.users == SetPfp(old(db.users), userId, AvatarChoice(pfp).value)
  {
    var num := AvatarChoice(pfp);
    if num.None? {
      return Send(400, InvalidAvatar);
    }
    var found := UserById(db.users, userId);
    if found.Some? {
      var i := found.value;
      ReplaceKeepsUsers(db.users, i, db.users[i].(pfp := num.value), db.nextId);
    }
    db.users := SetPfp(db.users, userId, num.value);
    resp := Redirect(Path("/profile"), None);
  }

  /** A digit 1..8 is accepted as that avatar, whatever non-digit text follows it. */
  lemma DigitAvatarAccepted(d: char, rest: string)
    requires '1' <= d <= '8'
    requires |rest| == 0 || !IsDigit(rest[0])
    ensures AvatarChoice(Some([d] + rest)) == Some((d as int) - ('0' as int))
  {
    ParseIntIgnoresSuffix([d], rest);
    assert [d][..0] == [];
  }

  /** Text that does not start with a sign or a digit, and a missing field, are refused. */
  lemma NonNumericAvatarRefused(pfp: Option<string>)
    requires var t := TrimStart(ToJsString(pfp)); |t| == 0 || (!IsDigit(t[0]) && t[0] != '-' && t[0] != '+')
    ensures AvatarChoice(pfp) == None
  {
    ParseIntRejectsNonNumeric(ToJsString(pfp));
  }

  /** A missing `pfp` field reads as the text "undefined", which is refused. */
  lemma MissingAvatarRefused()
    ensures AvatarChoice(None) == None
  {
    assert LeadingBlanks("undefined") == 0;
    NonNumericAvatarRefused(None);
  }
}
