/**
 * `addUser` of the user queries: an ordered guard chain, then one insert into
 * the user registry, which keeps emails and usernames unique. bcrypt and
 * `new Date(...)` are functions passed in; the outcome of the save is an input.
 */
module UserQueries {
  import opened Base
  import opened Text
  import opened Store

  /** The fields `addUser` reads; a missing one is `None`. */
  datatype UserData = UserData(
    email: Option<string>,
    username: Option<string>,
    password: Option<string>,
    birthDate: Option<string>)

  /** Why `save()` threw. */
  datatype SaveFault = ValidationError(messages: seq<string>) | OtherSaveFault

  /** `{ success: true, data }` or `{ success: false, error }`. */
  datatype AddResult = Added(user: User) | Refused(error: string)

  const FieldsRequired := "All fields are required"
  const InvalidBirthDate := "Invalid birth date"
  const EmailInUse := "Email already in use"
  const UsernameTaken := "Username already taken"
  const AccountFailed := "An error occurred while creating your account"

  /** The schema default of `pfp`. */
  const DefaultPfp := 1

  predicate AllFieldsGiven(data: UserData) {
    Truthy(data.email) && Truthy(data.username) && Truthy(data.password) && Truthy(data.birthDate)
  }

  /**
   * The guards in their order: missing field, unparseable birth date, taken
   * email, taken username. `None` lets the insert go ahead.
   */
  function AddUserRefusal(users: seq<User>, data: UserData, parseDate: string -> Option<Millis>): (r: Option<string>)
    ensures r == Some(FieldsRequired) <==> !AllFieldsGiven(data)
    ensures r == Some(InvalidBirthDate) <==> AllFieldsGiven(data) && parseDate(data.birthDate.value).None?
    ensures r == Some(EmailInUse) <==>
      AllFieldsGiven(data) && parseDate(data.birthDate.value).Some?
      && exists k :: 0 <= k < |users| && users[k].email == data.email.value
    ensures r == Some(UsernameTaken) <==>
      AllFieldsGiven(data) && parseDate(data.birthDate.value).Some?
      && (forall k :: 0 <= k < |users| ==> users[k].email != data.email.value)
      && exists k :: 0 <= k < |users| && users[k].username == data.username.value
    ensures r.None? ==> AllFieldsGiven(data) && parseDate(data.birthDate.value).Some?
    ensures r.None? ==> forall k :: 0 <= k < |users| ==>
      users[k].email != data.email.value && users[k].username != data.username.value
  {
    if !AllFieldsGiven(data) then Some(FieldsRequired)
    else if parseDate(data.birthDate.value).None? then Some(InvalidBirthDate)
    else if UserByEmail(users, data.email.value).Some? then Some(EmailInUse)
    else if UserByUsername(users, data.username.value).Some? then Some(UsernameTaken)
    else None
  }

  /** The `catch` branch: a validation error lists its messages, anything else is generic. */
  function SaveFaultMessage(fault: SaveFault): (m: string)
    ensures fault.ValidationError? ==> m == Join(fault.messages, ", ")
    ensures fault.OtherSaveFault? ==> m == AccountFailed
  {
    match fault
    case ValidationError(messages) => Join(messages, ", ")
    case OtherSaveFault => AccountFailed
  }

  /** `new User({ email, username, passwordHash, birthDate })` with schema defaults. */
  function NewUser(id: Id, data: UserData, passwordHash: string, birthDate: Millis): User
    requires AllFieldsGiven(data)
  {
    User(id, data.email.value, data.username.value, passwordHash, birthDate, DefaultPfp, None, None)
  }

  /** `addUser`: the guards, then hash the password and save one new user. */
  method AddUser(db: Db, data: UserData, parseDate: string -> Option<Millis>, bcrypt: string -> string,
                 fault: Option<SaveFault>)
    returns (result: AddResult)
    requires db.Valid()
    modifies db
    ensures db.Valid()
    ensures db.comics == old(db.comics) && db.chapters == old(db.chapters)
    ensures db.nextId == old(db.nextId) + (|db.users| - |old(db.users)|)
    ensures AddUserRefusal(old(db.users), data, parseDate).Some? ==>
      result == Refused(AddUserRefusal(old(db.users), data, parseDate).value)
      && db.users == old(db.users) && db.nextId == old(db.nextId)
    ensures AddUserRefusal(old(db.users), data, parseDate).None? && fault.Some? ==>
      result == Refused(SaveFaultMessage(fault.value)) && db.users == old(db.users)
    ensures AddUserRefusal(old(db.users), data, parseDate).None? && fault.None? ==>
      var u := NewUser(old(db.nextId), data, bcrypt(data.password.value), parseDate(data.birthDate.value).value);
      result == Added(u) && db.users == old(db.users) + [u]
  {
    var refusal := AddUserRefusal(db.users, data, parseDate);
    if refusal.Some? {
      return Refused(refusal.value);
    }
    var passwordHash := bcrypt(data.password.value);
    var birthDate := parseDate(data.birthDate.value).value;
    if fault.Some? {
      return Refused(SaveFaultMessage(fault.value));
    }
    var bound := db.nextId;
    var id := db.NewId();
    var user := NewUser(id, data, passwordHash, birthDate);
    AddFreshAccount(db.users, user, bound);
    db.users := db.users + [user];
    result := Added(user);
  }

  /**
   * A user whose email and username nobody has, with the freshly generated id,
   * can be appended without breaking the unique indexes.
   */
  lemma AddFreshAccount(users: seq<User>, u: User, bound: Id)
    requires UsersBelow(users, bound) && u.id == bound
    requires forall k :: 0 <= k < |users| ==> users[k].email != u.email && users[k].username != u.username
    ensures UsersBelow(users + [u], bound + 1)
  {
  }

  /**
   * Registration keeps the registry's emails and usernames unique: whatever
   * the guard chain lets through can be appended.
   */
  lemma AcceptedAccountsStayUnique(users: seq<User>, data: UserData, parseDate: string -> Option<Millis>,
                                   passwordHash: string, bound: Id)
    requires UsersBelow(users, bound)
    requires AddUserRefusal(users, data, parseDate).None?
    ensures UsersBelow(users + [NewUser(bound, data, passwordHash, parseDate(data.birthDate.value).value)], bound + 1)
  {
    var u := NewUser(bound, data, passwordHash, parseDate(data.birthDate.value).value);
    AddFreshAccount(users, u, bound);
  }

  /** The email check comes first: a taken email is reported even when the username is also taken. */
  lemma EmailReportedBeforeUsername(users: seq<User>, data: UserData, parseDate: string -> Option<Millis>, i: nat, j: nat)
    requires AllFieldsGiven(data) && parseDate(data.birthDate.value).Some?
    requires i < |users| && users[i].email == data.email.value
    requires j < |users| && users[j].username == data.username.value
    ensures AddUserRefusal(users, data, parseDate) == Some(EmailInUse)
  {
  }
}
