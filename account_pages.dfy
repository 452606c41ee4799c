/**
 * The login and registration pages: each normalises the phone field and
 * talks to the users API. The pages' requests are modelled as calls on the
 * users table.
 */
module AccountPages {
  import opened Wrappers
  import opened Entities
  import Users
  import PhoneFormat

  /** The name given to a user created by the login page. */
  const DefaultFullName: string := "Пользователь"

  /**
   * handleLogin: look the normalised phone up; when the lookup fails,
   * create a user with the default name and that phone. Either way the
   * resulting user is the one the phone now finds.
   */
  method HandleLogin(users: Users.UserTable, phone: string) returns (u: User)
    requires users.Valid()
    modifies users
    ensures users.Valid()
    ensures u.phone == PhoneFormat.ForServer(phone)
    ensures Users.ByPhone(users.rows, u.phone) == Ok(u)
    ensures (exists x :: x in old(users.rows) && x.phone == u.phone) ==>
      u in old(users.rows) && users.rows == old(users.rows) && users.nextId == old(users.nextId)
    ensures (forall x :: x in old(users.rows) ==> x.phone != u.phone) ==>
      && u == User(old(users.nextId), DefaultFullName, u.phone)
      && users.rows == old(users.rows) + [u]
      && users.nextId == old(users.nextId) + 1
  {
    var p := PhoneFormat.ForServer(phone);
    var found := Users.ByPhone(users.rows, p);
    if found.Ok? {
      u := found.value;
    } else {
      var created := users.Create(Users.CreateUserDto(DefaultFullName, p));
      u := created.value;
    }
    Users.FindByPhoneUnique(users.rows, u);
  }

  /** Where a registration attempt leads. */
  datatype RegisterOutcome =
    | SignedIn(user: User)   // the user is stored and the home page opens
    | SentToLogin            // the phone is already registered: go to the login page
    | Alerted                // any other failure is shown to the user

  /** The page's reading of the reply: 409 sends to login, other errors are shown. */
  function OutcomeOf(reply: Result<User>): (o: RegisterOutcome)
    ensures o.SignedIn? <==> reply.Ok?
    ensures o.SignedIn? ==> o.user == reply.value
    ensures o == SentToLogin <==> reply == Err(Conflict)
  {
    match reply
    case Ok(u) => SignedIn(u)
    case Err(Conflict) => SentToLogin
    case Err(_) => Alerted
  }

  /**
   * handleRegister: the entered full name, unchanged, and the normalised
   * phone are posted; an already registered phone sends the user to the
   * login page and leaves the table as it was.
   */
  method HandleRegister(users: Users.UserTable, fullName: string, phone: string) returns (o: RegisterOutcome)
    requires users.Valid()
    modifies users
    ensures users.Valid()
    ensures (exists x :: x in old(users.rows) && x.phone == PhoneFormat.ForServer(phone)) ==>
      o == SentToLogin && users.rows == old(users.rows) && users.nextId == old(users.nextId)
    ensures (forall x :: x in old(users.rows) ==> x.phone != PhoneFormat.ForServer(phone)) ==>
      && o == SignedIn(User(old(users.nextId), fullName, PhoneFormat.ForServer(phone)))
      && users.rows == old(users.rows) + [o.user]
      && users.nextId == old(users.nextId) + 1
  {
    var reply := users.Create(Users.CreateUserDto(fullName, PhoneFormat.ForServer(phone)));
    o := OutcomeOf(reply);
  }
}
