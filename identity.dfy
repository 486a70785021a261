/**
 * Registered users and the login decision.
 *
 * A user's password is kept only as the string the password hasher produced
 * for it.  Checking a password against that stored hash belongs to the
 * hashing library, so it is a parameter here: check(stored, given) holds
 * when given is the password stored was made from.
 */
module Identity {
  import opened Wrappers

  datatype User = User(username: string, password: string)

  /** The user name and password of an HTTP Basic Authorization header. */
  datatype Credentials = Credentials(username: string, password: string)

  /** How a login attempt ends; every outcome but LoggedIn is a 401 response with its own reason. */
  datatype LoginOutcome =
    | LoggedIn          // "Successfully logged in!"
    | UnableToVerify    // "Unable to verify"
    | UserNotFound      // "User not found"
    | IncorrectPassword // "Incorrect password for the username entered"

  predicate Registered(users: seq<User>, name: string) {
    exists i :: 0 <= i < |users| && users[i].username == name
  }

  /** The unique constraint on the username column. */
  ghost predicate UniqueUsernames(users: seq<User>) {
    forall i, j :: 0 <= i < j < |users| ==> users[i].username != users[j].username
  }

  /** The first user called name, as filter_by(username).first() finds it. */
  function FindUser(users: seq<User>, name: string): (r: Option<User>)
    ensures r.None? <==> !Registered(users, name)
    ensures r.Some? ==> exists i ::
              && 0 <= i < |users|
              && users[i] == r.value
              && users[i].username == name
              && forall j :: 0 <= j < i ==> users[j].username != name
  {
    if users == [] then None
    else if users[0].username == name then Some(users[0])
    else
      var r := FindUser(users[1..], name);
      assert Registered(users[1..], name) ==> Registered(users, name) by {
        if Registered(users[1..], name) {
          var i :| 0 <= i < |users[1..]| && users[1..][i].username == name;
          assert users[i + 1].username == name;
        }
      }
      r
  }

  /** The header is there and carries a non-empty user name and a non-empty password. */
  predicate Supplied(auth: Option<Credentials>) {
    auth.Some? && auth.value.username != "" && auth.value.password != ""
  }

  /**
   * The login decision: the header is checked first, then the user name,
   * then the password against the stored hash of the first user with that name.
   */
  function Authenticate(users: seq<User>, auth: Option<Credentials>, check: (string, string) -> bool): (r: LoginOutcome)
    ensures r == UnableToVerify <==> !Supplied(auth)
    ensures r == UserNotFound <==> Supplied(auth) && !Registered(users, auth.value.username)
    ensures r == IncorrectPassword || r == LoggedIn ==>
              exists i ::
                && 0 <= i < |users|
                && users[i].username == auth.value.username
                && (forall j :: 0 <= j < i ==> users[j].username != auth.value.username)
                && (r == LoggedIn <==> check(users[i].password, auth.value.password))
  {
    if !Supplied(auth) then UnableToVerify
    else match FindUser(users, auth.value.username)
      case None => UserNotFound
      case Some(user) =>
        if check(user.password, auth.value.password) then LoggedIn else IncorrectPassword
  }

  /** With unique user names, a login succeeds exactly when the password checks against that user's hash. */
  lemma LoginWithUniqueNames(users: seq<User>, i: int, auth: Option<Credentials>, check: (string, string) -> bool)
    requires UniqueUsernames(users)
    requires Supplied(auth)
    requires 0 <= i < |users| && users[i].username == auth.value.username
    ensures Authenticate(users, auth, check) == LoggedIn <==> check(users[i].password, auth.value.password)
    ensures Authenticate(users, auth, check) != LoggedIn ==> Authenticate(users, auth, check) == IncorrectPassword
  {
  }

  /**
   * Registration stores any name and hash, the empty name and the hash of an
   * empty password included, but credentials with an empty name or an empty
   * password never get past the first check of a login.
   */
  lemma EmptyCredentialsNeverLogIn(users: seq<User>, name: string, password: string, check: (string, string) -> bool)
    requires name == "" || password == ""
    ensures Authenticate(users, Some(Credentials(name, password)), check) == UnableToVerify
  {
  }

  /**
   * Registering a new name with the hash of a non-empty password, then
   * logging in with that name and password, succeeds.
   */
  lemma RegisterThenLogin(users: seq<User>, name: string, password: string, hash: string, check: (string, string) -> bool)
    requires UniqueUsernames(users) && !Registered(users, name)
    requires name != "" && password != ""
    requires check(hash, password)
    ensures UniqueUsernames(users + [User(name, hash)])
    ensures Authenticate(users + [User(name, hash)], Some(Credentials(name, password)), check) == LoggedIn
  {
    var s := users + [User(name, hash)];
    forall i, j | 0 <= i < j < |s|
      ensures s[i].username != s[j].username
    {
      if j < |users| {
        assert s[i] == users[i] && s[j] == users[j];
      } else {
        assert s[i] == users[i];
      }
    }
    LoginWithUniqueNames(s, |users|, Some(Credentials(name, password)), check);
  }
}
