/** The `user` collection and the credential checks over it: `login`,
    `sign_in`, `sign_up` and `check_dup`. Passwords are stored as a digest;
    the digest function (SHA-256 of the UTF-8 bytes, as hex) is a parameter
    `hash`, deterministic and otherwise unknown. */
module Accounts {
  import opened DocStore

  const AdminRole := "admin"
  const UserRole := "user"
  const IncorrectCredentials := "Username or password is incorrect"

  datatype User = User(username: string, password: string, profileName: string, profileInfo: string, role: string)

  /** The JSON answer of `login` and `sign_in`. */
  datatype LoginResult = Success(role: string) | Fail(msg: string)

  /** Filter `{"username": name}`. */
  function Named(name: string): User -> bool
  {
    (u: User) => u.username == name
  }

  /** Filter `{"username": name, "password": digest}`. */
  function WithCredentials(name: string, digest: string): User -> bool
  {
    (u: User) => u.username == name && u.password == digest
  }

  /** Position `i` holds the user `find_one({"username": name})` returns. */
  ghost predicate FirstNamed(users: seq<User>, name: string, i: int)
  {
    0 <= i < |users| && users[i].username == name &&
    forall j :: 0 <= j < i ==> users[j].username != name
  }

  /** No two stored users share a username. */
  ghost predicate UniqueUsernames(users: seq<User>)
  {
    forall i, j :: 0 <= i < |users| && 0 <= j < |users| && users[i].username == users[j].username ==> i == j
  }

  /** `find_one({"username": name})`. */
  function FindUser(users: seq<User>, name: string): (r: Option<User>)
    ensures r.None? <==> forall i :: 0 <= i < |users| ==> users[i].username != name
    ensures r.Some? ==> exists i :: FirstNamed(users, name, i) && users[i] == r.value
  {
    match FindFirst(users, Named(name))
    case None => None
    case Some(k) => assert FirstNamed(users, name, k); Some(users[k])
  }

  /** `check_dup`: whether the username is already stored, compared exactly. */
  function CheckDup(users: seq<User>, name: string): (taken: bool)
    ensures taken <==> exists i :: 0 <= i < |users| && users[i].username == name
  {
    FindUser(users, name).Some?
  }

  /** `login`: the first stored user with this username must hold the digest
      of the password; success reports that user's role, failure one fixed
      message whichever of the two was wrong. */
  function Login(users: seq<User>, hash: string -> string, username: string, password: string): (r: LoginResult)
    ensures r.Success? <==> exists i :: FirstNamed(users, username, i) && users[i].password == hash(password)
    ensures r.Success? ==> forall i :: FirstNamed(users, username, i) ==> r.role == users[i].role
    ensures r.Fail? ==> r == Fail(IncorrectCredentials)
  {
    match FindUser(users, username)
    case Some(u) =>
      if u.password == hash(password) then Success(u.role) else Fail(IncorrectCredentials)
    case None => Fail(IncorrectCredentials)
  }

  /** `sign_in`: some stored user has both this username and the digest of
      the password; success reports the role of the first such user. */
  function SignIn(users: seq<User>, hash: string -> string, username: string, password: string): (r: LoginResult)
    ensures r.Success? <==> exists i :: 0 <= i < |users| && users[i].username == username && users[i].password == hash(password)
    ensures r.Success? ==>
              exists i :: 0 <= i < |users| && WithCredentials(username, hash(password))(users[i]) &&
                          r.role == users[i].role && forall j :: 0 <= j < i ==> !WithCredentials(username, hash(password))(users[j])
    ensures r.Fail? ==> r == Fail(IncorrectCredentials)
  {
    match FindFirst(users, WithCredentials(username, hash(password)))
    case Some(k) => Success(users[k].role)
    case None => Fail(IncorrectCredentials)
  }

  /** The record `sign_up` inserts: the display name starts as the username
      and the profile text empty. */
  function NewUser(username: string, password: string, role: string, hash: string -> string): (u: User)
    ensures Named(username)(u) && WithCredentials(username, hash(password))(u)
    ensures u.password == hash(password) && u.role == role
    ensures u.profileName == username && u.profileInfo == ""
  {
    User(username, hash(password), username, "", role)
  }

  /** Whenever `login` accepts a pair, `sign_in` accepts it too, with the same role. */
  lemma LoginImpliesSignIn(users: seq<User>, hash: string -> string, username: string, password: string)
    requires Login(users, hash, username, password).Success?
    ensures SignIn(users, hash, username, password) == Login(users, hash, username, password)
  {
    var k :| FirstNamed(users, username, k) && users[k].password == hash(password);
    assert FindFirst(users, WithCredentials(username, hash(password))) == Some(k) by {
      var m := FindFirst(users, WithCredentials(username, hash(password)));
      assert WithCredentials(username, hash(password))(users[k]);
      assert m.Some? && m.value <= k;
    }
  }

  /** With unique usernames the two endpoints decide every pair alike. */
  lemma LoginAgreesWithSignIn(users: seq<User>, hash: string -> string, username: string, password: string)
    requires UniqueUsernames(users)
    ensures Login(users, hash, username, password) == SignIn(users, hash, username, password)
  {
    if SignIn(users, hash, username, password).Success? {
      var i :| 0 <= i < |users| && users[i].username == username && users[i].password == hash(password);
      assert FirstNamed(users, username, i);
      LoginImpliesSignIn(users, hash, username, password);
    }
  }

  /** Registering a fresh username lets that pair log in with the chosen
      role through both endpoints, and any password with another digest fails. */
  lemma SignUpThenLogIn(users: seq<User>, hash: string -> string, username: string, password: string, role: string)
    requires !CheckDup(users, username)
    ensures Login(users + [NewUser(username, password, role, hash)], hash, username, password) == Success(role)
    ensures SignIn(users + [NewUser(username, password, role, hash)], hash, username, password) == Success(role)
    ensures forall other :: hash(other) != hash(password) ==>
      Login(users + [NewUser(username, password, role, hash)], hash, username, other).Fail?
    ensures forall other :: hash(other) != hash(password) ==>
      SignIn(users + [NewUser(username, password, role, hash)], hash, username, other).Fail?
  {
    var after := users + [NewUser(username, password, role, hash)];
    FindFirstAppend(users, NewUser(username, password, role, hash), Named(username));
    assert FindUser(after, username) == Some(NewUser(username, password, role, hash));
    LoginImpliesSignIn(after, hash, username, password);
  }

  /** `sign_up` does not look for an existing user: registering a taken
      username leaves `login` deciding that name exactly as before (the
      older record shadows the new one), while `sign_in` accepts the new
      password. */
  lemma DuplicateSignUpShadowed(users: seq<User>, hash: string -> string, username: string, password: string, role: string)
    requires CheckDup(users, username)
    ensures forall p :: Login(users + [NewUser(username, password, role, hash)], hash, username, p) == Login(users, hash, username, p)
    ensures SignIn(users + [NewUser(username, password, role, hash)], hash, username, password).Success?
  {
    var after := users + [NewUser(username, password, role, hash)];
    FindFirstAppend(users, NewUser(username, password, role, hash), Named(username));
    assert FindUser(after, username) == FindUser(users, username);
    assert after[|users|].username == username && after[|users|].password == hash(password);
  }
}
