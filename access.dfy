/** The two route guards, `check_admin` and `check_user`. Each looks up the
    session's username in the `user` collection on every request (the first
    stored user with that name) and either lets the view run or redirects. */
module Access {
  import opened DocStore
  import opened Accounts

  datatype Guard = Proceed | RedirectIndex | RedirectLogin

  /** The session's user has role `role` (as `find_one` resolves the username). */
  ghost predicate SessionHasRole(session: Option<string>, users: seq<User>, role: string)
  {
    session.Some? && exists i :: FirstNamed(users, session.value, i) && users[i].role == role
  }

  function StoredRole(session: Option<string>, users: seq<User>): (r: Option<string>)
    ensures forall role :: r == Some(role) <==> SessionHasRole(session, users, role)
  {
    match session
    case None => None
    case Some(name) =>
      match FindUser(users, name)
      case None => None
      case Some(u) => Some(u.role)
  }

  /** `check_admin`: no session goes to login; a session whose user is
      missing or not an admin goes to index; an admin proceeds. */
  function CheckAdmin(session: Option<string>, users: seq<User>): (g: Guard)
    ensures g == Proceed <==> SessionHasRole(session, users, AdminRole)
    ensures g == RedirectLogin <==> session.None?
    ensures g == RedirectIndex <==> session.Some? && !SessionHasRole(session, users, AdminRole)
  {
    if session.None? then RedirectLogin
    else if StoredRole(session, users) == Some(AdminRole) then Proceed
    else RedirectIndex
  }

  /** `check_user`: only a session whose user has role "user" proceeds;
      every other case, an admin session included, goes to login. */
  function CheckUser(session: Option<string>, users: seq<User>): (g: Guard)
    ensures g == Proceed <==> SessionHasRole(session, users, UserRole)
    ensures g == RedirectLogin <==> !SessionHasRole(session, users, UserRole)
    ensures g != RedirectIndex
  {
    if StoredRole(session, users) == Some(UserRole) then Proceed else RedirectLogin
  }

  /** The guards are disjoint: in no state do both let a request through,
      and an admin is always sent to login by the user guard. */
  lemma GuardsExclusive(session: Option<string>, users: seq<User>)
    ensures !(CheckAdmin(session, users) == Proceed && CheckUser(session, users) == Proceed)
    ensures CheckAdmin(session, users) == Proceed ==> CheckUser(session, users) == RedirectLogin
  {
    if CheckAdmin(session, users) == Proceed {
      assert StoredRole(session, users) == Some(AdminRole);
    }
  }

  /** A successful `login` puts into the session a username whose stored
      role is the role it reported, so the guards then decide by that role. */
  lemma LoginEstablishesRole(users: seq<User>, hash: string -> string, username: string, password: string, role: string)
    requires Login(users, hash, username, password) == Success(role)
    ensures StoredRole(Some(username), users) == Some(role)
    ensures CheckAdmin(Some(username), users) == Proceed <==> role == AdminRole
    ensures CheckUser(Some(username), users) == Proceed <==> role == UserRole
  {
    var i :| FirstNamed(users, username, i) && users[i].password == hash(password);
    assert SessionHasRole(Some(username), users, users[i].role);
  }

  /** With unique usernames, the admin guard lets the session through
      exactly when some stored user with that name is an admin. */
  lemma CheckAdminUnique(name: string, users: seq<User>)
    requires UniqueUsernames(users)
    ensures CheckAdmin(Some(name), users) == Proceed <==>
              exists i :: 0 <= i < |users| && users[i].username == name && users[i].role == AdminRole
  {
    if exists i :: 0 <= i < |users| && users[i].username == name && users[i].role == AdminRole {
      var i :| 0 <= i < |users| && users[i].username == name && users[i].role == AdminRole;
      assert FirstNamed(users, name, i);
    }
  }

  /** With unique usernames, the user guard lets the session through
      exactly when some stored user with that name has role "user". */
  lemma CheckUserUnique(name: string, users: seq<User>)
    requires UniqueUsernames(users)
    ensures CheckUser(Some(name), users) == Proceed <==>
              exists i :: 0 <= i < |users| && users[i].username == name && users[i].role == UserRole
  {
    if exists i :: 0 <= i < |users| && users[i].username == name && users[i].role == UserRole {
      var i :| 0 <= i < |users| && users[i].username == name && users[i].role == UserRole;
      assert FirstNamed(users, name, i);
    }
  }
}
