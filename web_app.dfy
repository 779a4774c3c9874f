/** The request handlers over one application state: the session cookie's
    username and the four collections (`user`, `berita`, `konsultasi`,
    `messages`). The clock is the `now` argument of a handler; the password
    digest and the date format are fixed functions of the application;
    whether saving an uploaded file or sending a mail succeeds is an
    argument, since both are outside I/O. */
module WebApp {
  import opened DocStore
  import opened RelativeTime
  import opened Accounts
  import opened Access
  import opened News

  /** A `konsultasi` document; `date` and `time` are the form's free text,
      `timestamp` is when it was submitted. */
  datatype Consultation = Consultation(
    id: nat, nama: string, phone: string, consultationType: string,
    discussionTopic: string, date: string, time: string, timestamp: int)

  /** A `messages` document from the contact form. */
  datatype ContactMessage = ContactMessage(name: string, email: string, subject: string, message: string, time: int)

  /** A fetched document with the `time_str` the listing loop adds to it. */
  datatype Listed<T> = Listed(doc: T, timeStr: string)

  /** What a guarded view returns: the guard's redirect, or the view's own result. */
  datatype Gated<T> = Denied(redirect: Guard) | Served(value: T)

  /** Outcomes of `editBerita` and `addBerita` after the guard: the redirect
      to the article list, or the 500 answer when the upload could not be saved. */
  datatype Written = Written | UploadFailed

  /** Outcomes of a profile edit: the redirect after a counted update, the
      form again with a failure notice, or the form alone (nothing attempted). */
  datatype ProfileEdit = ProfileUpdated | ProfileUpdateFailed | ProfileForm

  /** What `/profile` shows: the username and its display name, or the
      "User not found" redirect. */
  datatype ProfileView = ProfileShown(username: string, profileName: string) | ProfileMissing

  /** `send_email`: the message is stored either way; the flash says
      whether the mail went out. */
  datatype MailNotice = MailSent | MailFailed

  function ArticleId(a: Article): nat { a.id }
  function ConsultationId(c: Consultation): nat { c.id }
  function ArticleTime(a: Article): int { a.time }
  function ConsultationTime(c: Consultation): int { c.timestamp }
  function MessageTime(m: ContactMessage): int { m.time }

  function WithConsultationId(id: nat): Consultation -> bool
  {
    (c: Consultation) => c.id == id
  }

  /** Every document of `docs`, in order, with the text `time2str` gives for it at `now`. */
  function Listing<T>(docs: seq<T>, stamp: T -> int, now: int, formatDate: int -> string): (r: seq<Listed<T>>)
    ensures |r| == |docs|
  {
    seq(|docs|, i requires 0 <= i < |docs| => Listed(docs[i], TimeText(now, stamp(docs[i]), formatDate)))
  }

  /** The listing loop: each fetched document gets its `time_str`, in fetch order. */
  method Annotate<T>(docs: seq<T>, stamp: T -> int, now: int, formatDate: int -> string) returns (shown: seq<Listed<T>>)
    ensures shown == Listing(docs, stamp, now, formatDate)
  {
    shown := [];
    var i := 0;
    while i < |docs|
      invariant 0 <= i <= |docs|
      invariant |shown| == i
      invariant forall k :: 0 <= k < i ==> shown[k] == Listed(docs[k], TimeText(now, stamp(docs[k]), formatDate))
    {
      var item := Listed(docs[i], TimeText(now, stamp(docs[i]), formatDate));
      shown := shown + [item];
      i := i + 1;
    }
    ghost var expected := Listing(docs, stamp, now, formatDate);
    assert forall k :: 0 <= k < |docs| ==> shown[k] == expected[k];
  }

  /** The edit `edit_profile` applies to the matched user. */
  function Renamed(newUsername: string, newProfileName: string): User -> User
  {
    (u: User) => u.(username := newUsername, profileName := newProfileName)
  }

  /** Whether `update_one` reports a modification: a user with the current
      name exists and the `$set` changes one of its two fields. */
  function ProfileModified(users: seq<User>, current: string, newUsername: string, newProfileName: string): (modified: bool)
    ensures modified <==>
              exists i :: FirstNamed(users, current, i) && (current != newUsername || users[i].profileName != newProfileName)
  {
    match FindUser(users, current)
    case None => false
    case Some(u) => u.username != newUsername || u.profileName != newProfileName
  }

  /** Article ids handed out by the counter are distinct, so an `_id`
      filter matches at most one article. */
  lemma IdPicksOne(articles: seq<Article>, id: nat, bound: nat)
    requires KeyedBelow(articles, ArticleId, bound)
    ensures AtMostOne(articles, WithId(id))
  {
    forall i, j | 0 <= i < |articles| && 0 <= j < |articles| && WithId(id)(articles[i]) && WithId(id)(articles[j])
      ensures i == j
    {
      assert ArticleId(articles[i]) == id == ArticleId(articles[j]);
    }
  }

  /** `modified_count > 0` exactly when the `$set` changed the collection:
      a missing user or a resubmission of the same two values leaves it as it was. */
  lemma {:induction false} ProfileModifiedIffChanged(users: seq<User>, current: string, newUsername: string, newProfileName: string)
    ensures ProfileModified(users, current, newUsername, newProfileName) <==>
              UpdateOne(users, Named(current), Renamed(newUsername, newProfileName)) != users
  {
    var after := UpdateOne(users, Named(current), Renamed(newUsername, newProfileName));
    match FindFirst(users, Named(current))
    case None =>
    case Some(k) =>
      assert FirstNamed(users, current, k);
      if ProfileModified(users, current, newUsername, newProfileName) {
        assert after[k] != users[k];
      } else {
        assert after[k] == users[k];
        assert forall i :: 0 <= i < |users| ==> after[i] == users[i];
      }
  }

  /** After a counted profile edit the session's new username names some
      stored user (not necessarily the edited one: see `RenameOntoEarlierUser`). */
  lemma SessionFollowsCountedEdit(users: seq<User>, current: string, newUsername: string, newProfileName: string)
    requires ProfileModified(users, current, newUsername, newProfileName)
    ensures CheckDup(UpdateOne(users, Named(current), Renamed(newUsername, newProfileName)), newUsername)
  {
    var k := FindFirst(users, Named(current)).value;
    assert UpdateOne(users, Named(current), Renamed(newUsername, newProfileName))[k].username == newUsername;
  }

  /** `edit_profile` does not check that the new username is free. Renaming
      to the name of a user stored earlier than the edited one is a counted
      edit, and the guards then resolve the session to that earlier user: a
      session of role "user" that takes an earlier admin's name passes the
      admin guard. */
  lemma RenameOntoEarlierUser(users: seq<User>, current: string, newUsername: string, newProfileName: string, j: nat)
    requires FirstNamed(users, newUsername, j)
    requires FindUser(users, current).Some? && j < FindFirst(users, Named(current)).value
    ensures ProfileModified(users, current, newUsername, newProfileName)
    ensures StoredRole(Some(newUsername), UpdateOne(users, Named(current), Renamed(newUsername, newProfileName)))
              == Some(users[j].role)
    ensures users[j].role == AdminRole <==>
              CheckAdmin(Some(newUsername), UpdateOne(users, Named(current), Renamed(newUsername, newProfileName))) == Proceed
  {
    var k := FindFirst(users, Named(current)).value;
    var after := UpdateOne(users, Named(current), Renamed(newUsername, newProfileName));
    assert users[j].username != current;
    assert FirstNamed(users, current, k);
    forall i | 0 <= i <= j ensures after[i] == users[i] {
    }
    assert FirstNamed(after, newUsername, j);
    assert SessionHasRole(Some(newUsername), after, users[j].role);
  }

  /** The smallest instance: an admin "boss" stored before a user "alice";
      alice passes only the user guard, the account is renamed to "boss", and the
      session then passes the admin guard. */
  lemma UserTakesOverAdminName()
    ensures CheckUser(Some("alice"), [User("boss", "h1", "boss", "", AdminRole), User("alice", "h2", "alice", "", UserRole)]) == Proceed
    ensures ProfileModified([User("boss", "h1", "boss", "", AdminRole), User("alice", "h2", "alice", "", UserRole)], "alice", "boss", "x")
    ensures CheckAdmin(Some("boss"), UpdateOne([User("boss", "h1", "boss", "", AdminRole), User("alice", "h2", "alice", "", UserRole)],
                                               Named("alice"), Renamed("boss", "x"))) == Proceed
  {
    var users := [User("boss", "h1", "boss", "", AdminRole), User("alice", "h2", "alice", "", UserRole)];
    assert FirstNamed(users, "alice", 1);
    assert SessionHasRole(Some("alice"), users, UserRole);
    assert FirstNamed(users, "boss", 0);
    RenameOntoEarlierUser(users, "alice", "boss", "x", 0);
  }

  class App {
    var session: Option<string>
    var users: seq<User>
    var articles: seq<Article>
    var consultations: seq<Consultation>
    var messages: seq<ContactMessage>
    /** Source of fresh `_id`s: every id in use is below it. */
    var nextId: nat
    const hash: string -> string
    const formatDate: int -> string

    /** Article ids and consultation ids are distinct and were all handed out. */
    ghost predicate Valid()
      reads this
    {
      KeyedBelow(articles, ArticleId, nextId) && KeyedBelow(consultations, ConsultationId, nextId)
    }

    constructor (hash: string -> string, formatDate: int -> string)
      ensures Valid()
      ensures session == None && users == [] && articles == [] && consultations == [] && messages == []
      ensures this.hash == hash && this.formatDate == formatDate
    {
      this.hash := hash;
      this.formatDate := formatDate;
      session := None;
      users, articles, consultations, messages := [], [], [], [];
      nextId := 0;
    }

    // ---- authentication ----

    /** POST `/login`. */
    method LoginPost(username: string, password: string) returns (r: LoginResult)
      modifies this`session
      ensures r == Login(users, hash, username, password)
      ensures session == if r.Success? then Some(username) else old(session)
    {
      r := Login(users, hash, username, password);
      if r.Success? {
        session := Some(username);
      }
    }

    /** POST `/sign_in`. */
    method SignInPost(username: string, password: string) returns (r: LoginResult)
      modifies this`session
      ensures r == SignIn(users, hash, username, password)
      ensures session == if r.Success? then Some(username) else old(session)
    {
      r := SignIn(users, hash, username, password);
      if r.Success? {
        session := Some(username);
      }
    }

    /** `/logout`: the session forgets the username. */
    method Logout()
      modifies this`session
      ensures session == None
    {
      session := None;
    }

    /** POST `/sign_up/save`: always inserts exactly one record, without
        looking for an existing user of that name. */
    method SignUp(username: string, password: string, role: string)
      modifies this`users
      ensures |users| == |old(users)| + 1 && users[..|old(users)|] == old(users)
      ensures users[|old(users)|] == User(username, hash(password), username, "", role)
    {
      users := users + [NewUser(username, password, role, hash)];
    }

    /** POST `/sign_up/check_dup`. */
    method CheckDuplicate(username: string) returns (taken: bool)
      ensures taken <==> exists i :: 0 <= i < |users| && users[i].username == username
    {
      taken := CheckDup(users, username);
    }

    // ---- profile ----

    /** GET `/profile`. */
    method Profile() returns (r: Gated<ProfileView>)
      ensures CheckUser(session, users) != Proceed ==> r == Denied(CheckUser(session, users))
      ensures CheckUser(session, users) == Proceed ==>
                exists i :: FirstNamed(users, session.value, i) && r == Served(ProfileShown(session.value, users[i].profileName))
    {
      var g := CheckUser(session, users);
      if g != Proceed {
        return Denied(g);
      }
      match FindUser(users, session.value)
      case Some(u) => r := Served(ProfileShown(session.value, u.profileName));
      case None => r := Served(ProfileMissing);
    }

    /** POST `/profile/edit` with the form's two fields (a missing field is
        the empty string; both are falsy). */
    method EditProfile(newUsername: string, newProfileName: string) returns (r: Gated<ProfileEdit>)
      modifies this`users, this`session
      ensures CheckUser(old(session), old(users)) != Proceed ==>
                r == Denied(CheckUser(old(session), old(users))) && users == old(users) && session == old(session)
      ensures CheckUser(old(session), old(users)) == Proceed && (newUsername == [] || newProfileName == []) ==>
                r == Served(ProfileForm) && users == old(users) && session == old(session)
      ensures CheckUser(old(session), old(users)) == Proceed && newUsername != [] && newProfileName != [] ==>
                var modified := ProfileModified(old(users), old(session).value, newUsername, newProfileName);
                && users == UpdateOne(old(users), Named(old(session).value), Renamed(newUsername, newProfileName))
                && r == Served(if modified then ProfileUpdated else ProfileUpdateFailed)
                && session == if modified then Some(newUsername) else old(session)
    {
      var g := CheckUser(session, users);
      if g != Proceed {
        return Denied(g);
      }
      if newUsername == [] || newProfileName == [] {
        return Served(ProfileForm);
      }
      var current := session.value;
      var modified := ProfileModified(users, current, newUsername, newProfileName);
      users := UpdateOne(users, Named(current), Renamed(newUsername, newProfileName));
      if modified {
        session := Some(newUsername);
        r := Served(ProfileUpdated);
      } else {
        r := Served(ProfileUpdateFailed);
      }
    }

    // ---- articles ----

    /** GET `/` (and `/index`, `/pages`, which run the same body): every
        stored article with its relative time. */
    method Index(now: int) returns (r: Gated<seq<Listed<Article>>>)
      ensures CheckUser(session, users) != Proceed ==> r == Denied(CheckUser(session, users))
      ensures CheckUser(session, users) == Proceed ==> r == Served(Listing(articles, ArticleTime, now, formatDate))
    {
      var g := CheckUser(session, users);
      if g != Proceed {
        return Denied(g);
      }
      var shown := Annotate(articles, ArticleTime, now, formatDate);
      r := Served(shown);
    }

    /** GET `/berita`: the admin's article list. */
    method Berita(now: int) returns (r: Gated<seq<Listed<Article>>>)
      ensures CheckAdmin(session, users) != Proceed ==> r == Denied(CheckAdmin(session, users))
      ensures CheckAdmin(session, users) == Proceed ==> r == Served(Listing(articles, ArticleTime, now, formatDate))
    {
      var g := CheckAdmin(session, users);
      if g != Proceed {
        return Denied(g);
      }
      var shown := Annotate(articles, ArticleTime, now, formatDate);
      r := Served(shown);
    }

    /** GET `/recent-articles` (no guard): all articles, newest first. */
    method RecentArticles(now: int) returns (shown: seq<Listed<Article>>)
      ensures shown == Listing(SortNewestFirst(articles), ArticleTime, now, formatDate)
      ensures |shown| == |articles|
      ensures multiset(seq(|shown|, i requires 0 <= i < |shown| => shown[i].doc)) == multiset(articles)
      ensures forall i, j :: 0 <= i < j < |shown| ==> shown[i].doc.time >= shown[j].doc.time
      ensures forall i :: 0 <= i < |shown| ==> shown[i].timeStr == TimeText(now, shown[i].doc.time, formatDate)
    {
      var sorted := SortNewestFirst(articles);
      assert |sorted| == |articles| by {
        assert |multiset(sorted)| == |multiset(articles)|;
      }
      shown := Annotate(sorted, ArticleTime, now, formatDate);
      assert seq(|shown|, i requires 0 <= i < |shown| => shown[i].doc) == sorted;
      assert forall i :: 0 <= i < |shown| ==> ArticleTime(sorted[i]) == shown[i].doc.time;
    }

    /** POST `/addBerita`: inserts the article with a fresh id and the current
        time; a failed save of the upload ends the request with nothing inserted. */
    method AddArticle(nama: string, deskripsi: string, upload: string, saveOk: bool, now: int) returns (r: Gated<Written>)
      requires Valid()
      modifies this`articles, this`nextId
      ensures Valid()
      ensures CheckAdmin(session, users) != Proceed ==>
                r == Denied(CheckAdmin(session, users)) && articles == old(articles) && nextId == old(nextId)
      ensures CheckAdmin(session, users) == Proceed && upload != [] && !saveOk ==>
                r == Served(UploadFailed) && articles == old(articles) && nextId == old(nextId)
      ensures CheckAdmin(session, users) == Proceed && (upload == [] || saveOk) ==>
                r == Served(Written) && articles == old(articles) + [NewArticle(old(nextId), nama, deskripsi, upload, now)]
    {
      var g := CheckAdmin(session, users);
      if g != Proceed {
        return Denied(g);
      }
      if upload != [] && !saveOk {
        return Served(UploadFailed);
      }
      AppendKeepsKeys(articles, NewArticle(nextId, nama, deskripsi, upload, now), ArticleId, nextId);
      RaiseBound(consultations, ConsultationId, nextId);
      articles := articles + [NewArticle(nextId, nama, deskripsi, upload, now)];
      nextId := nextId + 1;
      r := Served(Written);
    }

    /** GET `/editBerita/<id>`: the stored article, or not found (404). */
    method EditArticleForm(id: nat) returns (r: Gated<Option<Article>>)
      ensures CheckAdmin(session, users) != Proceed ==> r == Denied(CheckAdmin(session, users))
      ensures CheckAdmin(session, users) == Proceed ==>
                (r == Served(None) <==> forall i :: 0 <= i < |articles| ==> articles[i].id != id)
      ensures CheckAdmin(session, users) == Proceed && r.Served? && r.value.Some? ==>
                r.value.value in articles && r.value.value.id == id
    {
      var g := CheckAdmin(session, users);
      if g != Proceed {
        return Denied(g);
      }
      r := Served(match FindFirst(articles, WithId(id)) case None => None case Some(k) => Some(articles[k]));
    }

    /** GET `/article_detail/<id>` for a signed-in user. */
    method ArticleDetail(id: nat) returns (r: Gated<Option<Article>>)
      ensures CheckUser(session, users) != Proceed ==> r == Denied(CheckUser(session, users))
      ensures CheckUser(session, users) == Proceed ==>
                (r == Served(None) <==> forall i :: 0 <= i < |articles| ==> articles[i].id != id)
      ensures CheckUser(session, users) == Proceed && r.Served? && r.value.Some? ==>
                r.value.value in articles && r.value.value.id == id
    {
      var g := CheckUser(session, users);
      if g != Proceed {
        return Denied(g);
      }
      r := Served(match FindFirst(articles, WithId(id)) case None => None case Some(k) => Some(articles[k]));
    }

    /** POST `/editBerita/<id>`: `$set` of title, description and, when a
        file was uploaded and saved, the new image name; a missing id
        changes nothing. */
    method EditArticle(formId: nat, nama: string, deskripsi: string, upload: string, saveOk: bool) returns (r: Gated<Written>)
      requires Valid()
      modifies this`articles
      ensures Valid()
      ensures CheckAdmin(session, users) != Proceed ==> r == Denied(CheckAdmin(session, users)) && articles == old(articles)
      ensures CheckAdmin(session, users) == Proceed && upload != [] && !saveOk ==>
                r == Served(UploadFailed) && articles == old(articles)
      ensures CheckAdmin(session, users) == Proceed && (upload == [] || saveOk) ==>
                r == Served(Written) &&
                articles == UpdateOne(old(articles), WithId(formId), Edited(EditDoc(nama, deskripsi, upload)))
    {
      var g := CheckAdmin(session, users);
      if g != Proceed {
        return Denied(g);
      }
      if upload != [] && !saveOk {
        return Served(UploadFailed);
      }
      var update := Edited(EditDoc(nama, deskripsi, upload));
      assert forall a :: ArticleId(update(a)) == ArticleId(a);
      UpdateOneKeepsKeys(articles, WithId(formId), update, ArticleId, nextId);
      articles := UpdateOne(articles, WithId(formId), update);
      r := Served(Written);
    }

    /** GET `/delete/<id>`. */
    method DeleteArticle(id: nat) returns (r: Gated<()>)
      requires Valid()
      modifies this`articles
      ensures Valid()
      ensures CheckAdmin(session, users) != Proceed ==> r == Denied(CheckAdmin(session, users)) && articles == old(articles)
      ensures CheckAdmin(session, users) == Proceed ==> r == Served(()) && articles == DeleteOne(old(articles), WithId(id))
      ensures CheckAdmin(session, users) == Proceed ==> forall i :: 0 <= i < |articles| ==> articles[i].id != id
    {
      var g := CheckAdmin(session, users);
      if g != Proceed {
        return Denied(g);
      }
      IdPicksOne(articles, id, nextId);
      DeleteOneIdempotent(articles, WithId(id));
      DeleteOneKeepsKeys(articles, WithId(id), ArticleId, nextId);
      articles := DeleteOne(articles, WithId(id));
      r := Served(());
    }

    // ---- consultations and messages ----

    /** POST `/schedule_appointment` (no guard): stores the request as given. */
    method ScheduleAppointment(nama: string, phone: string, consultationType: string, discussionTopic: string,
                               date: string, time: string, now: int)
      requires Valid()
      modifies this`consultations, this`nextId
      ensures Valid()
      ensures consultations == old(consultations) +
                [Consultation(old(nextId), nama, phone, consultationType, discussionTopic, date, time, now)]
    {
      var c := Consultation(nextId, nama, phone, consultationType, discussionTopic, date, time, now);
      AppendKeepsKeys(consultations, c, ConsultationId, nextId);
      RaiseBound(articles, ArticleId, nextId);
      consultations := consultations + [c];
      nextId := nextId + 1;
    }

    /** GET `/consultations`. */
    method Consultations(now: int) returns (r: Gated<seq<Listed<Consultation>>>)
      ensures CheckAdmin(session, users) != Proceed ==> r == Denied(CheckAdmin(session, users))
      ensures CheckAdmin(session, users) == Proceed ==>
                r == Served(Listing(consultations, ConsultationTime, now, formatDate))
    {
      var g := CheckAdmin(session, users);
      if g != Proceed {
        return Denied(g);
      }
      var shown := Annotate(consultations, ConsultationTime, now, formatDate);
      r := Served(shown);
    }

    /** POST `/delete_consultation/<id>`. */
    method DeleteConsultation(id: nat) returns (r: Gated<()>)
      requires Valid()
      modifies this`consultations
      ensures Valid()
      ensures CheckAdmin(session, users) != Proceed ==> r == Denied(CheckAdmin(session, users)) && consultations == old(consultations)
      ensures CheckAdmin(session, users) == Proceed ==>
                r == Served(()) && consultations == DeleteOne(old(consultations), WithConsultationId(id))
    {
      var g := CheckAdmin(session, users);
      if g != Proceed {
        return Denied(g);
      }
      DeleteOneKeepsKeys(consultations, WithConsultationId(id), ConsultationId, nextId);
      consultations := DeleteOne(consultations, WithConsultationId(id));
      r := Served(());
    }

    /** GET `/messages`. */
    method Messages(now: int) returns (r: Gated<seq<Listed<ContactMessage>>>)
      ensures CheckAdmin(session, users) != Proceed ==> r == Denied(CheckAdmin(session, users))
      ensures CheckAdmin(session, users) == Proceed ==> r == Served(Listing(messages, MessageTime, now, formatDate))
    {
      var g := CheckAdmin(session, users);
      if g != Proceed {
        return Denied(g);
      }
      var shown := Annotate(messages, MessageTime, now, formatDate);
      r := Served(shown);
    }

    /** POST `/send_email`: the message is stored before the mail is tried,
        and stays stored when the mail fails. */
    method SendEmail(name: string, email: string, subject: string, message: string, now: int, mailOk: bool)
      returns (r: Gated<MailNotice>)
      modifies this`messages
      ensures CheckUser(session, users) != Proceed ==> r == Denied(CheckUser(session, users)) && messages == old(messages)
      ensures CheckUser(session, users) == Proceed ==>
                messages == old(messages) + [ContactMessage(name, email, subject, message, now)] &&
                r == Served(if mailOk then MailSent else MailFailed)
    {
      var g := CheckUser(session, users);
      if g != Proceed {
        return Denied(g);
      }
      messages := messages + [ContactMessage(name, email, subject, message, now)];
      r := Served(if mailOk then MailSent else MailFailed);
    }
  }
}
