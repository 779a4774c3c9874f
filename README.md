# HELTHCARE21 web application: a verified model of its decision logic

This is a model of the health-care web application in `app.py`, a Flask app over MongoDB. Administrators publish news
articles ("berita"). Users book consultations ("konsultasi") and send contact messages. Access is gated by two
session-role guards. The application is mostly request glue. The part the model states and proves is:

- `time2str`, the relative-time text shown beside every listed document (module `RelativeTime`);
- the guards `check_admin` and `check_user` (module `Access`);
- credential matching in `login` and `sign_in`, plus `sign_up` and `check_dup` over the `user` collection (module `Accounts`);
- the article rules (module `News`):
  - the stored name of an uploaded image;
  - the partial `$set` of `editBerita`;
  - the newest-first order of `recent-articles`;
- the handlers themselves (module `WebApp`). A class `App` holds:
  - the session's username;
  - the `user`, `berita`, `konsultasi` and `messages` collections;
  - the counter that hands out `_id`s.

  Its methods change that state the way each route does. A listing loop attaches `time_str` to every fetched document.

The store is abstract (module `DocStore`). A collection is a sequence in insertion order:

- `find_one` is the first match;
- `delete_one` removes the first match;
- `update_one` rewrites the first match.

These functions are parameters:

- the password digest `hash` (SHA-256 of the UTF-8 bytes, as hex);
- the date format `formatDate` (`%Y-%m-%d %H:%M`).

These outcomes are arguments of the handlers:

- the clock (`now`, whole seconds);
- whether saving an uploaded file succeeds;
- whether the mail goes out.

Behaviour worth knowing, all proved:

- `login` looks only at the first stored user with the username. `sign_in` accepts any stored user with that
  username and digest. They agree when usernames are unique (`LoginAgreesWithSignIn`). `sign_up` does not check for
  duplicates, so registering a taken name leaves `login` deciding as before, while `sign_in` accepts the new password
  (`DuplicateSignUpShadowed`).
- The two guards are asymmetric. Only `check_admin` redirects to index. An admin session never passes `check_user`
  (`GuardsExclusive`).
- In `edit_profile`, `update_one` reports no modification when the submitted values equal the stored ones. The profile
  edit then reports failure and the session keeps its username (`ProfileModifiedIffChanged`).
- `edit_profile` does not check that the new username is free. A user renamed to the name of a user stored earlier is
  resolved by both guards to that earlier user, so an account of role "user" that takes an earlier admin's name then
  passes `check_admin` (`RenameOntoEarlierUser`, with the two-user instance `UserTakesOverAdminName`).

## Model

| member | source | states |
|---|---|---|
| DocStore.FindFirst | app.py:60 | `find_one` returns the first matching document: none iff nothing matches, otherwise a match with no match before it |
| DocStore.FindFirstAppend | app.py:298 | inserting a document never changes an earlier first match; otherwise the new document is the first match if it matches |
| DocStore.DeleteOne | app.py:218 | `delete_one` leaves the collection unchanged when nothing matches, and otherwise removes exactly the first match (length and multiset) |
| DocStore.DeleteOneIdempotent | app.py:218 | for an `_id` filter (at most one match), nothing matches after a delete, so deleting twice equals deleting once |
| DocStore.UpdateOne | app.py:202 | `update_one` rewrites only the first match and leaves every other document as it was |
| DocStore.DeleteOneKeepsKeys | app.py:218 | deleting keeps the `_id`s distinct and below the counter |
| DocStore.RemoveAtKeepsKeys | app.py:218 | removing the document at any position keeps the other `_id`s distinct and below the counter |
| DocStore.UpdateOneKeepsKeys | app.py:202 | an update that keeps each document's `_id` keeps the `_id`s distinct and below the counter |
| DocStore.AppendKeepsKeys | app.py:167 | inserting under the next `_id` keeps `_id`s distinct |
| RelativeTime.Bucket | app.py:38-50 | the four buckets are disjoint and exhaustive. Under 60 s it counts seconds exactly; under 3600 s, minutes 1..59; under 86400 s, hours 1..23; each count is the truncated quotient. Otherwise it gives the stored date |
| RelativeTime.NatToDecimal | app.py:44 | the count is written as a non-empty string of decimal digits with no leading zero |
| RelativeTime.DecimalRoundTrip | app.py:44-48 | reading the written digits back gives the count |
| RelativeTime.CountsDistinguishable | app.py:44-48 | different counts are written as different digit strings |
| RelativeTime.Text | app.py:44-50 | a bucket's text is the formatted date for the date bucket, and otherwise ends in " ago" |
| RelativeTime.TimeText | app.py:38-50 | the full string: under 60 s the elapsed seconds, under 3600 s the elapsed whole minutes, under 86400 s the elapsed whole hours, each as decimal digits followed by its unit and " ago"; from a day on, the formatted stored date |
| RelativeTime.BoundaryBuckets | app.py:43-50 | 0 s and 59 s are counted in seconds, 60 s is 1 minute, 3599 s is 59 minutes, 3600 s is 1 hour, 86399 s is 23 hours, and 86400 s gives the stored date |
| RelativeTime.BoundaryDigits | app.py:44-48 | the counts 0, 1, 23 and 59 are written "0", "1", "23" and "59" |
| RelativeTime.LastMinuteText | app.py:45-46 | 3599 s after the stored time the text is "59 minutes ago" |
| Accounts.FindUser | app.py:241 | the user lookup finds nothing iff no stored user has the name, and otherwise the first user with it |
| Accounts.CheckDup | app.py:302-312 | `exists` is true iff some stored user has exactly that username |
| Accounts.Login | app.py:234-246 | success iff the first stored user with the username has digest H(password); it then reports that user's role. Every failure is the same fixed message |
| Accounts.SignIn | app.py:251-268 | success iff some stored user has both the username and H(password); it reports the role of the first such user. Every failure is the same fixed message |
| Accounts.LoginImpliesSignIn | app.py:241-268 | whatever `login` accepts, `sign_in` accepts with the same role |
| Accounts.LoginAgreesWithSignIn | app.py:241-268 | with unique usernames, `login` and `sign_in` give identical answers |
| Accounts.NewUser | app.py:290-296 | the stored record has the username, the digest of the password (never the password), the given role, the username as profile name and an empty profile text |
| Accounts.SignUpThenLogIn | app.py:283-299 | after registering a fresh username, both endpoints accept the pair with the chosen role; at both endpoints a password with a different digest fails |
| Accounts.DuplicateSignUpShadowed | app.py:283-299 | registering a taken username leaves `login` unchanged for that name for every password, while `sign_in` accepts the new one |
| Access.StoredRole | app.py:60-61 | the role read for the session is exactly the role of the first stored user with the session's username |
| Access.CheckAdmin | app.py:56-67 | proceeds iff the session's user has role "admin"; no session redirects to login; any other session redirects to index |
| Access.CheckUser | app.py:70-78 | proceeds iff the session's user has role "user"; every other case redirects to login and never to index |
| Access.GuardsExclusive | app.py:56-78 | the two guards never both proceed, and an admin session is sent to login by the user guard |
| Access.LoginEstablishesRole | app.py:241-244 | after a successful login, the session's stored role is the role reported, and each guard proceeds iff that role is its own |
| Access.CheckAdminUnique | app.py:56-67 | with unique usernames, the admin guard proceeds iff some stored user with that name is an admin |
| Access.CheckUserUnique | app.py:70-78 | with unique usernames, the user guard proceeds iff some stored user with that name has role "user" |
| News.Basename | app.py:154 | the stored name is a suffix of the upload's name with no '/'; when shorter than the whole name, a '/' precedes it |
| News.BasenameNoSlash | app.py:154 | a name without '/' is stored unchanged |
| News.BasenameIdempotent | app.py:189 | reducing a stored name again gives the same name |
| News.ImageName | app.py:152-158 | no image name iff no file was uploaded (empty file name); otherwise the base name, which has no '/' |
| News.NewArticle | app.py:160-165 | the inserted article has the fresh id, the current time, the title and description, and an image name iff a file was uploaded, then its base name without '/' |
| News.ApplySet | app.py:202 | `$set` overwrites title and description, overwrites the image only when the `$set` holds one, and keeps the id and time |
| News.EditDoc | app.py:181-197 | the `$set` always sets title and description; it sets `gambar` iff a file was uploaded, and then to the base name |
| News.EditKeepsOrReplacesImage | app.py:181-202 | without an upload, an edit keeps the image reference, id and time and replaces title and description; with one, it replaces the image reference by the base name |
| News.InsertNewestFirst | app.py:431 | inserting into a newest-first list keeps it newest-first and adds exactly the one article |
| News.SortNewestFirst | app.py:431 | the result is ordered by `time`, non-increasing, and is a permutation of the input |
| News.SortKeepsTies | app.py:431 | the sort is stable: for every time value, the articles with that time keep their stored order |
| WebApp.Annotate | app.py:124-125 | the listing loop returns every fetched document, in order, each with the relative-time text of its own timestamp |
| WebApp.ProfileModified | app.py:105-110 | the update is counted iff a user with the session's name exists and the new username or profile name differs from the stored one |
| WebApp.ProfileModifiedIffChanged | app.py:105-110 | the update is counted iff the `$set` actually changes the `user` collection |
| WebApp.SessionFollowsCountedEdit | app.py:110-113 | after a counted edit, the username put into the session names some stored user |
| WebApp.RenameOntoEarlierUser | app.py:104-113 | renaming to the name of a user stored before the edited one is a counted edit, after which the session resolves to that earlier user's role, and the admin guard proceeds iff that user is an admin |
| WebApp.UserTakesOverAdminName | app.py:56-67 | with an admin "boss" stored before a user "alice", alice passes the user guard, the rename to "boss" is counted, and the renamed session passes the admin guard |
| WebApp.App.LoginPost | app.py:234-246 | answers as `Login`; the session takes the username only on success and is otherwise untouched |
| WebApp.App.SignInPost | app.py:251-268 | answers as `SignIn`; the session takes the username only on success |
| WebApp.App.Logout | app.py:271-274 | the session no longer holds a username |
| WebApp.App.SignUp | app.py:283-299 | appends exactly one user: digest of the password, profile name = username, empty profile info, the given role; earlier users unchanged |
| WebApp.App.CheckDuplicate | app.py:302-312 | reports whether some stored user has exactly that username |
| WebApp.App.Profile | app.py:80-90 | behind the user guard, shows the session's username and the first matching user's profile name |
| WebApp.App.EditProfile | app.py:93-118 | behind the user guard. With an empty field nothing changes. Otherwise the first user with the session name gets the new username and profile name. The answer is "updated" iff the update was counted, and the session follows the new name only then |
| WebApp.App.Index | app.py:120-126 | behind the user guard, lists every article with its relative time |
| WebApp.App.Berita | app.py:136-142 | behind the admin guard, lists every article with its relative time |
| WebApp.App.RecentArticles | app.py:428-435 | without a guard, lists the articles in the order of the stable newest-first sort (so `SortKeepsTies` fixes the order of equal times), each with its relative time; it is a permutation of all articles, newest first |
| WebApp.App.AddArticle | app.py:144-170 | behind the admin guard, appends one article with a fresh id, the current time and the stored image name. A failed upload save inserts nothing |
| WebApp.App.EditArticleForm | app.py:207-212 | behind the admin guard, gives the stored article with that id, or not found iff there is none |
| WebApp.App.ArticleDetail | app.py:375-381 | behind the user guard, gives the stored article with that id, or not found iff there is none |
| WebApp.App.EditArticle | app.py:172-205 | behind the admin guard, applies the partial `$set` to the article with that id. A failed upload save changes nothing |
| WebApp.App.DeleteArticle | app.py:215-219 | behind the admin guard, removes the article with that id, after which no article has it (so a repeat is a no-op) |
| WebApp.App.ScheduleAppointment | app.py:320-358 | without a guard, appends the request as given, with a fresh id and the submission time |
| WebApp.App.Consultations | app.py:360-366 | behind the admin guard, lists every consultation with its relative time |
| WebApp.App.DeleteConsultation | app.py:368-373 | behind the admin guard, removes the consultation with that id |
| WebApp.App.Messages | app.py:391-397 | behind the admin guard, lists every message with its relative time |
| WebApp.App.SendEmail | app.py:400-426 | behind the user guard, stores the message whether or not the mail goes out; the notice reports the mail's outcome |

## Left out

- Flask routing, templates, `flash`, `redirect`/`url_for` URLs and `jsonify`: outcomes are datatypes (`Guard`, `Gated`, `LoginResult`, `Written`, `ProfileEdit`, `MailNotice`).
- GET-only views that only render a template behind a guard (`/about`, `/service`, `/appointment`, `/contact`, `/admin`, the GET forms of `/login`, `/addBerita` and `/profile/edit`): their only decision is the guard, which `CheckUser`/`CheckAdmin` model.
- `/index` (app.py:128-134) and `/pages` (app.py:383-389) have the same body as `/`; `App.Index` models all three.
- `ObjectId` parsing of the path or form id: ids are natural numbers, so the 500 answer for a malformed id is not modelled.
- Store failures (a failed insert, update or delete): the abstract store always succeeds.
- SHA-256 and UTF-8 encoding: the digest is an uninterpreted deterministic function.
- SMTP delivery, writing the uploaded file and creating its directory (app.py:156, 193-196, 417-424): external I/O. Their success is an argument.
- `datetime.now()`, `strftime` and float `total_seconds()`: times are whole seconds. Sub-second truncation is not modelled. A negative elapsed time (a future timestamp) falls in the seconds bucket with its negative count.
- A missing form field (`request.form.get` returning `None`) is modelled as the empty string; both are falsy. A missing required field (`request.form[...]`), which aborts the request, is not modelled.
- The fetched list is copied before `time_str` is written into it, so the model builds the annotated list as a new sequence. The stored documents are not touched either way.
- Loading environment variables and the secret key, and `app.run`: configuration only.
