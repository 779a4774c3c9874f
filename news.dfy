/** The `berita` (article) collection: the documents `addBerita` inserts,
    the partial update `editBerita` applies, how an uploaded file's name is
    reduced to the name stored, and the newest-first order of
    `recent-articles`. */
module News {
  import opened DocStore

  /** An article: `nama` (title), `deskripsi` (description), `gambar` (the
      stored image file name, `None` when inserted without an upload) and
      `time` (insertion time in seconds). `id` is the store's `_id`. */
  datatype Article = Article(id: nat, nama: string, deskripsi: string, gambar: Option<string>, time: int)

  /** The last '/'-separated segment of an upload's file name: what follows
      the last '/', or the whole name when it has none. */
  function Basename(name: string): (r: string)
    ensures |r| <= |name| && r == name[|name| - |r|..]
    ensures '/' !in r
    ensures |r| < |name| ==> name[|name| - |r| - 1] == '/'
  {
    if name == [] || name[|name| - 1] == '/' then []
    else Basename(name[..|name| - 1]) + [name[|name| - 1]]
  }

  /** A name without '/' is stored as it is. */
  lemma BasenameNoSlash(name: string)
    requires '/' !in name
    ensures Basename(name) == name
  {
    assert forall k :: 0 <= k < |name| ==> name[k] != '/';
  }

  /** Reducing a stored name again changes nothing. */
  lemma BasenameIdempotent(name: string)
    ensures Basename(Basename(name)) == Basename(name)
  {
    BasenameNoSlash(Basename(name));
  }

  /** Filter `{"_id": id}`. */
  function WithId(id: nat): Article -> bool
  {
    (a: Article) => a.id == id
  }

  /** The stored image name for an upload whose file name is `upload`; an
      empty file name means no file was sent (the upload is falsy). */
  function ImageName(upload: string): (r: Option<string>)
    ensures r.None? <==> upload == []
    ensures r.Some? ==> '/' !in r.value && r.value == Basename(upload)
  {
    if upload == [] then None else Some(Basename(upload))
  }

  /** The document `addBerita` inserts. */
  function NewArticle(id: nat, nama: string, deskripsi: string, upload: string, now: int): (a: Article)
    ensures a.id == id && a.time == now && a.nama == nama && a.deskripsi == deskripsi
    ensures a.gambar.None? <==> upload == []
    ensures a.gambar.Some? ==> a.gambar.value == Basename(upload) && '/' !in a.gambar.value
  {
    Article(id, nama, deskripsi, ImageName(upload), now)
  }

  /** The `$set` document of `editBerita`: title and description always,
      `gambar` only when a file was uploaded (`None` here means the key is absent). */
  datatype SetDoc = SetDoc(nama: string, deskripsi: string, gambar: Option<string>)

  function EditDoc(nama: string, deskripsi: string, upload: string): (d: SetDoc)
    ensures d.nama == nama && d.deskripsi == deskripsi
    ensures d.gambar.Some? <==> upload != []
    ensures d.gambar.Some? ==> d.gambar.value == Basename(upload)
  {
    SetDoc(nama, deskripsi, ImageName(upload))
  }

  /** Applying `{"$set": d}` to a stored article: the keys `d` holds are
      overwritten, every other field (the `_id`, the time, an image when
      `d` has none) is kept. */
  function ApplySet(a: Article, d: SetDoc): (r: Article)
    ensures r.id == a.id && r.time == a.time
    ensures r.nama == d.nama && r.deskripsi == d.deskripsi
    ensures d.gambar.None? ==> r.gambar == a.gambar
    ensures d.gambar.Some? ==> r.gambar == d.gambar
  {
    Article(a.id, d.nama, d.deskripsi, if d.gambar.Some? then d.gambar else a.gambar, a.time)
  }

  /** The update `editBerita` applies to the matched article. */
  function Edited(d: SetDoc): Article -> Article
  {
    (a: Article) => ApplySet(a, d)
  }

  /** An edit without an upload replaces title and description and keeps
      the image reference, the id and the time; an edit with one replaces
      the image reference by the upload's base name. */
  lemma EditKeepsOrReplacesImage(a: Article, nama: string, deskripsi: string, upload: string)
    ensures upload == [] ==> ApplySet(a, EditDoc(nama, deskripsi, upload)) == a.(nama := nama, deskripsi := deskripsi)
    ensures upload != [] ==>
              ApplySet(a, EditDoc(nama, deskripsi, upload)) == a.(nama := nama, deskripsi := deskripsi, gambar := Some(Basename(upload)))
  {
  }

  /** No article comes after one with a later `time`. */
  ghost predicate NewestFirst(s: seq<Article>)
  {
    forall i, j :: 0 <= i < j < |s| ==> s[i].time >= s[j].time
  }

  /** The articles of `s` stored at time `t`, in their order in `s`. */
  function WithTime(s: seq<Article>, t: int): seq<Article>
  {
    if s == [] then [] else (if s[0].time == t then [s[0]] else []) + WithTime(s[1..], t)
  }

  lemma WithTimeCons(a: Article, s: seq<Article>, t: int)
    ensures WithTime([a] + s, t) == (if a.time == t then [a] else []) + WithTime(s, t)
  {
    assert ([a] + s)[1..] == s;
  }

  /** Places `a` before the first article that is not newer than it. */
  function InsertNewestFirst(a: Article, s: seq<Article>): (r: seq<Article>)
    requires NewestFirst(s)
    ensures NewestFirst(r)
    ensures multiset(r) == multiset(s) + multiset{a}
    ensures |r| == |s| + 1 && (r[0] == a || (s != [] && r[0] == s[0]))
  {
    if s == [] || s[0].time <= a.time then
      NewestFirstCons(a, s);
      [a] + s
    else
      var rest := InsertNewestFirst(a, s[1..]);
      InsertBehindHead(a, s, rest);
      [s[0]] + rest
  }

  /** The recursive step of the insertion: `a` went into the tail, behind a strictly newer head. */
  lemma InsertBehindHead(a: Article, s: seq<Article>, rest: seq<Article>)
    requires NewestFirst(s) && s != [] && a.time < s[0].time
    requires NewestFirst(rest) && multiset(rest) == multiset(s[1..]) + multiset{a}
    requires |rest| == |s| && (rest[0] == a || (|s| > 1 && rest[0] == s[1]))
    ensures NewestFirst([s[0]] + rest)
    ensures multiset([s[0]] + rest) == multiset(s) + multiset{a}
  {
    assert rest[0].time <= s[0].time;
    NewestFirstCons(s[0], rest);
    assert s == [s[0]] + s[1..];
    assert multiset([s[0]] + rest) == multiset{s[0]} + multiset(rest);
  }

  /** An article at least as new as the head of a newest-first list can go in front of it. */
  lemma NewestFirstCons(a: Article, s: seq<Article>)
    requires NewestFirst(s) && (s == [] || s[0].time <= a.time)
    ensures NewestFirst([a] + s)
  {
    var r := [a] + s;
    forall i, j | 0 <= i < j < |r| ensures r[i].time >= r[j].time {
      if i == 0 && j > 1 {
        assert r[j] == s[j - 1] && s[0].time >= s[j - 1].time;
      } else if i > 0 {
        assert r[i] == s[i - 1] && r[j] == s[j - 1];
      }
    }
  }

  /** The articles ordered by `time`, latest first, by a stable sort. */
  function SortNewestFirst(s: seq<Article>): (r: seq<Article>)
    ensures NewestFirst(r)
    ensures multiset(r) == multiset(s)
  {
    if s == [] then []
    else
      assert s == [s[0]] + s[1..];
      InsertNewestFirst(s[0], SortNewestFirst(s[1..]))
  }

  lemma {:induction false} InsertKeepsTies(a: Article, s: seq<Article>, t: int)
    requires NewestFirst(s)
    ensures WithTime(InsertNewestFirst(a, s), t) == (if a.time == t then [a] else []) + WithTime(s, t)
  {
    if s == [] || s[0].time <= a.time {
      WithTimeCons(a, s, t);
    } else {
      var rest := InsertNewestFirst(a, s[1..]);
      assert InsertNewestFirst(a, s) == [s[0]] + rest;
      InsertKeepsTies(a, s[1..], t);
      WithTimeCons(s[0], rest, t);
      WithTimeCons(s[0], s[1..], t);
      assert s == [s[0]] + s[1..];
      if a.time == t {
        // s[0] is strictly newer, so it is not among the ties
        assert WithTime(InsertNewestFirst(a, s), t) == [a] + WithTime(s[1..], t);
        assert WithTime(s, t) == WithTime(s[1..], t);
      } else {
        assert WithTime(InsertNewestFirst(a, s), t) == (if s[0].time == t then [s[0]] else []) + WithTime(s[1..], t);
      }
    }
  }

  /** The sort is stable: articles with equal `time` keep their stored
      order, as Python's `sorted` keeps it with `reverse=True`. */
  lemma {:induction false} SortKeepsTies(s: seq<Article>, t: int)
    ensures WithTime(SortNewestFirst(s), t) == WithTime(s, t)
  {
    if s != [] {
      SortKeepsTies(s[1..], t);
      InsertKeepsTies(s[0], SortNewestFirst(s[1..]), t);
      WithTimeCons(s[0], s[1..], t);
      assert s == [s[0]] + s[1..];
    }
  }
}
