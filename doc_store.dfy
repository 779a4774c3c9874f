/** The document store as the handlers see it: a collection is a sequence of
    documents in natural (insertion) order, and a filter is a predicate on a
    document. `find_one` returns the first match, `delete_one` removes the
    first match and `update_one` rewrites the first match. */
module DocStore {

  datatype Option<+T> = None | Some(value: T)

  /** Position of the first document the filter matches (`find_one`). */
  function FindFirst<T>(docs: seq<T>, matches: T -> bool): (r: Option<nat>)
    ensures r.None? <==> forall i :: 0 <= i < |docs| ==> !matches(docs[i])
    ensures r.Some? ==> r.value < |docs| && matches(docs[r.value])
    ensures r.Some? ==> forall j :: 0 <= j < r.value ==> !matches(docs[j])
  {
    if docs == [] then None
    else if matches(docs[0]) then Some(0)
    else match FindFirst(docs[1..], matches)
      case None => None
      case Some(k) => Some(k + 1)
  }

  /** At most one document of the collection matches the filter. */
  ghost predicate AtMostOne<T>(docs: seq<T>, matches: T -> bool)
  {
    forall i, j :: 0 <= i < |docs| && 0 <= j < |docs| && matches(docs[i]) && matches(docs[j]) ==> i == j
  }

  /** Appending a document never changes an earlier first match; without
      one, the appended document is the first match if it matches. */
  lemma {:induction false} FindFirstAppend<T>(docs: seq<T>, d: T, matches: T -> bool)
    ensures FindFirst(docs + [d], matches) ==
      if FindFirst(docs, matches).Some? then FindFirst(docs, matches)
      else if matches(d) then Some(|docs|)
      else None
  {
    if docs != [] {
      assert (docs + [d])[1..] == docs[1..] + [d];
      FindFirstAppend(docs[1..], d, matches);
    }
  }

  /** `delete_one`: the collection without its first matching document. */
  function DeleteOne<T>(docs: seq<T>, matches: T -> bool): (r: seq<T>)
    ensures FindFirst(docs, matches).None? ==> r == docs
    ensures FindFirst(docs, matches).Some? ==>
      |r| + 1 == |docs| && multiset(r) + multiset{docs[FindFirst(docs, matches).value]} == multiset(docs)
    ensures FindFirst(docs, matches).Some? ==>
      forall i :: 0 <= i < |r| ==> r[i] == docs[Skip(i, FindFirst(docs, matches).value)]
  {
    match FindFirst(docs, matches)
    case None => docs
    case Some(k) =>
      RemoveAtShape(docs, k);
      docs[..k] + docs[k + 1..]
  }

  lemma RemoveAtShape<T>(docs: seq<T>, k: nat)
    requires k < |docs|
    ensures |docs[..k] + docs[k + 1..]| + 1 == |docs|
    ensures multiset(docs[..k] + docs[k + 1..]) + multiset{docs[k]} == multiset(docs)
    ensures forall i :: 0 <= i < |docs| - 1 ==> (docs[..k] + docs[k + 1..])[i] == docs[Skip(i, k)]
  {
    assert docs == docs[..k] + [docs[k]] + docs[k + 1..];
  }

  /** When the filter picks out at most one document (an `_id` filter),
      deleting leaves no match, so deleting twice is deleting once. */
  lemma DeleteOneIdempotent<T>(docs: seq<T>, matches: T -> bool)
    requires AtMostOne(docs, matches)
    ensures FindFirst(DeleteOne(docs, matches), matches).None?
    ensures DeleteOne(DeleteOne(docs, matches), matches) == DeleteOne(docs, matches)
  {
    match FindFirst(docs, matches)
    case None =>
    case Some(k) =>
      var r := DeleteOne(docs, matches);
      forall i | 0 <= i < |r| ensures !matches(r[i]) {
        assert r[i] == docs[Skip(i, k)];
      }
  }

  /** Every key is below `bound` and no two documents share a key: the
      shape of a collection whose `_id`s come from a counter. */
  ghost predicate KeyedBelow<T>(docs: seq<T>, key: T -> nat, bound: nat)
  {
    && (forall i :: 0 <= i < |docs| ==> key(docs[i]) < bound)
    && (forall i, j :: 0 <= i < j < |docs| ==> key(docs[i]) != key(docs[j]))
  }

  /** Inserting a document under the next key keeps the keys distinct,
      below the advanced bound. */
  lemma AppendKeepsKeys<T>(docs: seq<T>, d: T, key: T -> nat, bound: nat)
    requires KeyedBelow(docs, key, bound) && key(d) == bound
    ensures KeyedBelow(docs + [d], key, bound + 1)
  {
  }

  /** Handing out a key elsewhere keeps a collection's keys below the bound. */
  lemma RaiseBound<T>(docs: seq<T>, key: T -> nat, bound: nat)
    requires KeyedBelow(docs, key, bound)
    ensures KeyedBelow(docs, key, bound + 1)
  {
  }

  /** Deleting a document keeps the remaining keys distinct and below the bound. */
  lemma DeleteOneKeepsKeys<T>(docs: seq<T>, matches: T -> bool, key: T -> nat, bound: nat)
    requires KeyedBelow(docs, key, bound)
    ensures KeyedBelow(DeleteOne(docs, matches), key, bound)
  {
    match FindFirst(docs, matches)
    case None =>
    case Some(k) =>
      RemoveAtKeepsKeys(docs, k, key, bound);
  }

  /** Removing the document at position `k` keeps the keys of the others. */
  lemma RemoveAtKeepsKeys<T>(docs: seq<T>, k: nat, key: T -> nat, bound: nat)
    requires KeyedBelow(docs, key, bound) && k < |docs|
    ensures KeyedBelow(docs[..k] + docs[k + 1..], key, bound)
  {
    var r := docs[..k] + docs[k + 1..];
    RemoveAtShape(docs, k);
    forall i | 0 <= i < |r| ensures key(r[i]) < bound {
      assert r[i] == docs[Skip(i, k)];
    }
    forall i, j | 0 <= i < j < |r| ensures key(r[i]) != key(r[j]) {
      assert r[i] == docs[Skip(i, k)] && r[j] == docs[Skip(j, k)];
      assert Skip(i, k) < Skip(j, k) < |docs|;
    }
  }

  /** Where the document now at position `i` stood before the one at `k` was removed. */
  function Skip(i: nat, k: nat): nat
  {
    if i < k then i else i + 1
  }

  /** An update that keeps a document's key keeps the collection's keys. */
  lemma UpdateOneKeepsKeys<T>(docs: seq<T>, matches: T -> bool, update: T -> T, key: T -> nat, bound: nat)
    requires KeyedBelow(docs, key, bound)
    requires forall d :: key(update(d)) == key(d)
    ensures KeyedBelow(UpdateOne(docs, matches, update), key, bound)
  {
    var r := UpdateOne(docs, matches, update);
    assert forall i :: 0 <= i < |r| ==> key(r[i]) == key(docs[i]);
  }

  /** `update_one`: the first matching document replaced by its update,
      every other document as it was. */
  function UpdateOne<T>(docs: seq<T>, matches: T -> bool, update: T -> T): (r: seq<T>)
    ensures |r| == |docs|
    ensures FindFirst(docs, matches).None? ==> r == docs
    ensures FindFirst(docs, matches).Some? ==>
      var k := FindFirst(docs, matches).value;
      r[k] == update(docs[k]) && forall i :: 0 <= i < |docs| && i != k ==> r[i] == docs[i]
  {
    match FindFirst(docs, matches)
    case None => docs
    case Some(k) => docs[k := update(docs[k])]
  }
}
