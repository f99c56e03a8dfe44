/**
 * A document collection as the routes see it: documents in natural
 * (insertion) order, each with its storage key `_id`.  `findOne` is the
 * first match in that order, `find` keeps every match in that order,
 * `save` of a fetched document rewrites the document with its key, and
 * `deleteOne` removes the first match.
 */
module Collection {
  import opened Wrappers

  /** The text of a document's storage key (`_id`). */
  type Id = string

  datatype Doc<T> = Doc(id: Id, rec: T)

  function Keys<T>(docs: seq<Doc<T>>): set<Id> {
    set i | 0 <= i < |docs| :: docs[i].id
  }

  /** Storage keys are unique within a collection. */
  ghost predicate UniqueKeys<T>(docs: seq<Doc<T>>) {
    forall i, j :: 0 <= i < j < |docs| ==> docs[i].id != docs[j].id
  }

  /** Index of the first element that satisfies `p`, as `findOne` picks it. */
  function FirstIndex<T>(s: seq<T>, p: T -> bool): (r: Option<nat>)
    ensures r.Some? ==> r.value < |s| && p(s[r.value])
    ensures r.Some? ==> forall j :: 0 <= j < r.value ==> !p(s[j])
    ensures r.None? <==> forall j :: 0 <= j < |s| ==> !p(s[j])
  {
    if |s| == 0 then None
    else if p(s[0]) then Some(0)
    else
      match FirstIndex(s[1..], p)
      case None => None
      case Some(k) => Some(k + 1)
  }

  function KeyIs<T>(id: Id): Doc<T> -> bool {
    (d: Doc<T>) => d.id == id
  }

  /** `findById`: the position of the document with key `id`, if any. */
  function Find<T>(docs: seq<Doc<T>>, id: Id): (r: Option<nat>)
    ensures r.Some? <==> id in Keys(docs)
    ensures r.Some? ==> r.value < |docs| && docs[r.value].id == id
  {
    FirstIndex(docs, KeyIs(id))
  }

  /** The collection after the document with key `id` is saved with contents `rec`. */
  function Put<T>(docs: seq<Doc<T>>, id: Id, rec: T): (r: seq<Doc<T>>)
    ensures |r| == |docs| && Keys(r) == Keys(docs)
    ensures forall i :: 0 <= i < |docs| && docs[i].id != id ==> r[i] == docs[i]
    ensures UniqueKeys(docs) ==> UniqueKeys(r)
    ensures UniqueKeys(docs) ==>
      forall i :: 0 <= i < |docs| && docs[i].id == id ==> r[i] == Doc(id, rec)
  {
    match Find(docs, id)
    case None => docs
    case Some(i) =>
      var r := docs[i := Doc(id, rec)];
      assert forall j :: 0 <= j < |r| ==> r[j].id == docs[j].id;
      r
  }

  /** The collection after `deleteOne` removed the first element satisfying `p`. */
  function RemoveFirst<T>(s: seq<T>, p: T -> bool): (r: seq<T>)
    ensures FirstIndex(s, p).None? ==> r == s
    ensures FirstIndex(s, p).Some? ==>
      var k := FirstIndex(s, p).value; r == s[..k] + s[k + 1..]
  {
    match FirstIndex(s, p)
    case None => s
    case Some(k) => s[..k] + s[k + 1..]
  }

  /** `find` with a filter: every element satisfying `p`, in collection order. */
  function Select<T>(s: seq<T>, p: T -> bool): (r: seq<T>)
    ensures |r| <= |s|
    ensures forall i :: 0 <= i < |r| ==> r[i] in s && p(r[i])
    ensures forall i :: 0 <= i < |s| && p(s[i]) ==> s[i] in r
  {
    if |s| == 0 then []
    else (if p(s[0]) then [s[0]] else []) + Select(s[1..], p)
  }

  /** How many elements satisfy `p`: an aggregation `$sum` of a 0/1 `$cond`. */
  function Count<T>(s: seq<T>, p: T -> bool): (n: nat)
    ensures n <= |s|
  {
    if |s| == 0 then 0 else (if p(s[0]) then 1 else 0) + Count(s[1..], p)
  }

  lemma {:induction false} CountIsSelectLength<T>(s: seq<T>, p: T -> bool)
    ensures Count(s, p) == |Select(s, p)|
  {
    if |s| > 0 {
      CountIsSelectLength(s[1..], p);
    }
  }

  lemma {:induction false} CountAppend<T>(s: seq<T>, t: seq<T>, p: T -> bool)
    ensures Count(s + t, p) == Count(s, p) + Count(t, p)
  {
    if |s| == 0 {
      assert s + t == t;
    } else {
      assert (s + t)[1..] == s[1..] + t;
      CountAppend(s[1..], t, p);
    }
  }

  lemma {:induction false} SelectAppend<T>(s: seq<T>, t: seq<T>, p: T -> bool)
    ensures Select(s + t, p) == Select(s, p) + Select(t, p)
  {
    if |s| == 0 {
      assert s + t == t;
    } else {
      assert (s + t)[1..] == s[1..] + t;
      SelectAppend(s[1..], t, p);
    }
  }

  /** Replacing one element changes a count by what the old and new element contribute. */
  lemma {:induction false} CountUpdate<T>(s: seq<T>, i: nat, x: T, p: T -> bool)
    requires i < |s|
    ensures Count(s[i := x], p) == Count(s, p) - (if p(s[i]) then 1 else 0) + (if p(x) then 1 else 0)
  {
    if i == 0 {
      assert s[i := x][1..] == s[1..];
    } else {
      assert s[i := x][1..] == s[1..][i - 1 := x];
      CountUpdate(s[1..], i - 1, x, p);
    }
  }

  /** Two disjoint conditions that both imply `q` count no more than `q` does. */
  lemma {:induction false} CountDisjointBound<T>(s: seq<T>, p1: T -> bool, p2: T -> bool, q: T -> bool)
    requires forall x :: p1(x) ==> q(x)
    requires forall x :: p2(x) ==> q(x)
    requires forall x :: !(p1(x) && p2(x))
    ensures Count(s, p1) + Count(s, p2) <= Count(s, q)
  {
    if |s| > 0 {
      CountDisjointBound(s[1..], p1, p2, q);
    }
  }

  /** Appending a document with a fresh key keeps keys unique. */
  lemma AppendFreshKey<T>(docs: seq<Doc<T>>, d: Doc<T>)
    requires UniqueKeys(docs) && d.id !in Keys(docs)
    ensures UniqueKeys(docs + [d]) && Keys(docs + [d]) == Keys(docs) + {d.id}
  {
    var r := docs + [d];
    forall i, j | 0 <= i < j < |r| ensures r[i].id != r[j].id {
      if j == |docs| {
        assert r[i].id in Keys(docs);
      }
    }
    forall k | k in Keys(docs) ensures k in Keys(r) {
      var i :| 0 <= i < |docs| && docs[i].id == k;
      assert r[i].id == k;
    }
    assert r[|docs|].id == d.id;
  }

  /** Removing one element keeps keys unique. */
  lemma RemoveKeepsUnique<T>(docs: seq<Doc<T>>, k: nat)
    requires UniqueKeys(docs) && k < |docs|
    ensures UniqueKeys(docs[..k] + docs[k + 1..])
  {
    var r := docs[..k] + docs[k + 1..];
    forall i, j | 0 <= i < j < |r| ensures r[i].id != r[j].id {
      var i' := if i < k then i else i + 1;
      var j' := if j < k then j else j + 1;
      assert r[i] == docs[i'] && r[j] == docs[j'];
    }
  }

  /** Saving a document's own contents again changes nothing. */
  lemma PutSame<T>(docs: seq<Doc<T>>, i: nat)
    requires UniqueKeys(docs) && i < |docs|
    ensures Put(docs, docs[i].id, docs[i].rec) == docs
  {
    var k := Find(docs, docs[i].id).value;
    assert k == i;
  }

  /** Two saves under the same key: only the second one's contents remain. */
  lemma PutPut<T>(docs: seq<Doc<T>>, id: Id, a: T, b: T)
    requires UniqueKeys(docs)
    ensures Put(Put(docs, id, a), id, b) == Put(docs, id, b)
  {
    if id in Keys(docs) {
      var k := Find(docs, id).value;
      var d1 := Put(docs, id, a);
      assert Find(d1, id) == Some(k);
    }
  }

  /**
   * Fetching a document, saving it with an involution applied, and doing so
   * a second time leaves the collection as it was.
   */
  lemma {:induction false} PutTwiceInvolution<T>(docs: seq<Doc<T>>, id: Id, f: T -> T)
    requires UniqueKeys(docs) && id in Keys(docs)
    requires forall x :: f(f(x)) == x
    ensures var d1 := Put(docs, id, f(docs[Find(docs, id).value].rec));
      Put(d1, id, f(d1[Find(d1, id).value].rec)) == docs
  {
    var i := Find(docs, id).value;
    var a := docs[i].rec;
    var d1 := Put(docs, id, f(a));
    assert Find(d1, id) == Some(i);
    assert d1[i].rec == f(a);
    PutPut(docs, id, f(a), f(f(a)));
    PutSame(docs, i);
  }

  /** `deleteOne({ _id })`: the key is gone, every other key stays, and keys remain unique. */
  lemma RemoveByKey<T>(docs: seq<Doc<T>>, id: Id)
    requires UniqueKeys(docs)
    ensures var r := RemoveFirst(docs, KeyIs(id));
      UniqueKeys(r) && Keys(r) == Keys(docs) - {id}
  {
    match Find(docs, id)
    case None =>
    case Some(k) =>
      var r := docs[..k] + docs[k + 1..];
      RemoveKeepsUnique(docs, k);
      forall x | x in Keys(docs) - {id} ensures x in Keys(r) {
        var j :| 0 <= j < |docs| && docs[j].id == x;
        assert r[if j < k then j else j - 1] == docs[j];
      }
      forall x | x in Keys(r) ensures x in Keys(docs) - {id} {
        var j :| 0 <= j < |r| && r[j].id == x;
        assert r[j] == docs[if j < k then j else j + 1];
      }
  }
}
