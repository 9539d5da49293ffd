/**
 * A document collection as the core sees it (services/qnaApi.ts): documents with a
 * key, appended by `addDoc`, removed one at a time by `deleteDoc`, read back in
 * query order by `getDocs`. The backing service is not modelled; whether a request
 * is rejected is a parameter of the call.
 */
module Store {

  /** A timestamp as documents carry it (`{_seconds, _nanoseconds}`). */
  datatype Timestamp = Timestamp(seconds: int, nanoseconds: int)

  /** A document: its key (`doc.id`) and its data (`doc.data()`). */
  datatype Doc<T> = Doc(key: string, data: T)

  /** No two documents share a key. */
  predicate UniqueKeys<T>(docs: seq<Doc<T>>) {
    forall i, j :: 0 <= i < j < |docs| ==> docs[i].key != docs[j].key
  }

  /** `doc(db, ..., key)` then `deleteDoc`: the document with that key goes, nothing else does. */
  function RemoveKey<T>(docs: seq<Doc<T>>, key: string): (r: seq<Doc<T>>)
    ensures |r| <= |docs|
    ensures forall i :: 0 <= i < |r| ==> r[i] in docs && r[i].key != key
    ensures forall i :: 0 <= i < |docs| && docs[i].key != key ==> docs[i] in r
  {
    if docs == [] then []
    else if docs[0].key == key then RemoveKey(docs[1..], key)
    else [docs[0]] + RemoveKey(docs[1..], key)
  }

  /** The longest key in the collection. */
  function MaxKeyLength<T>(docs: seq<Doc<T>>): (n: nat)
    ensures forall i :: 0 <= i < |docs| ==> |docs[i].key| <= n
  {
    if docs == [] then 0
    else
      var m := MaxKeyLength(docs[1..]);
      if |docs[0].key| > m then |docs[0].key| else m
  }

  /** `n` copies of `ch`. */
  function Repeat(ch: char, n: nat): (s: string)
    ensures |s| == n
  {
    if n == 0 then "" else [ch] + Repeat(ch, n - 1)
  }

  /** A key no document has: longer than every key in use. */
  function FreshKey<T>(docs: seq<Doc<T>>): (k: string)
    ensures forall i :: 0 <= i < |docs| ==> docs[i].key != k
  {
    Repeat('k', MaxKeyLength(docs) + 1)
  }

  /** Some document has the key. */
  predicate HasKey<T>(docs: seq<Doc<T>>, key: string) {
    exists i :: 0 <= i < |docs| && docs[i].key == key
  }

  lemma TailUnique<T>(docs: seq<Doc<T>>)
    requires docs != [] && UniqueKeys(docs)
    ensures UniqueKeys(docs[1..])
    ensures !HasKey(docs[1..], docs[0].key)
  {
    var tail := docs[1..];
    forall i, j | 0 <= i < j < |tail| ensures tail[i].key != tail[j].key {
      assert tail[i] == docs[i + 1] && tail[j] == docs[j + 1];
    }
    forall i | 0 <= i < |tail| ensures tail[i].key != docs[0].key {
      assert tail[i] == docs[i + 1];
    }
  }

  lemma HasKeyCons<T>(docs: seq<Doc<T>>, key: string)
    requires docs != []
    ensures HasKey(docs, key) <==> docs[0].key == key || HasKey(docs[1..], key)
  {
    if HasKey(docs[1..], key) {
      var i :| 0 <= i < |docs[1..]| && docs[1..][i].key == key;
      assert docs[i + 1].key == key;
    }
    if HasKey(docs, key) && docs[0].key != key {
      var i :| 0 <= i < |docs| && docs[i].key == key;
      assert docs[1..][i - 1].key == key;
    }
  }

  /** Removing a key from a collection with unique keys drops exactly one document when the key is in use. */
  lemma {:induction false} RemoveKeyCount<T>(docs: seq<Doc<T>>, key: string)
    requires UniqueKeys(docs)
    ensures |RemoveKey(docs, key)| == if HasKey(docs, key) then |docs| - 1 else |docs|
  {
    if docs != [] {
      TailUnique(docs);
      HasKeyCons(docs, key);
      RemoveKeyCount(docs[1..], key);
    }
  }

  /** Removing a document keeps the keys unique. */
  lemma {:induction false} RemoveKeyUnique<T>(docs: seq<Doc<T>>, key: string)
    requires UniqueKeys(docs)
    ensures UniqueKeys(RemoveKey(docs, key))
  {
    if docs != [] {
      var tail := docs[1..];
      TailUnique(docs);
      RemoveKeyUnique(tail, key);
      if docs[0].key != key {
        var r := RemoveKey(tail, key);
        forall i | 0 <= i < |r| ensures r[i].key != docs[0].key {
          var m :| 0 <= m < |tail| && tail[m] == r[i];
        }
        ConsUnique(docs[0], r);
      }
    }
  }

  lemma ConsUnique<T>(d: Doc<T>, r: seq<Doc<T>>)
    requires UniqueKeys(r) && forall i :: 0 <= i < |r| ==> r[i].key != d.key
    ensures UniqueKeys([d] + r)
  {
    forall i, j | 0 <= i < j < |[d] + r| ensures ([d] + r)[i].key != ([d] + r)[j].key {
      if i > 0 {
        assert ([d] + r)[i] == r[i - 1];
      }
    }
  }

  /**
   * One collection (`collection(db, ...)`). `calls` counts the write requests sent to the
   * service, failed ones included, so that a handler's contract can say whether it wrote.
   */
  class Collection<T(==)> {
    var docs: seq<Doc<T>>
    ghost var calls: nat

    ghost predicate Valid()
      reads this
    {
      UniqueKeys(docs)
    }

    constructor (initial: seq<Doc<T>>)
      requires UniqueKeys(initial)
      ensures Valid() && docs == initial && calls == 0
    {
      docs := initial;
      calls := 0;
    }

    /**
     * `getDocs(query(...))`: the documents in the order they were stored, or, when the
     * request is rejected (`fail`), nothing at all.
     */
    method Fetch(fail: bool) returns (ok: bool, res: seq<Doc<T>>)
      requires Valid()
      ensures ok == !fail
      ensures ok ==> res == docs && UniqueKeys(res)
      ensures !ok ==> res == []
    {
      if fail {
        return false, [];
      }
      ok, res := true, docs;
    }

    /** `addDoc`: on success the data is stored under a key no other document has. */
    method Add(data: T, fail: bool) returns (ok: bool, key: string)
      requires Valid()
      modifies this
      ensures Valid() && calls == old(calls) + 1 && ok == !fail
      ensures ok ==> (forall d :: d in old(docs) ==> d.key != key) && docs == old(docs) + [Doc(key, data)]
      ensures !ok ==> docs == old(docs)
    {
      calls := calls + 1;
      key := FreshKey(docs);
      if fail {
        ok := false;
      } else {
        docs := docs + [Doc(key, data)];
        ok := true;
      }
    }

    /**
     * `deleteDoc(doc(..., key))`: only that document is removed; documents that refer to it
     * stay. A rejected request (`fail`) removes nothing.
     */
    method Delete(key: string, fail: bool) returns (ok: bool)
      requires Valid()
      modifies this
      ensures Valid() && calls == old(calls) + 1 && ok == !fail
      ensures ok ==> docs == RemoveKey(old(docs), key)
      ensures ok ==> |docs| == if HasKey(old(docs), key) then |old(docs)| - 1 else |old(docs)|
      ensures !ok ==> docs == old(docs)
    {
      calls := calls + 1;
      if fail {
        return false;
      }
      RemoveKeyUnique(docs, key);
      RemoveKeyCount(docs, key);
      docs := RemoveKey(docs, key);
      ok := true;
    }
  }
}
