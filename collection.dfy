/** A document collection as the document store keeps it: a sequence in
    natural (insertion) order. `findOne` answers the first match in that order. */
module Collection {
  import opened Common

  /** `findOne(filter)`: the index of the first document that matches, if any. */
  function FindOne<T>(docs: seq<T>, q: T -> bool): (r: Option<nat>)
    ensures r.Some? ==> r.value < |docs| && q(docs[r.value])
                        && forall j :: 0 <= j < r.value ==> !q(docs[j])
    ensures r.None? <==> forall j :: 0 <= j < |docs| ==> !q(docs[j])
  {
    if docs == [] then None
    else if q(docs[0]) then Some(0)
    else
      var r := FindOne(docs[1..], q);
      if r.Some? then Some(r.value + 1) else None
  }

  /** The collection without the document at index `i`; the others keep their order. */
  function RemoveAt<T>(docs: seq<T>, i: nat): (r: seq<T>)
    requires i < |docs|
    ensures |r| == |docs| - 1
    ensures forall j :: 0 <= j < i ==> r[j] == docs[j]
    ensures forall j :: i <= j < |r| ==> r[j] == docs[j + 1]
    ensures multiset(r) + multiset{docs[i]} == multiset(docs)
  {
    assert docs == docs[..i] + [docs[i]] + docs[i + 1..];
    docs[..i] + docs[i + 1..]
  }

  /** No two documents share a key. */
  ghost predicate UniqueBy<T>(docs: seq<T>, key: T -> Id) {
    forall i, j :: 0 <= i < j < |docs| ==> key(docs[i]) != key(docs[j])
  }

  lemma RemoveAtUnique<T>(docs: seq<T>, i: nat, key: T -> Id)
    requires i < |docs| && UniqueBy(docs, key)
    ensures UniqueBy(RemoveAt(docs, i), key)
    ensures forall j :: 0 <= j < |docs| - 1 ==> key(RemoveAt(docs, i)[j]) != key(docs[i])
  {
    var r := RemoveAt(docs, i);
    forall j | 0 <= j < |r|
      ensures key(r[j]) != key(docs[i])
    {
      if j < i { assert r[j] == docs[j]; } else { assert r[j] == docs[j + 1]; }
    }
  }

  lemma AppendUnique<T>(docs: seq<T>, d: T, key: T -> Id)
    requires UniqueBy(docs, key)
    requires forall j :: 0 <= j < |docs| ==> key(docs[j]) != key(d)
    ensures UniqueBy(docs + [d], key)
  {
  }
}
