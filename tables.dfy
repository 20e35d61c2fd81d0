/** Document lookup and the fixed enumeration order of a collection's documents. */
module Tables {
  import opened Wrappers

  /** Reading a document: `Some` exactly when it exists. */
  function Get<K, V>(m: map<K, V>, k: K): (r: Option<V>)
    ensures r.Some? <==> k in m
    ensures r.Some? ==> r.value == m[k]
  {
    if k in m then Some(m[k]) else None
  }

  /** No key is listed twice. */
  ghost predicate Distinct<K>(s: seq<K>) {
    forall i, j :: 0 <= i < j < |s| ==> s[i] != s[j]
  }

  /** `order` lists every key of `keys` exactly once. */
  ghost predicate Enumerates<K>(order: seq<K>, keys: set<K>) {
    && Distinct(order)
    && (forall k :: k in keys ==> k in order)
    && (forall i :: 0 <= i < |order| ==> order[i] in keys)
  }

  /** The enumeration order after writing `k`: a new key goes last, an existing one keeps its place. */
  function Enrol<K(==)>(order: seq<K>, k: K): (r: seq<K>)
    ensures k in r && |order| <= |r| && r[..|order|] == order
    ensures forall i :: 0 <= i < |r| ==> r[i] in order || r[i] == k
    ensures Distinct(order) ==> Distinct(r)
  {
    if k in order then order else order + [k]
  }

  /** Enrolling the written key keeps the order an enumeration of the collection. */
  lemma EnrolEnumerates<K>(order: seq<K>, keys: set<K>, k: K)
    requires Enumerates(order, keys)
    ensures Enumerates(Enrol(order, k), keys + {k})
  {
    var r := Enrol(order, k);
    forall x | x in keys + {k}
      ensures x in r
    {
      if x != k {
        var i :| 0 <= i < |order| && order[i] == x;
        assert r[..|order|][i] == x;
      }
    }
  }
}
