/** A JavaScript Map as the server uses it: entries kept in insertion order, one
    entry per key, and `set` on an existing key overwriting the value where the
    entry already stands. */
module OrderedMaps {
  import opened Types

  type OMap<K, V> = seq<(K, V)>

  /** No key occurs twice. */
  predicate Distinct<K(==), V>(m: OMap<K, V>) {
    forall i, j :: 0 <= i < j < |m| ==> m[i].0 != m[j].0
  }

  /** The position of key `k`, or -1 when the map has no entry for it. */
  function KeyIndex<K(==), V>(m: OMap<K, V>, k: K): (i: int)
    ensures -1 <= i < |m|
    ensures 0 <= i ==> m[i].0 == k
    ensures i == -1 ==> forall j :: 0 <= j < |m| ==> m[j].0 != k
  {
    if m == [] then -1
    else if m[0].0 == k then 0
    else
      var j := KeyIndex(m[1..], k);
      if j == -1 then -1 else j + 1
  }

  predicate HasKey<K(==), V>(m: OMap<K, V>, k: K) {
    KeyIndex(m, k) >= 0
  }

  /** Map.prototype.get. */
  function Get<K(==), V>(m: OMap<K, V>, k: K): (r: Option<V>)
    ensures r.Some? <==> HasKey(m, k)
    ensures Distinct(m) ==> forall i :: 0 <= i < |m| && m[i].0 == k ==> r == Some(m[i].1)
  {
    var i := KeyIndex(m, k);
    if i < 0 then None else Some(m[i].1)
  }

  /** Map.prototype.set: a new key is appended at the end; an existing key keeps its
      place and only its value changes. */
  function Set<K(==,!new), V>(m: OMap<K, V>, k: K, v: V): (r: OMap<K, V>)
    requires Distinct(m)
    ensures Distinct(r)
    ensures !HasKey(m, k) ==> r == m + [(k, v)]
    ensures HasKey(m, k) ==> |r| == |m|
    ensures HasKey(m, k) ==> forall i :: 0 <= i < |m| ==> r[i] == if m[i].0 == k then (k, v) else m[i]
    ensures Get(r, k) == Some(v)
    ensures forall x :: HasKey(r, x) <==> x == k || HasKey(m, x)
  {
    var i := KeyIndex(m, k);
    var r := if i < 0 then m + [(k, v)] else m[i := (k, v)];
    assert r[if i < 0 then |m| else i] == (k, v);
    forall x
      ensures HasKey(r, x) <==> x == k || HasKey(m, x)
    {
      if HasKey(m, x) {
        assert r[KeyIndex(m, x)].0 == x;
      }
      if HasKey(r, x) && x != k {
        assert m[KeyIndex(r, x)].0 == x;
      }
    }
    r
  }

  /** The keys of a map, as a set. */
  function KeySet<K(==), V>(m: OMap<K, V>): set<K> {
    set i | 0 <= i < |m| :: m[i].0
  }

  /** Map.prototype.size counts keys: with distinct keys it is the number of entries. */
  lemma {:induction false} SizeIsKeyCount<K, V>(m: OMap<K, V>)
    requires Distinct(m)
    ensures |KeySet(m)| == |m|
  {
    if m != [] {
      var last := |m| - 1;
      SizeIsKeyCount(m[..last]);
      assert KeySet(m) == KeySet(m[..last]) + {m[last].0};
      assert m[last].0 !in KeySet(m[..last]);
    }
  }
}
