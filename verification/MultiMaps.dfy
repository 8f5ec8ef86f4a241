/** A map whose buckets hold each value once (src/multimap.rs). */
module MultiMaps {
  import opened Basics

  type MultiMap<K, V> = map<K, seq<V>>

  function Get<K, V>(m: MultiMap<K, V>, k: K): (r: seq<V>) {
    if k in m then m[k] else []
  }

  /** Buckets are never empty and never hold a value twice. */
  ghost predicate Proper<K(!new), V>(m: MultiMap<K, V>) {
    forall k :: k in m ==> m[k] != [] && NoDup(m[k])
  }

  ghost function Inserted<K, V>(m: MultiMap<K, V>, k: K, v: V): (r: MultiMap<K, V>) {
    if v in Get(m, k) then m else m[k := Get(m, k) + [v]]
  }

  /** `swap_remove`: the last value takes the place of the removed one. */
  ghost function SwapRemoved<V>(s: seq<V>, i: nat): (r: seq<V>)
    requires i < |s|
  {
    if i == |s| - 1 then s[..i] else s[..i] + [s[|s| - 1]] + s[i + 1..|s| - 1]
  }

  method Insert<K(==), V(==)>(m: MultiMap<K, V>, k: K, v: V) returns (r: MultiMap<K, V>)
    ensures r == Inserted(m, k, v)
  {
    var bucket := if k in m then m[k] else [];
    for i := 0 to |bucket|
      invariant v !in bucket[..i]
    {
      if bucket[i] == v {
        return m;
      }
    }
    assert bucket[..|bucket|] == bucket;
    r := m[k := bucket + [v]];
  }

  /** Takes a value out of its bucket, and the bucket out of the map when that
      empties it. The order inside the bucket is not kept. */
  method Remove<K(==,!new), V(==,!new)>(m: MultiMap<K, V>, k: K, v: V) returns (r: MultiMap<K, V>, removed: Option<V>)
    requires Proper(m)
    ensures Proper(r)
    ensures forall j, w :: w in Get(r, j) <==> w in Get(m, j) && !(j == k && w == v)
    ensures forall j :: j != k ==> Get(r, j) == Get(m, j)
    ensures removed == if v in Get(m, k) then Some(v) else None
  {
    r, removed := m, None;
    if k in m {
      var bucket := m[k];
      var i := 0;
      while i < |bucket| && bucket[i] != v
        invariant 0 <= i <= |bucket|
        invariant v !in bucket[..i]
      {
        i := i + 1;
      }
      if i < |bucket| {
        var last := bucket[|bucket| - 1];
        var rest := if i == |bucket| - 1 then bucket[..i] else bucket[..i] + [last] + bucket[i + 1..|bucket| - 1];
        SwapRemovedContents(bucket, i);
        removed := Some(bucket[i]);
        r := if rest == [] then m - {k} else m[k := rest];
        assert rest == SwapRemoved(bucket, i);
        WithoutValue(m, k, v, rest, r);
      } else {
        assert bucket[..|bucket|] == bucket;
      }
    }
  }

  lemma WithoutValue<K(!new), V(!new)>(m: MultiMap<K, V>, k: K, v: V, rest: seq<V>, r: MultiMap<K, V>)
    requires Proper(m) && k in m && v in m[k] && NoDup(rest) && forall w :: w in rest <==> w in m[k] && w != v
    requires r == if rest == [] then m - {k} else m[k := rest]
    ensures Proper(r)
    ensures forall j, w :: w in Get(r, j) <==> w in Get(m, j) && !(j == k && w == v)
    ensures forall j :: j != k ==> Get(r, j) == Get(m, j)
  {
    assert Get(r, k) == rest;
    forall j | j != k ensures Get(r, j) == Get(m, j) {}
    forall j | j in r ensures r[j] != [] && NoDup(r[j]) {
      if j != k { assert r[j] == m[j]; }
    }
    forall j, w ensures w in Get(r, j) <==> w in Get(m, j) && !(j == k && w == v) {
      if j != k { assert Get(r, j) == Get(m, j); }
    }
  }

  lemma SwapRemovedContents<V(!new)>(s: seq<V>, i: nat)
    requires i < |s| && NoDup(s)
    ensures NoDup(SwapRemoved(s, i))
    ensures forall w :: w in SwapRemoved(s, i) <==> w in s && w != s[i]
  {
    var r, n := SwapRemoved(s, i), |s| - 1;
    assert forall j :: 0 <= j < n ==> r[j] == if j == i then s[n] else s[j];
    forall w | w in s && w != s[i] ensures w in r {
      var j :| 0 <= j < |s| && s[j] == w;
      assert r[if j == n then i else j] == w;
    }
    forall w | w in r ensures w in s && w != s[i] {
      var j :| 0 <= j < n && r[j] == w;
      assert s[if j == i then n else j] == w;
    }
  }

  lemma InsertedContents<K(!new), V(!new)>(m: MultiMap<K, V>, k: K, v: V)
    requires Proper(m)
    ensures Proper(Inserted(m, k, v))
    ensures forall j, w :: w in Get(Inserted(m, k, v), j) <==> w in Get(m, j) || (j == k && w == v)
  {
    var r := Inserted(m, k, v);
    assert NoDup(Get(m, k) + [v]) || v in Get(m, k);
    assert v in Get(r, k);
  }
}
