/**
 * `System.Collections.Generic.Dictionary` as the library uses it: entries are
 * only ever added or overwritten, never removed, so enumeration follows
 * insertion order and an overwrite keeps the entry's place. A dictionary is a
 * sequence of key/value pairs in enumeration order.
 */
module Dictionaries {
  import opened Wrappers

  type Dict<K, V> = seq<(K, V)>

  predicate HasKey<K(==), V>(d: Dict<K, V>, k: K) {
    exists i :: 0 <= i < |d| && d[i].0 == k
  }

  predicate UniqueKeys<K(==), V>(d: Dict<K, V>) {
    forall i, j :: 0 <= i < j < |d| ==> d[i].0 != d[j].0
  }

  /** `TryGetValue`. */
  function Lookup<K(==), V>(d: Dict<K, V>, k: K): (r: Option<V>)
    ensures r.None? <==> !HasKey(d, k)
    ensures r.Some? ==> exists i :: 0 <= i < |d| && d[i] == (k, r.value)
  {
    if d == [] then None
    else if d[0].0 == k then Some(d[0].1)
    else
      var r := Lookup(d[1..], k);
      assert r.Some? ==> exists i :: 0 <= i < |d[1..]| && d[1..][i] == (k, r.value);
      r
  }

  /** Entry `i` has key `k` and no entry before it does. */
  predicate FirstWithKey<K(==), V>(d: Dict<K, V>, i: int, k: K) {
    && 0 <= i < |d|
    && d[i].0 == k
    && forall j :: 0 <= j < i ==> d[j].0 != k
  }

  /** The indexer's setter `d[k] = v`: overwrite in place, or append. */
  function Put<K(==), V>(d: Dict<K, V>, k: K, v: V): (r: Dict<K, V>)
    ensures !HasKey(d, k) ==> r == d + [(k, v)]
    ensures HasKey(d, k) ==> |r| == |d|
    ensures HasKey(d, k) ==> exists i :: FirstWithKey(d, i, k) && r == d[i := (k, v)]
  {
    if d == [] then [(k, v)]
    else if d[0].0 == k then
      assert FirstWithKey(d, 0, k) && [(k, v)] + d[1..] == d[0 := (k, v)];
      [(k, v)] + d[1..]
    else
      assert HasKey(d, k) ==> HasKey(d[1..], k);
      var t := Put(d[1..], k, v);
      assert forall i :: FirstWithKey(d[1..], i, k) && t == d[1..][i := (k, v)] ==>
        FirstWithKey(d, i + 1, k) && [d[0]] + t == d[i + 1 := (k, v)];
      [d[0]] + t
  }

  /** Entry `i` holds `v` and no entry before it does. */
  predicate FirstHolding<K, V(==)>(d: Dict<K, V>, i: int, v: V) {
    && 0 <= i < |d|
    && d[i].1 == v
    && forall j :: 0 <= j < i ==> d[j].1 != v
  }

  /** `d.FirstOrDefault(x => x.Value == v).Key`: the first key mapped to `v`, or `null`. */
  function FirstKeyWithValue<K(==), V(==)>(d: Dict<K, V>, v: V): (r: Option<K>)
    ensures r.Some? ==> exists i :: FirstHolding(d, i, v) && d[i].0 == r.value
    ensures r.Some? ==> Lookup(d, r.value) == Some(v) || !UniqueKeys(d)
    ensures r.None? <==> forall i :: 0 <= i < |d| ==> d[i].1 != v
  {
    if d == [] then None
    else if d[0].1 == v then
      assert FirstHolding(d, 0, v);
      Some(d[0].0)
    else
      assert forall i :: FirstHolding(d[1..], i, v) ==> FirstHolding(d, i + 1, v);
      FirstKeyWithValue(d[1..], v)
  }

  /** `ContainsValue`. */
  predicate ContainsValue<K(==), V(==)>(d: Dict<K, V>, v: V) {
    exists i :: 0 <= i < |d| && d[i].1 == v
  }

  lemma {:induction false} PutKeys<K, V>(d: Dict<K, V>, k: K, v: V, k': K)
    ensures HasKey(Put(d, k, v), k') <==> k' == k || HasKey(d, k')
  {
    var r := Put(d, k, v);
    if d == [] {
      assert r[0].0 == k;
    } else if d[0].0 == k {
      assert r[0].0 == k;
      assert forall i :: 0 < i < |d| ==> r[i] == d[i];
    } else {
      PutKeys(d[1..], k, v, k');
      var tail := Put(d[1..], k, v);
      assert r == [d[0]] + tail;
      assert HasKey(d[1..], k') ==> HasKey(d, k') by {
        if HasKey(d[1..], k') {
          var i :| 0 <= i < |d[1..]| && d[1..][i].0 == k';
          assert d[i + 1].0 == k';
        }
      }
      assert HasKey(d, k') && d[0].0 != k' ==> HasKey(d[1..], k') by {
        if HasKey(d, k') && d[0].0 != k' {
          var i :| 0 <= i < |d| && d[i].0 == k';
          assert d[1..][i - 1].0 == k';
        }
      }
      assert HasKey(tail, k') ==> HasKey(r, k') by {
        if HasKey(tail, k') {
          var i :| 0 <= i < |tail| && tail[i].0 == k';
          assert r[i + 1].0 == k';
        }
      }
      assert HasKey(r, k') && d[0].0 != k' ==> HasKey(tail, k') by {
        if HasKey(r, k') && d[0].0 != k' {
          var i :| 0 <= i < |r| && r[i].0 == k';
          assert tail[i - 1].0 == k';
        }
      }
      assert d[0].0 == k' ==> HasKey(r, k') && HasKey(d, k') by {
        assert r[0] == d[0];
      }
    }
  }

  /** Overwriting never creates a second entry for a key. */
  lemma {:induction false} PutUnique<K, V>(d: Dict<K, V>, k: K, v: V)
    requires UniqueKeys(d)
    ensures UniqueKeys(Put(d, k, v))
  {
    if d != [] {
      PutUnique(d[1..], k, v);
      if d[0].0 != k {
        var r := Put(d, k, v);
        var tail := Put(d[1..], k, v);
        assert r == [d[0]] + tail;
        forall j | 0 < j < |r| ensures r[0].0 != r[j].0 {
          PutKeys(d[1..], k, v, d[0].0);
          assert tail[j - 1].0 == r[j].0;
          assert d[0].0 !in set i | 0 <= i < |d[1..]| :: d[1..][i].0 by {
            forall i | 0 <= i < |d[1..]| ensures d[1..][i].0 != d[0].0 {
              assert d[1..][i] == d[i + 1];
            }
          }
        }
      }
    }
  }

  /** After `d[k] = v`, `k` looks up `v` and every other key looks up what it did before. */
  lemma {:induction false} LookupPut<K, V>(d: Dict<K, V>, k: K, v: V, k': K)
    ensures Lookup(Put(d, k, v), k') == if k' == k then Some(v) else Lookup(d, k')
  {
    if d != [] && d[0].0 != k {
      LookupPut(d[1..], k, v, k');
    }
  }

  /** In a dictionary without duplicate keys, each entry's key looks up that entry's value. */
  lemma {:induction false} LookupAt<K, V>(d: Dict<K, V>, i: nat)
    requires UniqueKeys(d)
    requires i < |d|
    ensures Lookup(d, d[i].0) == Some(d[i].1)
  {
    if i > 0 {
      assert d[0].0 != d[i].0;
      assert UniqueKeys(d[1..]) by {
        forall a, b | 0 <= a < b < |d[1..]| ensures d[1..][a].0 != d[1..][b].0 {
          assert d[1..][a] == d[a + 1] && d[1..][b] == d[b + 1];
        }
      }
      LookupAt(d[1..], i - 1);
    }
  }

  /** The only entry holding `d[i].1` is the one `FirstOrDefault` finds. */
  lemma {:induction false} FirstKeyWithValueAt<K, V>(d: Dict<K, V>, i: nat)
    requires i < |d|
    requires forall j :: 0 <= j < |d| && j != i ==> d[j].1 != d[i].1
    ensures FirstKeyWithValue(d, d[i].1) == Some(d[i].0)
  {
    if i > 0 {
      assert d[0].1 != d[i].1;
      forall j | 0 <= j < |d[1..]| && j != i - 1 ensures d[1..][j].1 != d[1..][i - 1].1 {
        assert d[1..][j] == d[j + 1];
      }
      FirstKeyWithValueAt(d[1..], i - 1);
    }
  }
}
