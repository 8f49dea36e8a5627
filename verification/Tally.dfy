/**
 The two ways the lockdrop report adds up a per-key map: the sum of its numbers
 and the multiset union of its address lists.
 */
module Tally {

  /** The sum of all values of a map. */
  ghost function MapSum<K>(m: map<K, nat>): nat
  {
    if m == map[] then 0 else
    var k :| k in m;
    m[k] + MapSum(m - {k})
  }

  /** All addresses listed under any key, with multiplicity. */
  ghost function MapUnion<K, V>(m: map<K, seq<V>>): multiset<V>
  {
    if m == map[] then multiset{} else
    var k :| k in m;
    multiset(m[k]) + MapUnion(m - {k})
  }

  /** The sum does not depend on which key is taken out first. */
  lemma {:induction false} MapSumRemove<K>(m: map<K, nat>, k: K)
    requires k in m
    ensures MapSum(m) == m[k] + MapSum(m - {k})
    decreases |m|
  {
    var k' :| k' in m && MapSum(m) == m[k'] + MapSum(m - {k'});
    if k' != k {
      MapSumRemove(m - {k'}, k);
      MapSumRemove(m - {k}, k');
      assert m - {k'} - {k} == m - {k} - {k'};
    }
  }

  lemma {:induction false} MapUnionRemove<K, V>(m: map<K, seq<V>>, k: K)
    requires k in m
    ensures MapUnion(m) == multiset(m[k]) + MapUnion(m - {k})
    decreases |m|
  {
    var k' :| k' in m && MapUnion(m) == multiset(m[k']) + MapUnion(m - {k'});
    if k' != k {
      MapUnionRemove(m - {k'}, k);
      MapUnionRemove(m - {k}, k');
      assert m - {k'} - {k} == m - {k} - {k'};
    }
  }

  lemma MapSumUpdate<K>(m: map<K, nat>, k: K, v: nat)
    ensures MapSum(m[k := v]) + (if k in m then m[k] else 0) == MapSum(m) + v
  {
    var m' := m[k := v];
    MapSumRemove(m', k);
    assert m' - {k} == m - {k};
    if k in m {
      MapSumRemove(m, k);
    } else {
      assert m - {k} == m;
    }
  }

  /** Listing `extra` more addresses under one key adds exactly those to the union. */
  lemma MapUnionUpdate<K, V>(m: map<K, seq<V>>, k: K, v: seq<V>, extra: multiset<V>)
    requires multiset(v) == (if k in m then multiset(m[k]) else multiset{}) + extra
    ensures MapUnion(m[k := v]) == MapUnion(m) + extra
  {
    var m' := m[k := v];
    MapUnionRemove(m', k);
    assert m' - {k} == m - {k};
    if k in m {
      MapUnionRemove(m, k);
    } else {
      assert m - {k} == m;
    }
  }

  /** A map that differs at one key only is an update at that key. */
  lemma IsUpdate<K, V>(before: map<K, V>, after: map<K, V>, k: K, v: V)
    requires after.Keys == before.Keys + {k}
    requires after[k] == v
    requires forall x :: x in before && x != k ==> after[x] == before[x]
    ensures after == before[k := v]
  {
  }
}
