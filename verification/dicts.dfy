/** Python dictionaries as insertion-ordered key/value sequences.

    A Python `dict` remembers the order in which keys were first inserted and
    never holds a key twice.  `Get` is `d.get(k)` (first match), `Put` is
    `d[k] = v` (overwrite in place, or append a new key at the end). */
module Dicts {
  import opened Wrappers

  type Dict<K, V> = seq<(K, V)>

  function Keys<K, V>(d: Dict<K, V>): (ks: seq<K>)
    ensures |ks| == |d|
    ensures forall i :: 0 <= i < |d| ==> ks[i] == d[i].0
  {
    if d == [] then [] else [d[0].0] + Keys(d[1..])
  }

  predicate UniqueKeys<K(==), V>(d: Dict<K, V>)
  {
    forall i, j :: 0 <= i < j < |d| ==> d[i].0 != d[j].0
  }

  function Get<K(==), V>(d: Dict<K, V>, k: K): (r: Option<V>)
    ensures r.None? <==> k !in Keys(d)
    ensures r.Some? ==> exists i :: 0 <= i < |d| && d[i] == (k, r.value)
  {
    if d == [] then None
    else if d[0].0 == k then Some(d[0].1)
    else Get(d[1..], k)
  }

  function Put<K(==), V>(d: Dict<K, V>, k: K, v: V): (r: Dict<K, V>)
    ensures k in Keys(d) ==> Keys(r) == Keys(d)
    ensures k !in Keys(d) ==> Keys(r) == Keys(d) + [k]
  {
    if d == [] then [(k, v)]
    else if d[0].0 == k then [(k, v)] + d[1..]
    else [d[0]] + Put(d[1..], k, v)
  }

  lemma {:induction false} GetPut<K, V>(d: Dict<K, V>, k: K, v: V, k': K)
    ensures Get(Put(d, k, v), k') == if k' == k then Some(v) else Get(d, k')
  {
    if d != [] && d[0].0 != k {
      GetPut(d[1..], k, v, k');
    }
  }

  lemma {:induction false} GetUnique<K, V>(d: Dict<K, V>, i: nat)
    requires UniqueKeys(d) && i < |d|
    ensures Get(d, d[i].0) == Some(d[i].1)
  {
    if i > 0 {
      UniqueTail(d);
      GetUnique(d[1..], i - 1);
    }
  }

  lemma UniqueTail<K, V>(d: Dict<K, V>)
    requires d != [] && UniqueKeys(d)
    ensures UniqueKeys(d[1..])
  {
    forall a, b | 0 <= a < b < |d[1..]| ensures d[1..][a].0 != d[1..][b].0 {
      assert d[1..][a] == d[a + 1] && d[1..][b] == d[b + 1];
    }
  }

  /** Assigning to a key a dict already holds overwrites its entry where it
      stands. */
  lemma {:induction false} PutAt<K, V>(d: Dict<K, V>, p: nat, v: V)
    requires UniqueKeys(d) && p < |d|
    ensures Put(d, d[p].0, v) == d[p := (d[p].0, v)]
  {
    var k := d[p].0;
    if p > 0 {
      assert d[0].0 != k;
      UniqueTail(d);
      assert d[1..][p - 1] == d[p];
      PutAt(d[1..], p - 1, v);
      assert Put(d, k, v) == [d[0]] + Put(d[1..], k, v);
      assert d[p := (k, v)] == [d[0]] + d[1..][p - 1 := (k, v)];
    } else {
      assert Put(d, k, v) == [(k, v)] + d[1..];
    }
  }
}

