/** Python dicts, which remember the order in which keys were first inserted:
    the keys in that order together with the mapping. */
module Dicts {

  datatype Dict<K(!new), V> = Dict(keys: seq<K>, entries: map<K, V>) {

    /** Each key listed once, and exactly the mapped keys listed. */
    ghost predicate Valid()
    {
      && (forall i, j :: 0 <= i < j < |keys| ==> keys[i] != keys[j])
      && (forall k :: k in entries <==> k in keys)
    }
  }

  function Empty<K(!new), V>(): (d: Dict<K, V>)
    ensures d.Valid() && d.keys == [] && d.entries == map[]
  {
    Dict([], map[])
  }

  /** `d[k] = v`: a new key goes to the end, an existing key keeps its place. */
  function Put<K(!new), V>(d: Dict<K, V>, k: K, v: V): (r: Dict<K, V>)
    requires d.Valid()
    ensures r.Valid() && r.entries == d.entries[k := v]
    ensures k in d.entries ==> r.keys == d.keys
    ensures k !in d.entries ==> r.keys == d.keys + [k]
  {
    if k in d.entries then Dict(d.keys, d.entries[k := v])
    else
      Dict(d.keys + [k], d.entries[k := v])
  }

  /** `list(d.values())`: the values in key order. */
  function ValuesInOrder<K(!new), V>(d: Dict<K, V>): (r: seq<V>)
    requires d.Valid()
    ensures |r| == |d.keys| && forall i :: 0 <= i < |r| ==> r[i] == d.entries[d.keys[i]]
  {
    seq(|d.keys|, i requires 0 <= i < |d.keys| => d.entries[d.keys[i]])
  }

  /** `keys[p]` carries the least value, and every key listed before it a
      strictly greater one: the key Python's `min(d, key=d.get)` returns. */
  ghost predicate IsFirstMinimum<K>(keys: seq<K>, m: map<K, int>, p: int)
    requires forall k :: k in keys ==> k in m
  {
    && 0 <= p < |keys|
    && (forall i :: 0 <= i < |keys| ==> m[keys[p]] <= m[keys[i]])
    && (forall i :: 0 <= i < p ==> m[keys[i]] > m[keys[p]])
  }

  /** The position `min` settles on: it keeps the earlier key on a tie. */
  function MinIndex<K>(keys: seq<K>, m: map<K, int>): (p: nat)
    requires keys != [] && forall k :: k in keys ==> k in m
    ensures IsFirstMinimum(keys, m, p)
  {
    if |keys| == 1 then 0
    else
      var q := MinIndex(keys[1..], m);
      if m[keys[0]] <= m[keys[1..][q]] then 0 else q + 1
  }

  /** `k` is listed at a position that `IsFirstMinimum` describes. */
  ghost predicate IsFirstLeastKey<K(!new)>(d: Dict<K, int>, k: K)
    requires d.Valid()
  {
    exists p :: 0 <= p < |d.keys| && d.keys[p] == k && IsFirstMinimum(d.keys, d.entries, p)
  }

  /** At most one position satisfies `IsFirstMinimum`. */
  lemma FirstMinimumUnique<K>(keys: seq<K>, m: map<K, int>, p: int, q: int)
    requires forall k :: k in keys ==> k in m
    requires IsFirstMinimum(keys, m, p) && IsFirstMinimum(keys, m, q)
    ensures p == q
  {
    assert m[keys[p]] == m[keys[q]];
  }

  /** `min(d, key=d.get)` on a non-empty dict of ints: the least-valued key
      listed first, and no other key is that one. */
  function MinKey<K(!new)>(d: Dict<K, int>): (k: K)
    requires d.Valid() && d.keys != []
    ensures k in d.entries
    ensures forall j :: j in d.entries ==> d.entries[k] <= d.entries[j]
    ensures IsFirstLeastKey(d, k)
    ensures forall j :: IsFirstLeastKey(d, j) ==> j == k
  {
    var p := MinIndex(d.keys, d.entries);
    assert forall j :: j in d.entries ==> exists i :: 0 <= i < |d.keys| && d.keys[i] == j;
    assert forall j :: IsFirstLeastKey(d, j) ==> j == d.keys[p] by {
      forall j | IsFirstLeastKey(d, j) ensures j == d.keys[p] {
        var q :| 0 <= q < |d.keys| && d.keys[q] == j && IsFirstMinimum(d.keys, d.entries, q);
        FirstMinimumUnique(d.keys, d.entries, p, q);
      }
    }
    d.keys[p]
  }
}
