/** A Python dict seen as the sequence of its items in insertion order,
    shared by the modules that read or build dicts: its keys, its values,
    and the fact that a dict holds each key once. */
module Dicts {

  /** `d.keys()`, in order. */
  function Keys<K, V>(items: seq<(K, V)>): (ks: seq<K>)
    ensures |ks| == |items| && forall i :: 0 <= i < |items| ==> ks[i] == items[i].0
  {
    seq(|items|, i requires 0 <= i < |items| => items[i].0)
  }

  /** `[d[k] for k in d.keys()]`, in order. */
  function Values<K, V>(items: seq<(K, V)>): (vs: seq<V>)
    ensures |vs| == |items| && forall i :: 0 <= i < |items| ==> vs[i] == items[i].1
  {
    seq(|items|, i requires 0 <= i < |items| => items[i].1)
  }

  /** A dict has each key once. */
  predicate DistinctKeys<K(==), V>(items: seq<(K, V)>)
  {
    forall i, j :: 0 <= i < j < |items| ==> items[i].0 != items[j].0
  }
}
