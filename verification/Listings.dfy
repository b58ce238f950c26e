/** Writing a map as a list, in whatever order it is iterated, and reading it back. */
module Listings {

  /** The list holds each entry of the map exactly once. */
  ghost predicate Lists<V, K, W>(es: seq<V>, key: V -> K, val: V -> W, m: map<K, W>)
    decreases |es|
  {
    if es == [] then m == map[]
    else
      && key(es[0]) in m && m[key(es[0])] == val(es[0])
      && Lists(es[1..], key, val, m - {key(es[0])})
  }

  /** Collects the entries in an arbitrary order. */
  method Collect<V, K(==), W>(m: map<K, W>, make: (K, W) -> V, ghost key: V -> K, ghost val: V -> W)
    returns (es: seq<V>)
    requires forall k :: k in m ==> key(make(k, m[k])) == k && val(make(k, m[k])) == m[k]
    ensures Lists(es, key, val, m)
  {
    es := [];
    var left := m.Keys;
    ghost var done: map<K, W> := map[];
    while left != {}
      invariant left <= m.Keys
      invariant done == m - left
      invariant Lists(es, key, val, done)
      decreases |left|
    {
      var k :| k in left;
      var more := [make(k, m[k])] + es;
      ghost var next := done[k := m[k]];
      assert more[1..] == es && next - {k} == done;
      es, left, done := more, left - {k}, next;
    }
    assert m - {} == m;
  }

  lemma {:induction false} ListsSize<V, K, W>(es: seq<V>, key: V -> K, val: V -> W, m: map<K, W>)
    requires Lists(es, key, val, m)
    ensures |es| == |m|
    decreases |es|
  {
    if es == [] {
    } else {
      var k := key(es[0]);
      ListsSize(es[1..], key, val, m - {k});
      assert m.Keys == (m - {k}).Keys + {k};
    }
  }

  /** Reads a list back; the first of equal keys wins. */
  function FromList<V, K, W>(es: seq<V>, key: V -> K, val: V -> W): (m: map<K, W>)
    decreases |es|
  {
    if es == [] then map[] else FromList(es[1..], key, val)[key(es[0]) := val(es[0])]
  }

  lemma {:induction false} FromListing<V, K, W>(es: seq<V>, key: V -> K, val: V -> W, m: map<K, W>)
    requires Lists(es, key, val, m)
    ensures FromList(es, key, val) == m
    decreases |es|
  {
    if es == [] {
    } else {
      FromListing(es[1..], key, val, m - {key(es[0])});
      assert m == (m - {key(es[0])})[key(es[0]) := val(es[0])];
    }
  }
}
