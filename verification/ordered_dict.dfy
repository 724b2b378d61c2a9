/** A Python `dict` as the program uses it: entries kept in insertion order, each key
    at most once, and assignment to a present key replacing its value in place. */
module OrderedDict {
  import opened Wrappers
  import Subsequences

  type Dict<K, V> = seq<(K, V)>

  /** The set of keys of `d`. */
  function Keys<K, V>(d: Dict<K, V>): set<K> {
    if |d| == 0 then {} else {d[0].0} + Keys(d[1..])
  }

  /** No key is stored twice. */
  predicate DistinctKeys<K(==), V>(d: Dict<K, V>) {
    |d| == 0 || (d[0].0 !in Keys(d[1..]) && DistinctKeys(d[1..]))
  }

  /** `d.get(k)` with `None` for a missing key. */
  function Get<K(==), V>(d: Dict<K, V>, k: K): (v: Option<V>)
    ensures v.Some? <==> k in Keys(d)
  {
    if |d| == 0 then None
    else if d[0].0 == k then Some(d[0].1)
    else Get(d[1..], k)
  }

  /** `d[k] = v`: a present key keeps its position and takes the new value, a new key is
      appended at the end. */
  function Put<K(==,!new), V>(d: Dict<K, V>, k: K, v: V): (r: Dict<K, V>)
    ensures Keys(r) == Keys(d) + {k}
    ensures DistinctKeys(d) ==> DistinctKeys(r)
    ensures Get(r, k) == Some(v)
    ensures forall k' :: k' != k ==> Get(r, k') == Get(d, k')
    ensures k in Keys(d) ==> |r| == |d| && forall i :: 0 <= i < |d| ==> r[i].0 == d[i].0
    ensures k !in Keys(d) ==> r == d + [(k, v)]
  {
    if |d| == 0 then [(k, v)]
    else if d[0].0 == k then [(k, v)] + d[1..]
    else [d[0]] + Put(d[1..], k, v)
  }

  /** Assignment never moves an existing entry's key. */
  lemma PutKeepsPositions<K(!new), V>(d: Dict<K, V>, k: K, v: V, i: int)
    requires 0 <= i < |d|
    ensures i < |Put(d, k, v)| && Put(d, k, v)[i].0 == d[i].0
  {
  }

  /** A key is in `Keys(d)` exactly when some entry carries it. */
  lemma {:induction false} KeysIndex<K, V>(d: Dict<K, V>, k: K)
    ensures k in Keys(d) <==> exists i :: 0 <= i < |d| && d[i].0 == k
  {
    if |d| > 0 {
      KeysIndex(d[1..], k);
      if k in Keys(d[1..]) {
        var i :| 0 <= i < |d[1..]| && d[1..][i].0 == k;
        assert d[i + 1].0 == k;
      }
      forall i | 0 < i < |d| && d[i].0 == k ensures k in Keys(d[1..]) {
        assert d[1..][i - 1].0 == k;
      }
    }
  }

  /** Keeping only some entries, in order, cannot introduce a duplicate key. */
  lemma {:induction false} SubsequenceKeepsDistinct<K, V>(a: Dict<K, V>, b: Dict<K, V>)
    requires Subsequences.IsSubsequence(a, b) && DistinctKeys(b)
    ensures DistinctKeys(a) && Keys(a) <= Keys(b)
    decreases |b|
  {
    if |a| > 0 {
      if a[0] == b[0] && Subsequences.IsSubsequence(a[1..], b[1..]) {
        SubsequenceKeepsDistinct(a[1..], b[1..]);
      } else {
        SubsequenceKeepsDistinct(a, b[1..]);
      }
    }
  }
}

/** Order-preserving selection of elements from a sequence. */
module Subsequences {

  /** `a` is obtained from `b` by deleting elements, keeping the order of the rest. */
  predicate IsSubsequence<T(==)>(a: seq<T>, b: seq<T>)
    decreases |b|
  {
    if |a| == 0 then true
    else if |b| == 0 then false
    else (a[0] == b[0] && IsSubsequence(a[1..], b[1..])) || IsSubsequence(a, b[1..])
  }
}
