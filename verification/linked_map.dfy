/** Kotlin's `mutableMapOf()` is a LinkedHashMap: iteration follows insertion
    order, and writing to a key that is already present replaces its value
    without moving it. The model is a sequence of (key, value) entries whose
    keys are pairwise distinct. */
module LinkedMap {
  import opened Wrappers

  /** The keys, in iteration order. */
  function Keys<K, V>(m: seq<(K, V)>): (ks: seq<K>)
    ensures |ks| == |m|
    ensures forall i :: 0 <= i < |m| ==> ks[i] == m[i].0
  {
    seq(|m|, i requires 0 <= i < |m| => m[i].0)
  }

  /** The values, in iteration order. */
  function Values<K, V>(m: seq<(K, V)>): (vs: seq<V>)
    ensures |vs| == |m|
    ensures forall i :: 0 <= i < |m| ==> vs[i] == m[i].1
  {
    seq(|m|, i requires 0 <= i < |m| => m[i].1)
  }

  /** The representation invariant of a map: no key occurs twice. */
  ghost predicate DistinctKeys<K, V>(m: seq<(K, V)>) {
    forall i, j :: 0 <= i < j < |m| ==> m[i].0 != m[j].0
  }

  /** `map[k]`: the value stored under `k`, or None when `k` is absent. */
  function Get<K(==), V>(m: seq<(K, V)>, k: K): (r: Option<V>)
    ensures r.None? <==> k !in Keys(m)
    ensures r.Some? ==> exists i :: 0 <= i < |m| && m[i] == (k, r.value)
  {
    if |m| == 0 then None
    else if m[0].0 == k then Some(m[0].1)
    else
      assert Keys(m) == [m[0].0] + Keys(m[1..]);
      Get(m[1..], k)
  }

  /** `map[k] = v`: a present key keeps its position and gets the new value,
      an absent key is appended at the end. */
  function Put<K(==), V>(m: seq<(K, V)>, k: K, v: V): (r: seq<(K, V)>)
    requires DistinctKeys(m)
    ensures DistinctKeys(r)
    ensures k !in Keys(m) ==> r == m + [(k, v)]
    ensures k in Keys(m) ==> |r| == |m| && Keys(r) == Keys(m)
    ensures k in Keys(m) ==>
      forall i :: 0 <= i < |m| ==> r[i] == (if m[i].0 == k then (k, v) else m[i])
  {
    if |m| == 0 then [(k, v)]
    else if m[0].0 == k then [(k, v)] + m[1..]
    else
      assert Keys(m) == [m[0].0] + Keys(m[1..]);
      var rest := Put(m[1..], k, v);
      assert m[0].0 !in Keys(rest);
      ConsDistinct(m[0], rest);
      [m[0]] + rest
  }

  /** An entry whose key is new can go in front. */
  lemma ConsDistinct<K, V>(e: (K, V), m: seq<(K, V)>)
    requires DistinctKeys(m) && e.0 !in Keys(m)
    ensures DistinctKeys([e] + m)
  {
    forall j | 0 <= j < |m|
      ensures m[j].0 != e.0
    {
      assert Keys(m)[j] == m[j].0;
    }
  }

  /** Every entry of a map is what a lookup of its key returns. */
  lemma {:induction false} GetAt<K, V>(m: seq<(K, V)>, i: int)
    requires DistinctKeys(m)
    requires 0 <= i < |m|
    ensures Get(m, m[i].0) == Some(m[i].1)
  {
    if i > 0 {
      assert m[0].0 != m[i].0;
      assert m[1..][i - 1] == m[i];
      GetAt(m[1..], i - 1);
    }
  }

  /** A lookup of the key just written yields the value written; a lookup of
      any other key is not affected by the write. */
  lemma {:induction false} GetPut<K, V>(m: seq<(K, V)>, k: K, v: V)
    requires DistinctKeys(m)
    ensures forall k' :: Get(Put(m, k, v), k') == if k' == k then Some(v) else Get(m, k')
  {
    if |m| > 0 && m[0].0 != k {
      assert Put(m, k, v) == [m[0]] + Put(m[1..], k, v);
      GetPut(m[1..], k, v);
    }
  }
}
