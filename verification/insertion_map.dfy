/**
 A Python 3.7+ `dict` whose values are lists, modelled as an association list:
 entries are kept in insertion order and each key is expected to occur once.
 */
module InsertionMap {
  import opened Wrappers

  /** Entries `(key, list)` in the order the keys were first inserted. */
  type Dict<K, V> = seq<(K, seq<V>)>

  /** The keys, in iteration order (`d.keys()`). */
  function Keys<K, V>(m: Dict<K, V>): seq<K>
  {
    seq(|m|, i requires 0 <= i < |m| => m[i].0)
  }

  /** No element occurs twice. */
  predicate Distinct<T(==)>(s: seq<T>)
  {
    forall i, j :: 0 <= i < j < |s| ==> s[i] != s[j]
  }

  /** Position of the first entry with key `k`, if there is one. */
  function Find<K(==), V>(m: Dict<K, V>, k: K): (r: Option<nat>)
    ensures r.Some? ==> r.value < |m| && m[r.value].0 == k
    ensures r.Some? ==> forall i :: 0 <= i < r.value ==> m[i].0 != k
    ensures r.None? <==> k !in Keys(m)
  {
    if |m| == 0 then None
    else if m[0].0 == k then
      assert Keys(m)[0] == k;
      Some(0)
    else
      assert Keys(m) == [m[0].0] + Keys(m[1..]);
      match Find(m[1..], k)
      case None => None
      case Some(i) => Some(i + 1)
  }

  /** `d.get(k, [])`: the list stored under `k`, or the empty list. */
  function Get<K(==), V>(m: Dict<K, V>, k: K): seq<V>
  {
    match Find(m, k)
    case Some(i) => m[i].1
    case None => []
  }

  /** Total number of values stored, over all keys. */
  function Size<K, V>(m: Dict<K, V>): nat
  {
    if |m| == 0 then 0 else Size(m[..|m| - 1]) + |m[|m| - 1].1|
  }

  /**
   `d[k].append(v)` when `k` is already a key, `d[k] = [v]` otherwise: an existing
   key keeps its place, a new key goes last, and no other key's list changes.
   */
  function Append<K(==,!new), V>(m: Dict<K, V>, k: K, v: V): (r: Dict<K, V>)
    ensures k in Keys(m) ==> Keys(r) == Keys(m)
    ensures k !in Keys(m) ==> Keys(r) == Keys(m) + [k]
    ensures Distinct(Keys(m)) ==> Distinct(Keys(r))
    ensures forall k' :: k' != k ==> Get(r, k') == Get(m, k')
    ensures Size(r) == Size(m) + 1
  {
    match Find(m, k)
    case Some(i) =>
      var r := m[i := (k, m[i].1 + [v])];
      assert Keys(r) == Keys(m);
      forall k' | k' != k
        ensures Get(r, k') == Get(m, k')
      {
        FindSameKeys(m, r, k');
      }
      SizeUpdate(m, i, (k, m[i].1 + [v]));
      r
    case None =>
      var r := m + [(k, [v])];
      assert Keys(r) == Keys(m) + [k];
      assert r[..|r| - 1] == m;
      forall k' | k' != k
        ensures Get(r, k') == Get(m, k')
      {
        FindExtend(m, (k, [v]), k');
      }
      r
  }

  /**
   What `Append` does to the lists: the list under `k` gains `v` at its end,
   every entry keeps its list or has `v` appended, and a new key starts with `[v]`.
   */
  lemma AppendValues<K(!new), V>(m: Dict<K, V>, k: K, v: V)
    ensures Get(Append(m, k, v), k) == Get(m, k) + [v]
    ensures forall i :: 0 <= i < |m| ==>
              Append(m, k, v)[i].1 == m[i].1 || Append(m, k, v)[i].1 == m[i].1 + [v]
    ensures |Append(m, k, v)| == |m| + 1 ==> Append(m, k, v)[|m|] == (k, [v])
  {
    var r := Append(m, k, v);
    match Find(m, k)
    case Some(i) =>
      assert Keys(r) == Keys(m);
      FindSameKeys(m, r, k);
    case None =>
      forall j | 0 <= j < |m|
        ensures r[j].0 != k
      {
        assert r[j].0 == Keys(m)[j];
      }
      FindIsFirst(r, k, |m|);
  }

  /** `Find` returns exactly the first position holding `k`. */
  lemma FindIsFirst<K, V>(m: Dict<K, V>, k: K, i: nat)
    requires i < |m| && m[i].0 == k
    requires forall j :: 0 <= j < i ==> m[j].0 != k
    ensures Find(m, k) == Some(i)
  {
    assert Keys(m)[i] == k;
  }

  /** With distinct keys, looking up the key of entry `i` gives entry `i`'s list. */
  lemma GetAt<K, V>(m: Dict<K, V>, i: nat)
    requires Distinct(Keys(m)) && i < |m|
    ensures Get(m, m[i].0) == m[i].1
  {
    forall j | 0 <= j < i
      ensures m[j].0 != m[i].0
    {
      assert Keys(m)[j] != Keys(m)[i];
    }
    FindIsFirst(m, m[i].0, i);
  }

  /** Lookup depends only on the key sequence. */
  lemma FindSameKeys<K, V>(m: Dict<K, V>, m': Dict<K, V>, k: K)
    requires Keys(m) == Keys(m')
    ensures Find(m, k) == Find(m', k)
  {
    assert |m| == |Keys(m)| == |m'|;
    match Find(m, k)
    case None =>
    case Some(i) =>
      assert m'[i].0 == Keys(m')[i];
      forall j | 0 <= j < i
        ensures m'[j].0 != k
      {
        assert m'[j].0 == Keys(m')[j] == Keys(m)[j] == m[j].0;
      }
      FindIsFirst(m', k, i);
  }

  /** Adding an entry for another key does not change where `k` is found. */
  lemma FindExtend<K, V>(m: Dict<K, V>, e: (K, seq<V>), k: K)
    requires e.0 != k
    ensures Find(m + [e], k) == Find(m, k)
  {
    var r := m + [e];
    assert Keys(r) == Keys(m) + [e.0];
    match Find(m, k)
    case None =>
    case Some(i) =>
      FindIsFirst(r, k, i);
  }

  /** Replacing one entry changes the total by the difference of the two lists' lengths. */
  lemma {:induction false} SizeUpdate<K, V>(m: Dict<K, V>, i: nat, e: (K, seq<V>))
    requires i < |m|
    ensures Size(m[i := e]) == Size(m) - |m[i].1| + |e.1|
    decreases |m|
  {
    var r := m[i := e];
    var n := |m| - 1;
    if i == n {
      assert r[..n] == m[..n];
    } else {
      assert r[..n] == m[..n][i := e];
      SizeUpdate(m[..n], i, e);
    }
  }
}
