/** Python's insertion-ordered `dict`, as a sequence of key/value pairs. */
module PyDict {
  import opened Wrappers

  /** Entries in iteration (insertion) order. */
  type Dict<K, V> = seq<(K, V)>

  function Keys<K, V>(d: Dict<K, V>): (ks: seq<K>)
    ensures |ks| == |d|
    ensures forall i | 0 <= i < |d| :: ks[i] == d[i].0
  {
    seq(|d|, i requires 0 <= i < |d| => d[i].0)
  }

  predicate DistinctKeys<K(==), V>(d: Dict<K, V>) {
    forall i, j | 0 <= i < j < |d| :: d[i].0 != d[j].0
  }

  /** Position of the first entry with key `k`, searching from `from`. */
  function IndexFrom<K(==), V>(d: Dict<K, V>, k: K, from: nat): (r: Option<nat>)
    requires from <= |d|
    ensures r.Some? ==> from <= r.value < |d| && d[r.value].0 == k
    ensures r.Some? ==> forall i | from <= i < r.value :: d[i].0 != k
    ensures r.None? ==> forall i | from <= i < |d| :: d[i].0 != k
    decreases |d| - from
  {
    if from == |d| then None
    else if d[from].0 == k then Some(from)
    else IndexFrom(d, k, from + 1)
  }

  function IndexOf<K(==), V>(d: Dict<K, V>, k: K): (r: Option<nat>)
    ensures r.Some? ==> r.value < |d| && d[r.value].0 == k
    ensures r.Some? ==> forall i | 0 <= i < r.value :: d[i].0 != k
    ensures r.None? ==> forall i | 0 <= i < |d| :: d[i].0 != k
  {
    IndexFrom(d, k, 0)
  }

  /** Python's `d.get(k)`. */
  function Get<K(==), V>(d: Dict<K, V>, k: K): (r: Option<V>)
    ensures r.Some? <==> k in Keys(d)
  {
    match IndexOf(d, k)
    case Some(i) => Some(d[i].1)
    case None => None
  }

  lemma IndexOfFirst<K, V>(d: Dict<K, V>, k: K, i: nat)
    requires i < |d| && d[i].0 == k
    requires forall j | 0 <= j < i :: d[j].0 != k
    ensures IndexOf(d, k) == Some(i)
  {
  }

  lemma IndexOfAbsent<K, V>(d: Dict<K, V>, k: K)
    requires forall j | 0 <= j < |d| :: d[j].0 != k
    ensures IndexOf(d, k) == None
  {
  }

  /** Two dicts whose keys sit at the same positions find every other key alike. */
  lemma IndexOfOther<K, V>(d: Dict<K, V>, r: Dict<K, V>, k: K, k': K)
    requires k' != k && |d| <= |r|
    requires forall j | 0 <= j < |d| :: d[j].0 == r[j].0 || (d[j].0 != k' && r[j].0 != k')
    requires forall j | |d| <= j < |r| :: r[j].0 == k
    ensures IndexOf(r, k') == IndexOf(d, k')
  {
    match IndexOf(d, k')
    case Some(x) => IndexOfFirst(r, k', x);
    case None => IndexOfAbsent(r, k');
  }

  /**
   * Python's `d[k] = v`: an existing key keeps its position and gets the new
   * value; a new key is appended at the end.
   */
  function Put<K(==,!new), V>(d: Dict<K, V>, k: K, v: V): (r: Dict<K, V>)
    ensures Get(r, k) == Some(v)
    ensures forall k' | k' != k :: Get(r, k') == Get(d, k')
  {
    match IndexOf(d, k)
    case Some(i) =>
      var r := d[i := (k, v)];
      IndexOfFirst(r, k, i);
      forall k' | k' != k ensures IndexOf(r, k') == IndexOf(d, k') {
        IndexOfOther(d, r, k, k');
      }
      r
    case None =>
      var r := d + [(k, v)];
      IndexOfFirst(r, k, |d|);
      forall k' | k' != k ensures IndexOf(r, k') == IndexOf(d, k') {
        IndexOfOther(d, r, k, k');
      }
      r
  }

  /** Storing under an existing key keeps the key order; a new key goes last. */
  lemma PutKeys<K(!new), V>(d: Dict<K, V>, k: K, v: V)
    ensures k in Keys(d) ==> Keys(Put(d, k, v)) == Keys(d)
    ensures k !in Keys(d) ==> Keys(Put(d, k, v)) == Keys(d) + [k]
  {
  }

  /** Storing never introduces a repeated key. */
  lemma PutDistinct<K(!new), V>(d: Dict<K, V>, k: K, v: V)
    ensures DistinctKeys(d) ==> DistinctKeys(Put(d, k, v))
  {
  }

  /** With distinct keys, looking up an entry's key finds that entry. */
  lemma GetAt<K, V>(d: Dict<K, V>, i: nat)
    requires DistinctKeys(d) && i < |d|
    ensures Get(d, d[i].0) == Some(d[i].1)
  {
    IndexOfFirst(d, d[i].0, i);
  }

  lemma DistinctKeysTail<K, V>(d: Dict<K, V>)
    requires DistinctKeys(d) && |d| > 0
    ensures DistinctKeys(d[1..])
  {
    forall i, j | 0 <= i < j < |d[1..]| ensures d[1..][i].0 != d[1..][j].0 {
      assert d[1..][i] == d[i + 1] && d[1..][j] == d[j + 1];
    }
  }
}
