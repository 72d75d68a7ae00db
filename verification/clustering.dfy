/**
 * app/clustering.py: the bookkeeping that `run_hdbscan` does once the
 * clusterer has labelled every vector. The clusterer itself is not
 * modelled; its label sequence is an input.
 */
module Clustering {
  import opened Wrappers
  import opened PySeq
  import opened PyStr
  import opened PyDict
  import opened Schemas

  /** HDBSCAN's label for a point in no cluster. */
  const Noise: int := -1
  /** Dimensionality reduction needs at least this many vectors. */
  const ReductionMinVectors: nat := 5
  /** Dimensionality reduction keeps at most this many components. */
  const ReductionMaxComponents: nat := 10

  /**
   * The number of PCA components requested for `n` vectors of dimension
   * `d`, or `None` when the vectors are clustered unreduced.
   */
  function ReductionTarget(n: nat, d: nat): (r: Option<nat>)
    ensures r.Some? <==> n >= ReductionMinVectors
    ensures r.Some? ==> r.value <= ReductionMaxComponents && r.value <= d
    ensures r.Some? ==> r.value == ReductionMaxComponents || r.value == d
  {
    if n >= ReductionMinVectors then Some(Min(ReductionMaxComponents, d)) else None
  }

  /**
   * For 5 to 9 vectors of dimension at least 10 the requested component
   * count exceeds the number of vectors, which PCA does not accept.
   */
  lemma ReductionExceedsSamples(n: nat, d: nat)
    requires ReductionMinVectors <= n < ReductionMaxComponents <= d
    ensures ReductionTarget(n, d) == Some(ReductionMaxComponents)
    ensures ReductionTarget(n, d).value > n
  {
  }

  /**
   * The component count PCA accepts: at most 10 and never more than the
   * number of vectors or their dimension.
   */
  function ReductionTargetCorrected(n: nat, d: nat): (r: Option<nat>)
    ensures r.Some? <==> n >= ReductionMinVectors
    ensures r.Some? ==> r.value <= ReductionMaxComponents && r.value <= n && r.value <= d
    ensures r.Some? ==> r.value == ReductionMaxComponents || r.value == n || r.value == d
    ensures n >= ReductionMaxComponents ==> r == ReductionTarget(n, d)
  {
    if n >= ReductionMinVectors then Some(Min(ReductionMaxComponents, Min(n, d))) else None
  }

  /** `[i for i, l in enumerate(labels) if l == -1]`. */
  function Outliers(labels: seq<int>): (r: seq<nat>)
    ensures forall k | 0 <= k < |r| :: r[k] < |labels| && labels[r[k]] == Noise
    ensures forall a, b | 0 <= a < b < |r| :: r[a] < r[b]
    ensures forall i | 0 <= i < |labels| && labels[i] == Noise :: i in r
    ensures |r| == Count(labels, Noise)
  {
    if |labels| == 0 then []
    else
      var n := |labels| - 1;
      var prev := Outliers(labels[..n]);
      assert forall i | 0 <= i < n :: labels[..n][i] == labels[i];
      if labels[n] == Noise then prev + [n] else prev
  }

  /** Sum of a size map's values. */
  function SumValues(d: Dict<int, nat>): nat {
    if |d| == 0 then 0 else SumValues(d[..|d| - 1]) + d[|d| - 1].1
  }

  lemma {:induction false} SumUpdate(d: Dict<int, nat>, i: nat, e: (int, nat))
    requires i < |d|
    ensures SumValues(d[i := e]) == SumValues(d) - d[i].1 + e.1
    decreases |d|
  {
    var n := |d| - 1;
    if i < n {
      SumUpdate(d[..n], i, e);
      assert d[i := e][..n] == d[..n][i := e];
    } else {
      assert d[i := e][..n] == d[..n];
    }
  }

  lemma SumPut(d: Dict<int, nat>, k: int, v: nat)
    ensures SumValues(Put(d, k, v)) == SumValues(d) - Get(d, k).GetOr(0) + v
  {
    match IndexOf(d, k)
    case Some(i) => SumUpdate(d, i, (k, v));
    case None => assert (d + [(k, v)])[..|d|] == d;
  }

  /** One step of the counting loop: `cluster_sizes[l] = cluster_sizes.get(l, 0) + 1` unless `l` is -1. */
  function CountInto(d: Dict<int, nat>, l: int): (r: Dict<int, nat>)
    ensures SumValues(r) == SumValues(d) + (if l == Noise then 0 else 1)
    ensures DistinctKeys(d) ==> DistinctKeys(r)
  {
    if l == Noise then d
    else
      SumPut(d, l, Get(d, l).GetOr(0) + 1);
      PutDistinct(d, l, Get(d, l).GetOr(0) + 1);
      Put(d, l, Get(d, l).GetOr(0) + 1)
  }

  /** Counting `l` adds one to its size and leaves every other size alone. */
  lemma CountIntoGet(d: Dict<int, nat>, l: int, k: int)
    ensures Get(CountInto(d, l), k) ==
      if k == l && l != Noise then Some(Get(d, l).GetOr(0) + 1) else Get(d, k)
  {
  }

  /** Counting appends `l` to the keys when it is new and not -1. */
  lemma CountIntoKeys(d: Dict<int, nat>, l: int)
    ensures Keys(CountInto(d, l)) ==
      if l != Noise && l !in Keys(d) then Keys(d) + [l] else Keys(d)
  {
    if l != Noise {
      PutKeys(d, l, Get(d, l).GetOr(0) + 1);
    }
  }

  /**
   * `cluster_sizes`: for each label other than -1, in order of first
   * appearance, the number of times it occurs. Together the sizes count
   * every label that is not -1.
   */
  function ClusterSizes(labels: seq<int>): (r: Dict<int, nat>)
    ensures DistinctKeys(r)
    ensures SumValues(r) + Count(labels, Noise) == |labels|
  {
    if |labels| == 0 then []
    else
      var n := |labels| - 1;
      var prev := ClusterSizes(labels[..n]);
      assert Count(labels, Noise) == Count(labels[..n], Noise) + (if labels[n] == Noise then 1 else 0);
      CountInto(prev, labels[n])
  }

  lemma ClusterSizesStep(labels: seq<int>)
    requires |labels| > 0
    ensures ClusterSizes(labels) == CountInto(ClusterSizes(labels[..|labels| - 1]), labels[|labels| - 1])
  {
  }

  lemma CountStep(xs: seq<int>, x: int)
    requires |xs| > 0
    ensures Count(xs, x) == Count(xs[..|xs| - 1], x) + (if xs[|xs| - 1] == x then 1 else 0)
  {
  }

  /** A size map that records `c` occurrences of `k` records one more after counting another `k`. */
  lemma CountIntoSize(d: Dict<int, nat>, l: int, k: int, c: nat)
    requires Get(d, k) == if k != Noise && c > 0 then Some(c) else None
    ensures var c' := c + (if l == k then 1 else 0);
      Get(CountInto(d, l), k) == if k != Noise && c' > 0 then Some(c') else None
  {
    CountIntoGet(d, l, k);
  }

  /** The size recorded for `k` is its number of occurrences; -1 and absent labels have none. */
  lemma {:induction false} SizeOf(labels: seq<int>, k: int)
    ensures Get(ClusterSizes(labels), k) ==
      if k != Noise && Count(labels, k) > 0 then Some(Count(labels, k)) else None
    decreases |labels|
  {
    if |labels| > 0 {
      var p := labels[..|labels| - 1];
      var l := labels[|labels| - 1];
      var c := Count(p, k);
      SizeOf(p, k);
      ClusterSizesStep(labels);
      CountStep(labels, k);
      assert Count(labels, k) == c + (if l == k then 1 else 0);
      CountIntoSize(ClusterSizes(p), l, k, c);
      assert Get(ClusterSizes(labels), k) == Get(CountInto(ClusterSizes(p), l), k);
    }
  }

  /** Every cluster in the size map has at least one member, and -1 is never a key. */
  lemma SizesPositive(labels: seq<int>)
    ensures Noise !in Keys(ClusterSizes(labels))
    ensures forall i | 0 <= i < |ClusterSizes(labels)| :: ClusterSizes(labels)[i].1 >= 1
    ensures forall k | k != Noise && k in labels :: k in Keys(ClusterSizes(labels))
  {
    var r := ClusterSizes(labels);
    SizeOf(labels, Noise);
    forall i | 0 <= i < |r| ensures r[i].1 >= 1 {
      GetAt(r, i);
      SizeOf(labels, r[i].0);
    }
    forall k | k != Noise && k in labels ensures k in Keys(r) {
      CountPositive(labels, k);
      SizeOf(labels, k);
    }
  }

  lemma {:induction false} CountPositive(xs: seq<int>, x: int)
    requires x in xs
    ensures Count(xs, x) > 0
    decreases |xs|
  {
    var n := |xs| - 1;
    if xs[n] != x {
      assert x in xs[..n] by {
        var i :| 0 <= i < |xs| && xs[i] == x;
        assert xs[..n][i] == x;
      }
      CountPositive(xs[..n], x);
    }
  }

  /** Index of the first occurrence of `x` in `xs`. */
  function FirstIndex(xs: seq<int>, x: int): (r: nat)
    requires x in xs
    ensures r < |xs| && xs[r] == x
    ensures forall j | 0 <= j < r :: xs[j] != x
  {
    var n := |xs| - 1;
    if x in xs[..n] then FirstIndex(xs[..n], x) else n
  }

  /** Every key of the size map is a label. */
  lemma {:induction false} SizeKeysAreLabels(labels: seq<int>)
    ensures forall k | k in Keys(ClusterSizes(labels)) :: k in labels
    decreases |labels|
  {
    if |labels| > 0 {
      var n := |labels| - 1;
      var p := labels[..n];
      SizeKeysAreLabels(p);
      ClusterSizesStep(labels);
      CountIntoKeys(ClusterSizes(p), labels[n]);
      assert forall k | k in p :: k in labels;
    }
  }

  /** A value present in a prefix is first found inside that prefix. */
  lemma FirstIndexPrefix(xs: seq<int>, n: nat, k: int)
    requires n <= |xs| && k in xs[..n]
    ensures k in xs && FirstIndex(xs, k) == FirstIndex(xs[..n], k) < n
  {
    var i := FirstIndex(xs[..n], k);
    assert xs[i] == k;
    var j := FirstIndex(xs, k);
    assert j <= i;
    assert xs[..n][j] == k;
  }

  /** Every value of `ks` occurs in `xs`, and `ks` lists them in order of first occurrence. */
  predicate FirstIndexOrdered(xs: seq<int>, ks: seq<int>) {
    (forall k | k in ks :: k in xs) &&
    forall a, b | 0 <= a < b < |ks| :: FirstIndex(xs, ks[a]) < FirstIndex(xs, ks[b])
  }

  /** Keys found in a prefix of the labels keep their first-appearance order in the whole. */
  lemma FirstAppearanceKeep(labels: seq<int>, n: nat, ks: seq<int>)
    requires n <= |labels| && FirstIndexOrdered(labels[..n], ks)
    ensures FirstIndexOrdered(labels, ks)
    ensures forall k | k in ks :: FirstIndex(labels, k) < n
  {
    forall k | k in ks ensures k in labels && FirstIndex(labels, k) < n {
      FirstIndexPrefix(labels, n, k);
    }
    forall a, b | 0 <= a < b < |ks| ensures FirstIndex(labels, ks[a]) < FirstIndex(labels, ks[b]) {
      FirstIndexPrefix(labels, n, ks[a]);
      FirstIndexPrefix(labels, n, ks[b]);
    }
  }

  /** A label seen for the first time at position `n` sorts after every key seen before it. */
  lemma FirstAppearanceAppend(labels: seq<int>, n: nat, ks: seq<int>)
    requires n < |labels| && labels[n] !in labels[..n]
    requires FirstIndexOrdered(labels, ks)
    requires forall k | k in ks :: FirstIndex(labels, k) < n
    ensures FirstIndexOrdered(labels, ks + [labels[n]])
  {
    var ks' := ks + [labels[n]];
    assert FirstIndex(labels, labels[n]) == n by {
      forall j | 0 <= j < n ensures labels[j] != labels[n] {
        assert labels[j] == labels[..n][j];
      }
    }
    forall a, b | 0 <= a < b < |ks'| ensures FirstIndex(labels, ks'[a]) < FirstIndex(labels, ks'[b]) {
      assert ks'[a] == ks[a];
      if b < |ks| {
        assert ks'[b] == ks[b];
      }
    }
  }

  /** The labels other than -1, each once, in the order they first appear. */
  function FirstAppearances(labels: seq<int>): (r: seq<int>)
    ensures forall k | k in r :: k in labels && k != Noise
  {
    if |labels| == 0 then []
    else
      var p := labels[..|labels| - 1];
      var l := labels[|labels| - 1];
      var prev := FirstAppearances(p);
      assert forall k | k in p :: k in labels;
      if l != Noise && l !in p then prev + [l] else prev
  }

  /** Every label other than -1 is listed. */
  lemma {:induction false} FirstAppearancesComplete(labels: seq<int>, k: int)
    requires k in labels && k != Noise
    ensures k in FirstAppearances(labels)
    decreases |labels|
  {
    var p := labels[..|labels| - 1];
    if k in p {
      FirstAppearancesComplete(p, k);
    } else {
      assert k == labels[|labels| - 1];
    }
  }

  /** The list is ordered by first occurrence (and so has no repeats). */
  lemma {:induction false} FirstAppearancesOrdered(labels: seq<int>)
    ensures FirstIndexOrdered(labels, FirstAppearances(labels))
    decreases |labels|
  {
    if |labels| > 0 {
      var p := labels[..|labels| - 1];
      var l := labels[|labels| - 1];
      var prev := FirstAppearances(p);
      FirstAppearancesOrdered(p);
      assert labels[..|p|] == p;
      FirstAppearanceKeep(labels, |p|, prev);
      if l != Noise && l !in p {
        FirstAppearanceAppend(labels, |p|, prev);
      }
    }
  }

  /** The size map's keys are exactly the labels' first appearances, in that order. */
  lemma {:induction false} SizeKeysAreFirstAppearances(labels: seq<int>)
    ensures Keys(ClusterSizes(labels)) == FirstAppearances(labels)
    decreases |labels|
  {
    if |labels| > 0 {
      var p := labels[..|labels| - 1];
      var l := labels[|labels| - 1];
      SizeKeysAreFirstAppearances(p);
      ClusterSizesStep(labels);
      CountIntoKeys(ClusterSizes(p), l);
      if l != Noise {
        assert l in Keys(ClusterSizes(p)) <==> l in p by {
          SizesPositive(p);
          SizeKeysAreLabels(p);
        }
      }
    }
  }

  /** The size map lists clusters in the order their labels first appear. */
  lemma SizesInFirstAppearanceOrder(labels: seq<int>)
    ensures FirstIndexOrdered(labels, Keys(ClusterSizes(labels)))
  {
    SizeKeysAreFirstAppearances(labels);
    FirstAppearancesOrdered(labels);
  }

  const GapPrefix: string := "Low content volume in cluster "

  /**
   * The text of the gap reported for cluster `k`: the fixed prefix followed
   * by the decimal id, which reads back as `k`.
   */
  function GapMessage(k: int): (r: string)
    ensures |r| > |GapPrefix| && r[..|GapPrefix|] == GapPrefix
    ensures ParseInt(r[|GapPrefix|..]) == k
  {
    var r := GapPrefix + IntToStr(k);
    assert r[|GapPrefix|..] == IntToStr(k);
    ParseIntToStr(k);
    r
  }

  lemma GapMessageInjective(a: int, b: int)
    ensures GapMessage(a) == GapMessage(b) ==> a == b
  {
    assert IntToStr(a) == GapMessage(a)[|GapPrefix|..];
    assert IntToStr(b) == GapMessage(b)[|GapPrefix|..];
    IntToStrInjective(a, b);
  }

  /**
   * The clusters whose size is below `minClusterSize`: a selection of the
   * size map's keys, in its order.
   */
  function SmallClusters(sizes: Dict<int, nat>, minClusterSize: int): (r: seq<int>)
    ensures forall k :: k in r <==>
      exists i | 0 <= i < |sizes| :: sizes[i].0 == k && sizes[i].1 < minClusterSize
    ensures Subseq(r, Keys(sizes))
    decreases |sizes|
  {
    if |sizes| == 0 then []
    else
      var tail := sizes[1..];
      var rest := SmallClusters(tail, minClusterSize);
      assert forall i | 0 <= i < |tail| :: tail[i] == sizes[i + 1];
      assert Keys(sizes) == [sizes[0].0] + Keys(tail);
      if sizes[0].1 < minClusterSize then
        SubseqCons(sizes[0].0, rest, Keys(tail));
        [sizes[0].0] + rest
      else
        SubseqSkip(rest, Keys(tail), sizes[0].0);
        rest
  }

  /** With distinct keys, no small cluster is listed twice. */
  lemma {:induction false} SmallClustersDistinct(sizes: Dict<int, nat>, minClusterSize: int)
    requires DistinctKeys(sizes)
    ensures NoDuplicates(SmallClusters(sizes, minClusterSize))
    decreases |sizes|
  {
    if |sizes| > 0 {
      var tail := sizes[1..];
      var rest := SmallClusters(tail, minClusterSize);
      DistinctKeysTail(sizes);
      SmallClustersDistinct(tail, minClusterSize);
      if sizes[0].1 < minClusterSize {
        forall i | 0 <= i < |tail| ensures tail[i].0 != sizes[0].0 {
          assert tail[i] == sizes[i + 1];
        }
        NoDuplicatesCons(sizes[0].0, rest);
      }
    }
  }

  /**
   * `gaps`: the message "Low content volume in cluster <k>" for each small
   * cluster, in size-map order.
   */
  function Gaps(sizes: Dict<int, nat>, minClusterSize: int): (r: seq<string>)
    ensures |r| == |SmallClusters(sizes, minClusterSize)|
    ensures forall i | 0 <= i < |r| :: r[i] == GapMessage(SmallClusters(sizes, minClusterSize)[i])
  {
    var small := SmallClusters(sizes, minClusterSize);
    seq(|small|, i requires 0 <= i < |small| => GapMessage(small[i]))
  }

  /** A cluster's message is a gap exactly when the cluster is small. */
  lemma GapMember(sizes: Dict<int, nat>, minClusterSize: int, k: int)
    ensures GapMessage(k) in Gaps(sizes, minClusterSize) <==> k in SmallClusters(sizes, minClusterSize)
  {
    var small := SmallClusters(sizes, minClusterSize);
    var gaps := Gaps(sizes, minClusterSize);
    if GapMessage(k) in gaps {
      var i :| 0 <= i < |gaps| && gaps[i] == GapMessage(k);
      GapMessageInjective(k, small[i]);
    }
    if k in small {
      var i :| 0 <= i < |small| && small[i] == k;
      assert gaps[i] == GapMessage(k);
    }
  }

  /** With distinct cluster ids, no gap message is repeated. */
  lemma GapsDistinct(sizes: Dict<int, nat>, minClusterSize: int)
    requires DistinctKeys(sizes)
    ensures NoDuplicates(Gaps(sizes, minClusterSize))
  {
    var small := SmallClusters(sizes, minClusterSize);
    var gaps := Gaps(sizes, minClusterSize);
    SmallClustersDistinct(sizes, minClusterSize);
    forall a, b | 0 <= a < b < |gaps| ensures gaps[a] != gaps[b] {
      GapMessageInjective(small[a], small[b]);
    }
  }

  /** Cluster `k` is reported as a gap exactly when it has members, fewer than `minClusterSize`. */
  lemma GapOf(labels: seq<int>, minClusterSize: int, k: int)
    ensures GapMessage(k) in Gaps(ClusterSizes(labels), minClusterSize) <==>
      k != Noise && 0 < Count(labels, k) < minClusterSize
  {
    var sizes := ClusterSizes(labels);
    SizeOf(labels, k);
    GapMember(sizes, minClusterSize, k);
    if k in SmallClusters(sizes, minClusterSize) {
      var i :| 0 <= i < |sizes| && sizes[i].0 == k && sizes[i].1 < minClusterSize;
      GetAt(sizes, i);
    }
    if k != Noise && 0 < Count(labels, k) < minClusterSize {
      assert k in Keys(sizes);
      var i := IndexOf(sizes, k).value;
      GetAt(sizes, i);
    }
  }

  /**
   * `run_hdbscan` after the clusterer has produced `labels`: the labels
   * unchanged, the outlier indices, the size map and the gap list.
   */
  function RunHdbscan(labels: seq<int>, minClusterSize: int): (r: RawResult)
    ensures r.labels == labels
    ensures forall i | 0 <= i < |labels| :: i in r.outliers <==> labels[i] == Noise
    ensures forall k :: Get(r.clusters, k) == if k != Noise && Count(labels, k) > 0 then Some(Count(labels, k)) else None
    ensures SumValues(r.clusters) + |r.outliers| == |labels|
    ensures forall k :: GapMessage(k) in r.gaps <==>
      k != Noise && 0 < Count(labels, k) < minClusterSize
    ensures r.unifiedLabels.None? && r.videos.None?
  {
    var sizes := ClusterSizes(labels);
    var gaps := Gaps(sizes, minClusterSize);
    forall k ensures Get(sizes, k) == if k != Noise && Count(labels, k) > 0 then Some(Count(labels, k)) else None {
      SizeOf(labels, k);
    }
    forall k ensures GapMessage(k) in gaps <==> k != Noise && 0 < Count(labels, k) < minClusterSize {
      GapOf(labels, minClusterSize, k);
    }
    RawResult(labels, Outliers(labels), sizes, gaps, None, None)
  }
}
