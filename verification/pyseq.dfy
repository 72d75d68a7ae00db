/** Python list slicing and filtering, on Dafny sequences. */
module PySeq {

  function Min(a: int, b: int): int {
    if a < b then a else b
  }

  /** Python's `xs[:n]` for a non-negative bound `n`. */
  function Take<T>(xs: seq<T>, n: nat): (r: seq<T>)
    ensures |r| == Min(n, |xs|)
    ensures r <= xs
  {
    if n < |xs| then xs[..n] else xs
  }

  /** A slice of a prefix of a prefix is the same slice of the whole. */
  lemma PrefixSlice<T>(xs: seq<T>, ys: seq<T>, zs: seq<T>, i: nat, j: nat)
    requires xs <= ys && ys <= zs && i <= j <= |xs|
    ensures xs[i..j] == zs[i..j]
  {
    assert forall k | i <= k < j :: xs[k] == ys[k] == zs[k];
  }

  /** No element occurs twice. */
  predicate NoDuplicates<T(==)>(xs: seq<T>) {
    forall a, b | 0 <= a < b < |xs| :: xs[a] != xs[b]
  }

  lemma NoDuplicatesCons<T>(x: T, xs: seq<T>)
    requires x !in xs && NoDuplicates(xs)
    ensures NoDuplicates([x] + xs)
  {
    var r := [x] + xs;
    forall a, b | 0 <= a < b < |r| ensures r[a] != r[b] {
      assert r[b] == xs[b - 1];
      if a > 0 {
        assert r[a] == xs[a - 1];
      }
    }
  }

  /** Number of occurrences of `x` in `xs`. */
  function Count<T(==)>(xs: seq<T>, x: T): (n: nat)
    ensures n <= |xs|
  {
    if |xs| == 0 then 0
    else Count(xs[..|xs| - 1], x) + (if xs[|xs| - 1] == x then 1 else 0)
  }

  /** `xs` can be obtained from `ys` by deleting elements (order is kept). */
  predicate Subseq<T(==)>(xs: seq<T>, ys: seq<T>)
    decreases |ys|
  {
    if |xs| == 0 then true
    else if |ys| == 0 then false
    else if xs[0] == ys[0] then Subseq(xs[1..], ys[1..])
    else Subseq(xs, ys[1..])
  }

  lemma {:induction false} SubseqMembers<T>(xs: seq<T>, ys: seq<T>)
    requires Subseq(xs, ys)
    ensures forall x :: x in xs ==> x in ys
    decreases |ys|
  {
    if |xs| > 0 {
      if xs[0] == ys[0] {
        SubseqMembers(xs[1..], ys[1..]);
        forall x | x in xs ensures x in ys {
          if x != xs[0] {
            assert x in xs[1..];
          }
        }
      } else {
        SubseqMembers(xs, ys[1..]);
      }
    }
  }

  /** A prefix of a subsequence is still a subsequence. */
  lemma {:induction false} SubseqTake<T>(xs: seq<T>, ys: seq<T>, n: nat)
    requires Subseq(xs, ys)
    ensures Subseq(Take(xs, n), ys)
    decreases |ys|
  {
    var p := Take(xs, n);
    if |p| > 0 {
      assert p[0] == xs[0];
      if xs[0] == ys[0] {
        SubseqTake(xs[1..], ys[1..], n - 1);
        assert p[1..] == Take(xs[1..], n - 1);
      } else {
        SubseqTake(xs, ys[1..], n);
      }
    }
  }

  /** The same element in front of both keeps a subsequence. */
  lemma SubseqCons<T>(x: T, xs: seq<T>, ys: seq<T>)
    requires Subseq(xs, ys)
    ensures Subseq([x] + xs, [x] + ys)
  {
    assert ([x] + xs)[1..] == xs;
    assert ([x] + ys)[1..] == ys;
  }

  /** An extra element in front of `ys` keeps `xs` a subsequence. */
  lemma {:induction false} SubseqSkip<T>(xs: seq<T>, ys: seq<T>, y: T)
    requires Subseq(xs, ys)
    ensures Subseq(xs, [y] + ys)
    decreases |ys|, 1
  {
    var zs := [y] + ys;
    assert zs[1..] == ys;
    if |xs| > 0 && xs[0] == y {
      SubseqTail(xs, ys);
    }
  }

  /** Dropping the head of a subsequence keeps it a subsequence. */
  lemma {:induction false} SubseqTail<T>(xs: seq<T>, ys: seq<T>)
    requires |xs| > 0 && Subseq(xs, ys)
    ensures Subseq(xs[1..], ys)
    decreases |ys|, 0
  {
    assert ys == [ys[0]] + ys[1..];
    if xs[0] == ys[0] {
      SubseqSkip(xs[1..], ys[1..], ys[0]);
    } else {
      SubseqTail(xs, ys[1..]);
      SubseqSkip(xs[1..], ys[1..], ys[0]);
    }
  }

  /** Python's `[e for e in xs if e]` on strings: the empty strings are dropped. */
  function DropEmpty(xs: seq<string>): (r: seq<string>)
    ensures "" !in r
    ensures Subseq(r, xs)
    ensures |r| == |xs| - Count(xs, "")
  {
    if |xs| == 0 then []
    else
      var rest := DropEmpty(xs[1..]);
      assert Count(xs, "") == (if xs[0] == "" then 1 else 0) + Count(xs[1..], "") by {
        CountFront(xs, "");
      }
      if xs[0] == "" then rest else [xs[0]] + rest
  }

  /** A subsequence without empty strings is no longer than the non-empty part of the whole. */
  lemma {:induction false} SubseqNonEmptyBound(r: seq<string>, ys: seq<string>)
    requires Subseq(r, ys) && "" !in r
    ensures |r| <= |ys| - Count(ys, "")
    decreases |ys|
  {
    if |r| > 0 {
      CountFront(ys, "");
      assert "" !in r[1..];
      if r[0] == ys[0] {
        SubseqNonEmptyBound(r[1..], ys[1..]);
      } else {
        SubseqNonEmptyBound(r, ys[1..]);
      }
    }
  }

  /**
   * The three facts `DropEmpty` promises determine its result: any
   * subsequence without empty strings, as long as the non-empty part, is it.
   */
  lemma {:induction false} DropEmptyUnique(r: seq<string>, xs: seq<string>)
    requires Subseq(r, xs) && "" !in r && |r| == |xs| - Count(xs, "")
    ensures r == DropEmpty(xs)
    decreases |xs|
  {
    if |xs| > 0 {
      CountFront(xs, "");
      if xs[0] == "" {
        assert |r| > 0 ==> r[0] != xs[0];
        DropEmptyUnique(r, xs[1..]);
      } else if r[0] == xs[0] {
        assert "" !in r[1..];
        DropEmptyUnique(r[1..], xs[1..]);
        assert r == [r[0]] + r[1..];
      } else {
        SubseqNonEmptyBound(r, xs[1..]);
        assert false;
      }
    }
  }

  /** Filtering a list without empty strings keeps it whole. */
  lemma {:induction false} DropEmptyKeeps(xs: seq<string>)
    requires "" !in xs
    ensures DropEmpty(xs) == xs
  {
    if |xs| > 0 {
      DropEmptyKeeps(xs[1..]);
    }
  }

  /** Count read from the front instead of the back. */
  lemma {:induction false} CountFront<T>(xs: seq<T>, x: T)
    requires |xs| > 0
    ensures Count(xs, x) == (if xs[0] == x then 1 else 0) + Count(xs[1..], x)
    decreases |xs|
  {
    if |xs| > 1 {
      CountFront(xs[..|xs| - 1], x);
      assert xs[..|xs| - 1][1..] == xs[1..][..|xs[1..]| - 1];
      assert xs[..|xs| - 1][0] == xs[0];
    } else {
      assert xs[..|xs| - 1] == [];
      assert xs[1..] == [];
    }
  }
}
