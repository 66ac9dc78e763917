/**
 * Sequence operations the pages use from JavaScript's standard library:
 * `Array.prototype.filter`, `[...new Set(xs)]`, `Array.prototype.slice`,
 * and the `Math.ceil(n / size)` page count with the page slice built on it.
 */
module Seqs {

  /** `r` can be obtained from `s` by deleting elements (order is preserved). */
  predicate IsSubsequence<T(==)>(r: seq<T>, s: seq<T>)
    decreases |s|
  {
    if r == [] then true
    else if s == [] then false
    else (r[0] == s[0] && IsSubsequence(r[1..], s[1..])) || IsSubsequence(r, s[1..])
  }

  /** Every element of a subsequence is an element of the whole. */
  lemma {:induction false} SubsequenceMembers<T>(r: seq<T>, s: seq<T>)
    requires IsSubsequence(r, s)
    ensures forall i :: 0 <= i < |r| ==> r[i] in s
    decreases |s|
  {
    if r != [] {
      if r[0] == s[0] && IsSubsequence(r[1..], s[1..]) {
        SubsequenceMembers(r[1..], s[1..]);
        assert forall i :: 1 <= i < |r| ==> r[i] == r[1..][i - 1];
      } else {
        SubsequenceMembers(r, s[1..]);
      }
    }
  }

  /** A subsequence of a sequence without duplicates has none either. */
  lemma {:induction false} SubsequenceOfDistinct<T>(r: seq<T>, s: seq<T>)
    requires IsSubsequence(r, s) && NoDuplicates(s)
    ensures NoDuplicates(r)
    decreases |s|
  {
    if r != [] {
      if r[0] == s[0] && IsSubsequence(r[1..], s[1..]) {
        SubsequenceOfDistinct(r[1..], s[1..]);
        SubsequenceMembers(r[1..], s[1..]);
        assert forall i :: 1 <= i < |r| ==> r[i] == r[1..][i - 1];
        assert forall k :: 1 <= k < |s| ==> s[k] != s[0];
      } else {
        SubsequenceOfDistinct(r, s[1..]);
      }
    }
  }

  /** Appending the same element to both sides, or only to the whole, keeps a subsequence. */
  lemma {:induction false} SubsequenceSnoc<T>(r: seq<T>, s: seq<T>, y: T)
    requires IsSubsequence(r, s)
    ensures IsSubsequence(r, s + [y])
    ensures IsSubsequence(r + [y], s + [y])
    decreases |s|
  {
    if s == [] {
      assert r == [];
      assert ([y] + [])[1..] == [];
    } else {
      assert (s + [y])[1..] == s[1..] + [y];
      if r == [] {
        SubsequenceSnoc(r, s[1..], y);
        assert r + [y] == [y];
      } else {
        assert (r + [y])[1..] == r[1..] + [y];
        if r[0] == s[0] && IsSubsequence(r[1..], s[1..]) {
          SubsequenceSnoc(r[1..], s[1..], y);
        } else {
          SubsequenceSnoc(r, s[1..], y);
        }
      }
    }
  }

  /** `s.filter(keep)`: the elements of `s` that pass `keep`, in their order. */
  function Filter<T(==)>(s: seq<T>, keep: T -> bool): (r: seq<T>)
    ensures |r| <= |s|
    ensures forall i :: 0 <= i < |r| ==> keep(r[i]) && r[i] in s
    ensures forall i :: 0 <= i < |s| && keep(s[i]) ==> s[i] in r
    decreases |s|
  {
    if s == [] then []
    else
      var rest := Filter(s[1..], keep);
      assert forall i :: 1 <= i < |s| ==> s[i] == s[1..][i - 1];
      if keep(s[0]) then [s[0]] + rest else rest
  }

  /** The filter result keeps the relative order of `s`. */
  lemma {:induction false} FilterIsSubsequence<T>(s: seq<T>, keep: T -> bool)
    ensures IsSubsequence(Filter(s, keep), s)
    decreases |s|
  {
    if s != [] {
      FilterIsSubsequence(s[1..], keep);
      var r := Filter(s, keep);
      if keep(s[0]) {
        assert r[0] == s[0] && r[1..] == Filter(s[1..], keep);
      }
    }
  }

  /** The filter keeps every copy of each passing value and no copy of a failing one. */
  lemma {:induction false} FilterCounts<T>(s: seq<T>, keep: T -> bool)
    ensures forall x :: multiset(Filter(s, keep))[x] == if keep(x) then multiset(s)[x] else 0
    decreases |s|
  {
    if s != [] {
      FilterCounts(s[1..], keep);
      assert s == [s[0]] + s[1..];
      assert multiset(s) == multiset([s[0]]) + multiset(s[1..]);
    }
  }

  /** When every element passes, the filter returns its input unchanged. */
  lemma {:induction false} FilterKeepsAll<T>(s: seq<T>, keep: T -> bool)
    requires forall i :: 0 <= i < |s| ==> keep(s[i])
    ensures Filter(s, keep) == s
    decreases |s|
  {
    if s != [] {
      assert keep(s[0]);
      FilterKeepsAll(s[1..], keep);
      assert [s[0]] + s[1..] == s;
    }
  }

  /** Filtering twice with the same test is filtering once. */
  lemma FilterIdempotent<T>(s: seq<T>, keep: T -> bool)
    ensures Filter(Filter(s, keep), keep) == Filter(s, keep)
  {
    FilterKeepsAll(Filter(s, keep), keep);
  }

  predicate NoDuplicates<T(==)>(s: seq<T>)
  {
    forall i, j :: 0 <= i < j < |s| ==> s[i] != s[j]
  }

  /** Position of the first occurrence of `x` in `s`. */
  function FirstIndex<T(==)>(s: seq<T>, x: T): (k: nat)
    requires x in s
    ensures k < |s| && s[k] == x && x !in s[..k]
  {
    if s[0] == x then 0
    else
      var k := FirstIndex(s[1..], x);
      assert s[..k + 1] == [s[0]] + s[1..][..k];
      k + 1
  }

  /** A position holding `x` with no earlier `x` is the first index. */
  lemma FirstIndexUnique<T>(s: seq<T>, x: T, k: nat)
    requires k < |s| && s[k] == x && x !in s[..k]
    ensures FirstIndex(s, x) == k
  {
  }

  /** `[...new Set(s)]`: every value of `s` once, in order of first appearance. */
  function Distinct<T(==)>(s: seq<T>): (r: seq<T>)
    ensures forall i :: 0 <= i < |r| ==> r[i] in s
    ensures forall i :: 0 <= i < |s| ==> s[i] in r
    ensures NoDuplicates(r)
    decreases |s|
  {
    if s == [] then []
    else
      var init := s[..|s| - 1];
      var d := Distinct(init);
      assert forall i :: 0 <= i < |s| - 1 ==> s[i] == init[i];
      if s[|s| - 1] in d then d else d + [s[|s| - 1]]
  }

  /** The distinct values come in the order in which each first appears in `s`. */
  lemma {:induction false} DistinctFirstAppearanceOrder<T>(s: seq<T>)
    ensures forall i, j :: 0 <= i < j < |Distinct(s)| ==>
              FirstIndex(s, Distinct(s)[i]) < FirstIndex(s, Distinct(s)[j])
    decreases |s|
  {
    if s != [] {
      var n := |s|;
      var init := s[..n - 1];
      var d := Distinct(init);
      DistinctFirstAppearanceOrder(init);
      assert s == init + [s[n - 1]];
      forall y | y in init
        ensures FirstIndex(s, y) == FirstIndex(init, y)
      {
        var k := FirstIndex(init, y);
        assert s[..k] == init[..k];
        FirstIndexUnique(s, y, k);
      }
      if s[n - 1] !in d {
        assert s[n - 1] !in init;
        FirstIndexUnique(s, s[n - 1], n - 1);
      }
    }
  }

  /** Position normalisation of `Array.prototype.slice`: negative counts from the end, then clipped. */
  function SliceIndex(k: int, len: nat): (r: nat)
    ensures r <= len
    ensures 0 <= k ==> r == if k < len then k else len
  {
    if k < 0 then (if len + k < 0 then 0 else len + k)
    else if k < len then k else len
  }

  /** `s.slice(start, end)` as JavaScript defines it. */
  function JsSlice<T>(s: seq<T>, start: int, end: int): seq<T>
  {
    var a := SliceIndex(start, |s|);
    var b := SliceIndex(end, |s|);
    if a < b then s[a..b] else []
  }

  function Min(a: int, b: int): int { if a < b then a else b }

  /** `Math.ceil(n / size)`: the number of pages of `size` needed for `n` elements. */
  function PageCount(n: nat, size: nat): (r: nat)
    requires size > 0
    ensures n <= r * size
    ensures r == 0 || (r - 1) * size < n
  {
    var q := (n + size - 1) / size;
    assert q * size <= n + size - 1 < (q + 1) * size;
    q
  }

  /** `s.slice((page - 1) * size, page * size)`: page number `page`, counted from 1. */
  function Page<T>(s: seq<T>, size: nat, page: int): seq<T>
  {
    JsSlice(s, (page - 1) * size, page * size)
  }

  lemma MulStep(k: int, size: nat)
    ensures k * size == (k - 1) * size + size
  {
  }

  lemma MulMonotone(a: int, b: int, size: nat)
    requires a <= b
    ensures a * size <= b * size
  {
  }

  /** A page from 1 on is the stretch of `s` it names, clipped to `s`, so it has at most `size` elements. */
  lemma PageIsClippedSlice<T>(s: seq<T>, size: nat, page: int)
    requires 1 <= page
    ensures 0 <= (page - 1) * size <= page * size
    ensures Page(s, size, page) == s[Min((page - 1) * size, |s|)..Min(page * size, |s|)]
    ensures |Page(s, size, page)| <= size
  {
    MulMonotone(0, page - 1, size);
    MulStep(page, size);
    var a := (page - 1) * size;
    var b := page * size;
    assert 0 <= a && b == a + size;
    assert SliceIndex(a, |s|) == Min(a, |s|);
    assert SliceIndex(b, |s|) == Min(b, |s|);
  }

  /** Every page numbered 1 to the page count holds at least one element. */
  lemma PageInRangeNotEmpty<T>(s: seq<T>, size: nat, page: int)
    requires size > 0 && 1 <= page <= PageCount(|s|, size)
    ensures 1 <= |Page(s, size, page)| <= size
  {
    PageIsClippedSlice(s, size, page);
    var n := PageCount(|s|, size);
    MulMonotone(page - 1, n - 1, size);
    MulStep(page, size);
    assert (page - 1) * size < |s|;
  }

  /** Pages 1 to `k` laid end to end. */
  function Pages<T>(s: seq<T>, size: nat, k: nat): seq<T>
  {
    if k == 0 then [] else Pages(s, size, k - 1) + Page(s, size, k)
  }

  /** Pages 1 to `k` together are exactly the first `k * size` elements of `s`. */
  lemma {:induction false} PagesArePrefix<T>(s: seq<T>, size: nat, k: nat)
    ensures Pages(s, size, k) == s[..Min(k * size, |s|)]
  {
    if k > 0 {
      PagesArePrefix(s, size, k - 1);
      PageIsClippedSlice(s, size, k);
      assert (k - 1) * size <= k * size;
      var a := Min((k - 1) * size, |s|);
      var b := Min(k * size, |s|);
      assert s[..a] + s[a..b] == s[..b];
    }
  }

  /** The pages 1 to the page count partition `s`: laid end to end they give `s` back. */
  lemma PagesPartition<T>(s: seq<T>, size: nat)
    requires size > 0
    ensures Pages(s, size, PageCount(|s|, size)) == s
  {
    var n := PageCount(|s|, size);
    PagesArePrefix(s, size, n);
    assert s[..|s|] == s;
  }
}
