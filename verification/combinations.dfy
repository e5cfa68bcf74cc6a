/**
 * The combination enumerator. A combination of modules is a strictly increasing
 * sequence of indices into the list of selected modules; for a list of n modules
 * the enumerator yields every size from 0 to n, and within one size the
 * lexicographic order of index tuples (the order of itertools.combinations).
 */
module Combinations {

  /** All combinations of size r drawn from the indices lo, lo+1, ..., n-1, in lexicographic order. */
  function Choose(lo: nat, n: nat, r: nat): seq<seq<nat>>
    decreases n - lo, r
  {
    if r == 0 then [[]]
    else if lo >= n then []
    else Prepend(lo, Choose(lo + 1, n, r - 1)) + Choose(lo + 1, n, r)
  }

  /** Put x in front of every combination of the list. */
  function Prepend(x: nat, ss: seq<seq<nat>>): (r: seq<seq<nat>>)
    ensures |r| == |ss|
    ensures forall i :: 0 <= i < |ss| ==> r[i] == [x] + ss[i]
  {
    if ss == [] then [] else [[x] + ss[0]] + Prepend(x, ss[1..])
  }

  /** The combinations of sizes 0, 1, ..., k-1 of n indices, size by size. */
  function BySize(n: nat, k: nat): seq<seq<nat>> {
    if k == 0 then [] else BySize(n, k - 1) + Choose(0, n, k - 1)
  }

  /** Every combination of every size 0..n of n indices, in generation order. */
  function Subsets(n: nat): seq<seq<nat>> {
    BySize(n, n + 1)
  }

  predicate StrictlyIncreasing(c: seq<nat>) {
    forall i, j :: 0 <= i < j < |c| ==> c[i] < c[j]
  }

  /** A valid combination of size r from the indices lo..n-1. */
  predicate IsCombination(c: seq<nat>, lo: nat, n: nat, r: nat) {
    |c| == r && StrictlyIncreasing(c) && forall i :: 0 <= i < |c| ==> lo <= c[i] < n
  }

  /** Lexicographic order on index sequences: strictly before at the first position where they differ. */
  predicate LexLess(a: seq<nat>, b: seq<nat>) {
    a != [] && b != [] && (a[0] < b[0] || (a[0] == b[0] && LexLess(a[1..], b[1..])))
  }

  /** Strictly increasing in lexicographic order. */
  predicate LexSorted(cs: seq<seq<nat>>) {
    forall i, j :: 0 <= i < j < |cs| ==> LexLess(cs[i], cs[j])
  }

  /** Every entry is a valid combination of n indices of size below k. */
  predicate Shaped(ss: seq<seq<nat>>, n: nat, k: nat) {
    forall i :: 0 <= i < |ss| ==> |ss[i]| < k && IsCombination(ss[i], 0, n, |ss[i]|)
  }

  /** Sizes never decrease, and within one size the order is strictly lexicographic. */
  predicate InGenerationOrder(ss: seq<seq<nat>>) {
    forall i, j :: 0 <= i < j < |ss| ==> |ss[i]| < |ss[j]| || (|ss[i]| == |ss[j]| && LexLess(ss[i], ss[j]))
  }

  function Binomial(m: nat, r: nat): nat {
    if r == 0 then 1 else if m == 0 then 0 else Binomial(m - 1, r - 1) + Binomial(m - 1, r)
  }

  /** Binomial(m, 0) + ... + Binomial(m, k - 1). */
  function BinomialSum(m: nat, k: nat): nat {
    if k == 0 then 0 else BinomialSum(m, k - 1) + Binomial(m, k - 1)
  }

  function Pow2(m: nat): (r: nat)
    ensures r >= 1
  {
    if m == 0 then 1 else 2 * Pow2(m - 1)
  }

  // ---------------------------------------------------------------------------
  // Shape, completeness and order
  // ---------------------------------------------------------------------------

  lemma ConsCombination(x: nat, t: seq<nat>, n: nat, r: nat)
    requires x < n && IsCombination(t, x + 1, n, r)
    ensures IsCombination([x] + t, x, n, r + 1)
  {
    var c := [x] + t;
    forall i, j | 0 <= i < j < |c| ensures c[i] < c[j] {
      assert c[j] == t[j - 1];
      if i > 0 {
        assert c[i] == t[i - 1];
      }
    }
    forall i | 0 <= i < |c| ensures x <= c[i] < n {
      if i > 0 {
        assert c[i] == t[i - 1];
      }
    }
  }

  lemma TailCombination(c: seq<nat>, lo: nat, n: nat, r: nat)
    requires IsCombination(c, lo, n, r) && r > 0
    ensures lo <= c[0] < n
    ensures IsCombination(c[1..], c[0] + 1, n, r - 1)
  {
    var t := c[1..];
    forall i, j | 0 <= i < j < |t| ensures t[i] < t[j] {
      assert t[i] == c[i + 1] && t[j] == c[j + 1];
    }
    forall i | 0 <= i < |t| ensures c[0] + 1 <= t[i] < n {
      assert t[i] == c[i + 1];
    }
  }

  /** Every combination produced has the requested size, is strictly increasing, and stays in range. */
  lemma {:induction false} ChooseShape(lo: nat, n: nat, r: nat)
    ensures forall c :: c in Choose(lo, n, r) ==> IsCombination(c, lo, n, r)
    decreases n - lo, r
  {
    if r != 0 && lo < n {
      ChooseShape(lo + 1, n, r - 1);
      ChooseShape(lo + 1, n, r);
      var tails := Choose(lo + 1, n, r - 1);
      var head := Prepend(lo, tails);
      forall c | c in head ensures IsCombination(c, lo, n, r) {
        var i :| 0 <= i < |head| && head[i] == c;
        assert tails[i] in tails;
        ConsCombination(lo, tails[i], n, r - 1);
      }
    }
  }

  /** A combination whose first index is above lo lies within lo+1..n-1. */
  lemma RaiseLow(c: seq<nat>, lo: nat, n: nat, r: nat)
    requires IsCombination(c, lo, n, r) && r > 0 && c[0] > lo
    ensures IsCombination(c, lo + 1, n, r)
  {
    forall i | 0 < i < |c| ensures lo + 1 <= c[i] {
      assert c[0] < c[i];
    }
  }

  /** Prepending x to a listed combination gives a listed combination. */
  lemma InPrepend(x: nat, ss: seq<seq<nat>>, t: seq<nat>)
    requires t in ss
    ensures [x] + t in Prepend(x, ss)
  {
    var i :| 0 <= i < |ss| && ss[i] == t;
    assert Prepend(x, ss)[i] == [x] + t;
  }

  /** Every combination listed from lo+1 on is listed from lo on as well. */
  lemma ChooseHasRest(lo: nat, n: nat, r: nat, c: seq<nat>)
    requires r > 0 && lo < n
    requires c in Choose(lo + 1, n, r)
    ensures c in Choose(lo, n, r)
  {
  }

  /** Every valid combination of size r from lo..n-1 is produced. */
  lemma {:induction false} ChooseComplete(lo: nat, n: nat, r: nat, c: seq<nat>)
    requires IsCombination(c, lo, n, r)
    ensures c in Choose(lo, n, r)
    decreases n - lo, r, 1
  {
    if r == 0 {
      assert c == [];
    } else {
      TailCombination(c, lo, n, r);
      ChooseCompleteCons(lo, n, r, c[0], c[1..]);
      assert c == [c[0]] + c[1..];
    }
  }

  /** A first index x in lo..n-1 followed by a combination above x is produced. */
  lemma {:induction false} ChooseCompleteCons(lo: nat, n: nat, r: nat, x: nat, t: seq<nat>)
    requires r > 0 && lo <= x < n
    requires IsCombination(t, x + 1, n, r - 1)
    ensures [x] + t in Choose(lo, n, r)
    decreases n - lo, r, 0
  {
    if x == lo {
      ChooseComplete(lo + 1, n, r - 1, t);
      InPrepend(lo, Choose(lo + 1, n, r - 1), t);
    } else {
      ChooseCompleteCons(lo + 1, n, r, x, t);
      ChooseHasRest(lo, n, r, [x] + t);
    }
  }

  /** Two lexicographically sorted lists, every entry of the first below every entry of the second, sort together. */
  lemma LexSortedConcat(a: seq<seq<nat>>, b: seq<seq<nat>>)
    requires LexSorted(a) && LexSorted(b)
    requires forall i, j :: 0 <= i < |a| && 0 <= j < |b| ==> LexLess(a[i], b[j])
    ensures LexSorted(a + b)
  {
    var cs := a + b;
    forall i, j | 0 <= i < j < |cs| ensures LexLess(cs[i], cs[j]) {
      if j < |a| {
        assert cs[i] == a[i] && cs[j] == a[j];
      } else if i < |a| {
        assert cs[i] == a[i] && cs[j] == b[j - |a|];
      } else {
        assert cs[i] == b[i - |a|] && cs[j] == b[j - |a|];
      }
    }
  }

  /** Putting the same index in front of every entry keeps a list lexicographically sorted. */
  lemma PrependLexSorted(x: nat, ss: seq<seq<nat>>)
    requires LexSorted(ss)
    ensures LexSorted(Prepend(x, ss))
  {
    var ps := Prepend(x, ss);
    forall i, j | 0 <= i < j < |ps| ensures LexLess(ps[i], ps[j]) {
      assert ps[i][1..] == ss[i] && ps[j][1..] == ss[j];
    }
  }

  /** Every combination of a positive size from lo..n-1 starts at lo or later. */
  lemma ChooseStartsFrom(lo: nat, n: nat, r: nat)
    requires r > 0
    ensures forall j :: 0 <= j < |Choose(lo, n, r)| ==> Choose(lo, n, r)[j] != [] && Choose(lo, n, r)[j][0] >= lo
  {
    ChooseShape(lo, n, r);
    forall j | 0 <= j < |Choose(lo, n, r)| ensures Choose(lo, n, r)[j] != [] && Choose(lo, n, r)[j][0] >= lo {
      assert Choose(lo, n, r)[j] in Choose(lo, n, r);
    }
  }

  /** Everything starting with x comes lexicographically before everything starting above x. */
  lemma PrependBefore(x: nat, ss: seq<seq<nat>>, rest: seq<seq<nat>>)
    requires forall j :: 0 <= j < |rest| ==> rest[j] != [] && rest[j][0] > x
    ensures forall i, j :: 0 <= i < |Prepend(x, ss)| && 0 <= j < |rest| ==> LexLess(Prepend(x, ss)[i], rest[j])
  {
  }

  /** The combinations of one size come out in strictly increasing lexicographic order. */
  lemma {:induction false} ChooseInLexOrder(lo: nat, n: nat, r: nat)
    ensures LexSorted(Choose(lo, n, r))
    decreases n - lo, r
  {
    if r != 0 && lo < n {
      var tails := Choose(lo + 1, n, r - 1);
      var rest := Choose(lo + 1, n, r);
      ChooseInLexOrder(lo + 1, n, r - 1);
      ChooseInLexOrder(lo + 1, n, r);
      PrependLexSorted(lo, tails);
      ChooseStartsFrom(lo + 1, n, r);
      PrependBefore(lo, tails, rest);
      LexSortedConcat(Prepend(lo, tails), rest);
    }
  }

  lemma {:induction false} LexLessIrreflexive(a: seq<nat>)
    ensures !LexLess(a, a)
  {
    if a != [] {
      LexLessIrreflexive(a[1..]);
    }
  }

  // ---------------------------------------------------------------------------
  // Counting
  // ---------------------------------------------------------------------------

  lemma {:induction false} ChooseCount(lo: nat, n: nat, r: nat)
    requires lo <= n
    ensures |Choose(lo, n, r)| == Binomial(n - lo, r)
    decreases n - lo, r
  {
    if r != 0 && lo < n {
      ChooseCount(lo + 1, n, r - 1);
      ChooseCount(lo + 1, n, r);
    }
  }

  lemma {:induction false} BinomialBeyond(m: nat, r: nat)
    requires r > m
    ensures Binomial(m, r) == 0
  {
    if m > 0 {
      BinomialBeyond(m - 1, r - 1);
      BinomialBeyond(m - 1, r);
    }
  }

  /** Pascal's rule, summed: the first k entries of row m are the first k-1 and the first k of row m-1. */
  lemma {:induction false} BinomialSumPascal(m: nat, k: nat)
    requires m >= 1 && k >= 1
    ensures BinomialSum(m, k) == BinomialSum(m - 1, k - 1) + BinomialSum(m - 1, k)
  {
    if k > 1 {
      BinomialSumPascal(m, k - 1);
    }
  }

  /** A row of Pascal's triangle sums to a power of two. */
  lemma {:induction false} BinomialRowSum(m: nat)
    ensures BinomialSum(m, m + 1) == Pow2(m)
  {
    if m > 0 {
      BinomialRowSum(m - 1);
      BinomialSumPascal(m, m + 1);
      BinomialBeyond(m - 1, m);
    }
  }

  lemma {:induction false} BySizeCount(n: nat, k: nat)
    ensures |BySize(n, k)| == BinomialSum(n, k)
  {
    if k > 0 {
      BySizeCount(n, k - 1);
      ChooseCount(0, n, k - 1);
    }
  }

  /** For n selected modules there are exactly 2^n combinations, the empty one included. */
  lemma SubsetsCount(n: nat)
    ensures |Subsets(n)| == Pow2(n)
  {
    BySizeCount(n, n + 1);
    BinomialRowSum(n);
  }

  // ---------------------------------------------------------------------------
  // The whole enumeration
  // ---------------------------------------------------------------------------

  /** Every combination generated for sizes below k is a valid index sequence of that size. */
  lemma {:induction false} BySizeShaped(n: nat, k: nat)
    ensures Shaped(BySize(n, k), n, k)
  {
    if k > 0 {
      var front, block := BySize(n, k - 1), Choose(0, n, k - 1);
      var ss := front + block;
      BySizeShaped(n, k - 1);
      ChooseShape(0, n, k - 1);
      forall i | 0 <= i < |ss| ensures |ss[i]| < k && IsCombination(ss[i], 0, n, |ss[i]|) {
        if i >= |front| {
          assert ss[i] == block[i - |front|];
          assert block[i - |front|] in block;
        } else {
          assert ss[i] == front[i];
        }
      }
    }
  }

  /** A list in generation order followed by a lexicographically sorted block of longer entries is in generation order. */
  lemma GenerationOrderConcat(front: seq<seq<nat>>, block: seq<seq<nat>>, size: nat)
    requires InGenerationOrder(front) && LexSorted(block)
    requires forall i :: 0 <= i < |front| ==> |front[i]| < size
    requires forall j :: 0 <= j < |block| ==> |block[j]| == size
    ensures InGenerationOrder(front + block)
  {
    var ss := front + block;
    forall i, j | 0 <= i < j < |ss|
      ensures |ss[i]| < |ss[j]| || (|ss[i]| == |ss[j]| && LexLess(ss[i], ss[j]))
    {
      if j < |front| {
        assert ss[i] == front[i] && ss[j] == front[j];
      } else if i < |front| {
        assert ss[i] == front[i] && ss[j] == block[j - |front|];
      } else {
        assert ss[i] == block[i - |front|] && ss[j] == block[j - |front|];
      }
    }
  }

  /**
   * Generation order: combinations come by non-decreasing size, and within one size
   * in strictly increasing lexicographic order.
   */
  lemma {:induction false} BySizeInOrder(n: nat, k: nat)
    ensures InGenerationOrder(BySize(n, k))
  {
    if k > 0 {
      var front, block := BySize(n, k - 1), Choose(0, n, k - 1);
      BySizeInOrder(n, k - 1);
      BySizeSizes(n, k - 1);
      ChooseSizes(0, n, k - 1);
      ChooseInLexOrder(0, n, k - 1);
      GenerationOrderConcat(front, block, k - 1);
    }
  }

  /** Every combination generated for sizes below k has a size below k. */
  lemma BySizeSizes(n: nat, k: nat)
    ensures forall i :: 0 <= i < |BySize(n, k)| ==> |BySize(n, k)[i]| < k
  {
    BySizeShaped(n, k);
  }

  /** Every combination of size r has r entries. */
  lemma ChooseSizes(lo: nat, n: nat, r: nat)
    ensures forall j :: 0 <= j < |Choose(lo, n, r)| ==> |Choose(lo, n, r)[j]| == r
  {
    ChooseShape(lo, n, r);
    forall j | 0 <= j < |Choose(lo, n, r)| ensures |Choose(lo, n, r)[j]| == r {
      assert Choose(lo, n, r)[j] in Choose(lo, n, r);
    }
  }

  /** Every combination of n indices is a valid, strictly increasing index sequence, in generation order. */
  lemma SubsetsInOrder(n: nat)
    ensures Shaped(Subsets(n), n, n + 1) && InGenerationOrder(Subsets(n))
  {
    BySizeShaped(n, n + 1);
    BySizeInOrder(n, n + 1);
  }

  /** Every possible combination of the n modules is generated. */
  lemma SubsetsComplete(n: nat, c: seq<nat>)
    requires IsCombination(c, 0, n, |c|)
    ensures c in Subsets(n)
  {
    CombinationSizeBound(c, 0, n);
    BySizeContains(n, n + 1, c);
  }

  /** The bare controller, with no expansion module, is the first combination tried. */
  lemma SubsetsStartEmpty(n: nat)
    ensures |Subsets(n)| >= 1 && Subsets(n)[0] == []
  {
    assert BySize(n, 1) == [[]];
    BySizePrefix(n, 1, n + 1);
  }

  /** No combination is generated twice. */
  lemma SubsetsDistinct(n: nat)
    ensures forall i, j :: 0 <= i < j < |Subsets(n)| ==> Subsets(n)[i] != Subsets(n)[j]
  {
    var ss := Subsets(n);
    BySizeInOrder(n, n + 1);
    forall i, j | 0 <= i < j < |ss| ensures ss[i] != ss[j] {
      LexLessIrreflexive(ss[i]);
    }
  }

  lemma {:induction false} BySizePrefix(n: nat, k: nat, m: nat)
    requires k <= m
    ensures BySize(n, k) <= BySize(n, m)
    decreases m
  {
    if k < m {
      BySizePrefix(n, k, m - 1);
      assert BySize(n, m) == BySize(n, m - 1) + Choose(0, n, m - 1);
    }
  }

  lemma {:induction false} BySizeContains(n: nat, k: nat, c: seq<nat>)
    requires IsCombination(c, 0, n, |c|) && |c| < k
    ensures c in BySize(n, k)
  {
    if |c| == k - 1 {
      ChooseComplete(0, n, k - 1, c);
    } else {
      BySizeContains(n, k - 1, c);
    }
  }

  /** Any valid combination has at most n members. */
  lemma {:induction false} CombinationSizeBound(c: seq<nat>, lo: nat, n: nat)
    requires lo <= n && IsCombination(c, lo, n, |c|)
    ensures lo + |c| <= n
    decreases |c|
  {
    if c != [] {
      TailCombination(c, lo, n, |c|);
      CombinationSizeBound(c[1..], c[0] + 1, n);
    }
  }
}
