/**
 * c_receiver/math.hpp: the integer statistics of the latency estimator —
 * mean and variance, their masked forms, the variance mask, the stable
 * index sort, the minimum mask, and element-wise differences. Divisions
 * truncate toward zero as C's do; sums are unbounded.
 */
module Stats {
  import opened Machine

  // ------------------------------------------------------ specification

  function Sum(xs: seq<int>): int
  {
    if xs == [] then 0 else Sum(xs[..|xs| - 1]) + xs[|xs| - 1]
  }

  function Square(d: int): nat { d * d }

  /** The sum of squared deviations from `mu`. */
  function SquaredDeviations(xs: seq<int>, mu: int): nat
  {
    if xs == [] then 0 else SquaredDeviations(xs[..|xs| - 1], mu) + Square(xs[|xs| - 1] - mu)
  }

  /** The mean, truncated toward zero. */
  function Mean(xs: seq<int>): int
    requires |xs| > 0
  {
    CDiv(Sum(xs), |xs|)
  }

  /** The sample variance about the truncated mean, divided by `n - 1` and truncated. */
  function Variance(xs: seq<int>): nat
    requires |xs| >= 2
  {
    SquaredDeviations(xs, Mean(xs)) / (|xs| - 1)
  }

  /** The elements whose mask entry is exactly 1, in order. */
  function Accepted(xs: seq<int>, mask: seq<byte>): (r: seq<int>)
    requires |xs| == |mask|
    ensures |r| <= |xs|
  {
    if xs == [] then []
    else Accepted(xs[..|xs| - 1], mask[..|mask| - 1]) + (if mask[|mask| - 1] == 1 then [xs[|xs| - 1]] else [])
  }

  lemma AcceptedStep(xs: seq<int>, mask: seq<byte>, i: nat)
    requires |xs| == |mask| && i < |xs|
    ensures Accepted(xs[..i + 1], mask[..i + 1]) == Accepted(xs[..i], mask[..i]) + (if mask[i] == 1 then [xs[i]] else [])
  {
    assert xs[..i + 1][..i] == xs[..i];
    assert mask[..i + 1][..i] == mask[..i];
  }

  lemma SumStep(xs: seq<int>, i: nat)
    requires i < |xs|
    ensures Sum(xs[..i + 1]) == Sum(xs[..i]) + xs[i]
  {
    assert xs[..i + 1][..i] == xs[..i];
  }

  lemma SquaredDeviationsStep(xs: seq<int>, mu: int, i: nat)
    requires i < |xs|
    ensures SquaredDeviations(xs[..i + 1], mu) == SquaredDeviations(xs[..i], mu) + Square(xs[i] - mu)
  {
    assert xs[..i + 1][..i] == xs[..i];
  }

  // ----------------------------------------------------------- mean_var

  /**
   * `mean_var(x, len)`: the truncated mean and the sample variance of the
   * first `len` elements. The source divides by `len` and by `len - 1`,
   * so it needs at least two elements.
   */
  method MeanVar(x: array<int>, len: int) returns (mu: int, variance: nat)
    requires 2 <= len <= x.Length
    ensures mu == Mean(x[..len]) && variance == Variance(x[..len])
  {
    ghost var xs := x[..len];
    mu := 0;
    var idx := 0;
    while idx < len
      invariant 0 <= idx <= len && mu == Sum(xs[..idx])
    {
      SumStep(xs, idx);
      mu := mu + x[idx];
      idx := idx + 1;
    }
    assert xs[..len] == xs;
    mu := CDiv(mu, len);
    variance := 0;
    idx := 0;
    while idx < len
      invariant 0 <= idx <= len && variance == SquaredDeviations(xs[..idx], mu)
    {
      SquaredDeviationsStep(xs, mu, idx);
      var d := x[idx] - mu;
      variance := variance + Square(d);
      idx := idx + 1;
    }
    assert xs[..len] == xs;
    QuotientNat(variance, len - 1);
    variance := variance / (len - 1);
  }

  /** The mean is the sum divided by the count, truncated: it is off by less than one element's share. */
  lemma MeanTruncates(xs: seq<int>)
    requires |xs| > 0
    ensures Abs(Sum(xs) - Mean(xs) * |xs|) < |xs|
    ensures Sum(xs) >= 0 ==> Mean(xs) * |xs| <= Sum(xs) < (Mean(xs) + 1) * |xs|
  {
  }

  /** `n` copies of `c`. */
  function Constant(c: int, n: nat): (r: seq<int>)
    ensures |r| == n && forall i :: 0 <= i < n ==> r[i] == c
  {
    seq(n, i => c)
  }

  lemma {:induction false} SumConstant(c: int, n: nat)
    ensures Sum(Constant(c, n)) == c * n
  {
    if n > 0 {
      SumConstant(c, n - 1);
      assert Constant(c, n)[..n - 1] == Constant(c, n - 1);
    }
  }

  lemma {:induction false} NoDeviationFromConstant(c: int, n: nat)
    ensures SquaredDeviations(Constant(c, n), c) == 0
  {
    if n > 0 {
      NoDeviationFromConstant(c, n - 1);
      assert Constant(c, n)[..n - 1] == Constant(c, n - 1);
    }
  }

  /** A constant signal has itself as its mean and no variance. */
  lemma ConstantMeanVar(c: int, n: nat)
    requires n >= 2
    ensures Mean(Constant(c, n)) == c && Variance(Constant(c, n)) == 0
  {
    SumConstant(c, n);
    LemmaModUnique(c * n, n, c, 0);
    if c < 0 {
      LemmaModUnique(-c * n, n, -c, 0);
    }
    NoDeviationFromConstant(c, n);
  }

  // ---------------------------------------------------- masked_mean_var

  /** The outcome of `masked_mean_var`: the two outputs, or the division by zero the code reaches. */
  datatype MeanVarOutcome = MeanVarOut(mu: int, variance: nat) | DivideByZero

  /**
   * `masked_mean_var` as written. The count of accepted elements is an
   * `int16_t`; the mean is divided by it before the check that at least
   * two were accepted, so a mask without ones divides by zero.
   */
  function MaskedMeanVarAsWritten(xs: seq<int>, mask: seq<byte>): MeanVarOutcome
    requires |xs| == |mask|
  {
    var acc := Accepted(xs, mask);
    var n := ToInt16(|acc|);
    if n == 0 then DivideByZero
    else
      var mu := CDiv(Sum(acc), n);
      if n < 2 then MeanVarOut(0, 0)
      else
        QuotientNat(SquaredDeviations(acc, mu), n - 1);
        MeanVarOut(mu, SquaredDeviations(acc, mu) / (n - 1))
  }

  /** `masked_mean_var` with the check moved before the division. */
  function MaskedMeanVarChecked(xs: seq<int>, mask: seq<byte>): (r: MeanVarOutcome)
    requires |xs| == |mask|
    ensures r.MeanVarOut?
  {
    var acc := Accepted(xs, mask);
    var n := ToInt16(|acc|);
    if n < 2 then MeanVarOut(0, 0)
    else
      var mu := CDiv(Sum(acc), n);
      QuotientNat(SquaredDeviations(acc, mu), n - 1);
      MeanVarOut(mu, SquaredDeviations(acc, mu) / (n - 1))
  }

  /** With no element accepted the code as written divides by zero; the checked form gives 0 and 0. */
  lemma MaskedMeanVarRejectsAll(xs: seq<int>)
    requires |xs| > 0
    ensures MaskedMeanVarAsWritten(xs, Zeros(|xs|)) == DivideByZero
    ensures MaskedMeanVarChecked(xs, Zeros(|xs|)) == MeanVarOut(0, 0)
  {
    NothingAccepted(xs);
  }

  function Zeros(n: nat): (r: seq<byte>)
    ensures |r| == n && forall i :: 0 <= i < n ==> r[i] == 0
  {
    seq(n, i => 0)
  }

  lemma {:induction false} NothingAccepted(xs: seq<int>)
    ensures Accepted(xs, Zeros(|xs|)) == []
  {
    if xs != [] {
      NothingAccepted(xs[..|xs| - 1]);
      assert Zeros(|xs|)[..|xs| - 1] == Zeros(|xs| - 1);
    }
  }

  /**
   * Whenever the code as written does not divide by zero, it agrees with
   * the checked form; and below 32768 accepted elements the checked form
   * is the plain mean and variance of the accepted elements, or 0 and 0
   * when fewer than two are accepted.
   */
  lemma MaskedMeanVarIsMeanVarOfAccepted(xs: seq<int>, mask: seq<byte>)
    requires |xs| == |mask|
    ensures MaskedMeanVarAsWritten(xs, mask).MeanVarOut? ==> MaskedMeanVarAsWritten(xs, mask) == MaskedMeanVarChecked(xs, mask)
    ensures var acc := Accepted(xs, mask);
      |acc| < 0x8000 ==>
        MaskedMeanVarChecked(xs, mask) == if |acc| < 2 then MeanVarOut(0, 0) else MeanVarOut(Mean(acc), Variance(acc))
  {
  }

  /**
   * `masked_mean_var(x, mask, len)` as written: `DivideByZero` stands for
   * the division by a zero count.
   */
  method MaskedMeanVar(x: array<int>, mask: array<byte>, len: int) returns (r: MeanVarOutcome)
    requires 0 <= len <= x.Length && len <= mask.Length
    ensures r == MaskedMeanVarAsWritten(x[..len], mask[..len])
  {
    var muClean, numAccepted := MaskedSum(x, mask, len);
    ghost var acc := Accepted(x[..len], mask[..len]);
    if numAccepted == 0 {
      return DivideByZero;
    }
    muClean := CDiv(muClean, numAccepted);
    if numAccepted < 2 {
      return MeanVarOut(0, 0);
    }
    var varClean := MaskedDeviations(x, mask, len, muClean);
    var denom := numAccepted - 1;
    assert denom > 0;
    QuotientNat(varClean, denom);
    var variance: nat := varClean / denom;
    assert MaskedMeanVarAsWritten(x[..len], mask[..len]) == MeanVarOut(CDiv(Sum(acc), numAccepted), SquaredDeviations(acc, muClean) / denom);
    return MeanVarOut(muClean, variance);
  }

  lemma QuotientNat(a: nat, b: int)
    requires b > 0
    ensures a / b >= 0
  {
  }

  /** The first loop of `masked_mean_var`: the sum of the accepted elements and their `int16_t` count. */
  method MaskedSum(x: array<int>, mask: array<byte>, len: int) returns (sum: int, numAccepted: int)
    requires 0 <= len <= x.Length && len <= mask.Length
    ensures sum == Sum(Accepted(x[..len], mask[..len]))
    ensures numAccepted == ToInt16(|Accepted(x[..len], mask[..len])|)
  {
    ghost var xs, ms := x[..len], mask[..len];
    sum, numAccepted := 0, 0;
    var idx := 0;
    while idx < len
      invariant 0 <= idx <= len
      invariant sum == Sum(Accepted(xs[..idx], ms[..idx]))
      invariant numAccepted == ToInt16(|Accepted(xs[..idx], ms[..idx])|)
    {
      AcceptedStep(xs, ms, idx);
      assert xs[idx] == x[idx] && ms[idx] == mask[idx];
      ghost var acc := Accepted(xs[..idx], ms[..idx]);
      if mask[idx] == 1 {
        assert Sum(acc + [x[idx]]) == Sum(acc) + x[idx] by { assert (acc + [x[idx]])[..|acc|] == acc; }
        ToInt16Step(|acc|);
        sum := sum + x[idx];
        numAccepted := ToInt16(numAccepted + 1);
      } else {
        assert acc + [] == acc;
      }
      idx := idx + 1;
    }
    assert xs[..len] == xs && ms[..len] == ms;
  }

  /** The second loop of `masked_mean_var`: squared deviations of the accepted elements. */
  method MaskedDeviations(x: array<int>, mask: array<byte>, len: int, mu: int) returns (v: nat)
    requires 0 <= len <= x.Length && len <= mask.Length
    ensures v == SquaredDeviations(Accepted(x[..len], mask[..len]), mu)
  {
    ghost var xs, ms := x[..len], mask[..len];
    v := 0;
    var idx := 0;
    while idx < len
      invariant 0 <= idx <= len
      invariant v == SquaredDeviations(Accepted(xs[..idx], ms[..idx]), mu)
    {
      AcceptedStep(xs, ms, idx);
      assert xs[idx] == x[idx] && ms[idx] == mask[idx];
      ghost var acc := Accepted(xs[..idx], ms[..idx]);
      var d := x[idx] - mu;
      if mask[idx] == 1 {
        assert (acc + [x[idx]])[..|acc|] == acc;
        v := v + Square(d);
      } else {
        assert acc + [] == acc;
      }
      idx := idx + 1;
    }
    assert xs[..len] == xs && ms[..len] == ms;
  }

  // ----------------------------------------------------- build_var_mask

  /**
   * The variance mask of `xs` for the threshold `thresh` on squared
   * deviations: 1 where the deviation from the mean is within it, 0 elsewhere.
   */
  function VarMask(xs: seq<int>, thresh: nat): (r: seq<byte>)
    requires |xs| >= 2
    ensures |r| == |xs|
    ensures forall i :: 0 <= i < |xs| ==> r[i] == if Square(xs[i] - Mean(xs)) <= thresh then 1 else 0
  {
    seq(|xs|, i requires 0 <= i < |xs| => if Square(xs[i] - Mean(xs)) <= thresh then 1 else 0)
  }

  /** How many entries of a mask are exactly 1. */
  function CountOnes(m: seq<byte>): nat
  {
    if m == [] then 0 else CountOnes(m[..|m| - 1]) + (if m[|m| - 1] == 1 then 1 else 0)
  }

  lemma CountOnesStep(m: seq<byte>, i: nat)
    requires i < |m|
    ensures CountOnes(m[..i + 1]) == CountOnes(m[..i]) + (if m[i] == 1 then 1 else 0)
  {
    assert m[..i + 1][..i] == m[..i];
  }

  /**
   * `build_var_mask(x, len, mask)` with the threshold on squared
   * deviations already computed (the source derives it in floating point
   * from the variance). Fewer than ten elements are all accepted; otherwise
   * the mask is `VarMask` and the result is the number of ones in it.
   */
  method BuildVarMask(x: array<int>, len: int, mask: array<byte>, thresh: nat) returns (numAccepted: int)
    requires 0 <= len <= x.Length && len <= mask.Length
    modifies mask
    ensures mask[len..] == old(mask[len..])
    ensures len < 10 ==> mask[..len] == Ones(len) && numAccepted == len
    ensures len >= 10 ==> mask[..len] == VarMask(x[..len], thresh) && numAccepted == CountOnes(mask[..len])
  {
    if len < 10 {
      forall i | 0 <= i < len {
        mask[i] := 1;
      }
      return len;
    }
    var mu, variance := MeanVar(x, len);
    numAccepted := MarkWithin(x, len, mask, mu, thresh);
    assert mask[..len] == VarMask(x[..len], thresh);
  }

  /** The loop of `build_var_mask`: 1 where the squared deviation from `mu` is within `thresh`, counting the ones. */
  method MarkWithin(x: array<int>, len: int, mask: array<byte>, mu: int, thresh: nat) returns (numAccepted: int)
    requires 0 <= len <= x.Length && len <= mask.Length
    modifies mask
    ensures x[..len] == old(x[..len])
    ensures forall i :: 0 <= i < len ==> mask[i] == if Square(x[i] - mu) <= thresh then 1 else 0
    ensures mask[len..] == old(mask[len..])
    ensures numAccepted == CountOnes(mask[..len])
  {
    ghost var xs := x[..len];
    numAccepted := 0;
    var idx := 0;
    while idx < len
      invariant 0 <= idx <= len
      invariant x[..len] == xs
      invariant forall i :: 0 <= i < idx ==> mask[i] == if Square(xs[i] - mu) <= thresh then 1 else 0
      invariant forall i :: idx <= i < mask.Length ==> mask[i] == old(mask[i])
      invariant numAccepted == CountOnes(mask[..idx])
    {
      var d := x[idx] - mu;
      if Square(d) <= thresh {
        mask[idx] := 1;
        numAccepted := numAccepted + 1;
      } else {
        mask[idx] := 0;
      }
      CountOnesStep(mask[..], idx);
      assert mask[..][..idx + 1] == mask[..idx + 1] && mask[..][..idx] == mask[..idx];
      idx := idx + 1;
    }
  }

  function Ones(n: nat): (r: seq<byte>)
    ensures |r| == n && forall i :: 0 <= i < n ==> r[i] == 1
  {
    seq(n, i => 1)
  }

  /** A mask of ones counts every element. */
  lemma {:induction false} CountOnesOnes(n: nat)
    ensures CountOnes(Ones(n)) == n
  {
    if n > 0 {
      CountOnesOnes(n - 1);
      assert Ones(n)[..n - 1] == Ones(n - 1);
    }
  }

  /** The mask accepts exactly the elements within the threshold, and they are what `Accepted` keeps. */
  lemma {:induction false} VarMaskAccepts(xs: seq<int>, m: seq<byte>, mu: int, thresh: nat)
    requires |xs| == |m|
    requires forall i :: 0 <= i < |xs| ==> m[i] == if Square(xs[i] - mu) <= thresh then 1 else 0
    ensures |Accepted(xs, m)| == CountOnes(m)
    ensures forall i :: 0 <= i < |Accepted(xs, m)| ==> Square(Accepted(xs, m)[i] - mu) <= thresh
  {
    if xs != [] {
      var n := |xs| - 1;
      var pre, last := Accepted(xs[..n], m[..n]), if m[n] == 1 then [xs[n]] else [];
      VarMaskAccepts(xs[..n], m[..n], mu, thresh);
      assert Accepted(xs, m) == pre + last;
      assert m[n] == 1 ==> Square(xs[n] - mu) <= thresh;
      forall i | 0 <= i < |pre + last| ensures Square((pre + last)[i] - mu) <= thresh {
        if i < |pre| {
          assert (pre + last)[i] == pre[i];
        }
      }
    }
  }

  // ------------------------------------------------------- sort_indexes

  /** Index `i` sorts before index `j`: a smaller value, or an equal value and a smaller index. */
  predicate Before(v: seq<int>, i: nat, j: nat)
    requires i < |v| && j < |v|
  {
    v[i] < v[j] || (v[i] == v[j] && i < j)
  }

  predicate InRange(v: seq<int>, s: seq<nat>)
  {
    forall k :: 0 <= k < |s| ==> s[k] < |v|
  }

  /** Every index sorts before every later one: ordered by value, equal values in index order. */
  predicate StablySorted(v: seq<int>, s: seq<nat>)
    requires InRange(v, s)
  {
    forall a, b :: 0 <= a < b < |s| ==> Before(v, s[a], s[b])
  }

  /** Insert index `k` after every index that sorts before it. */
  function InsertIndex(v: seq<int>, s: seq<nat>, k: nat): (r: seq<nat>)
    requires k < |v| && InRange(v, s)
    ensures |r| == |s| + 1 && InRange(v, r)
    ensures forall x :: x in r <==> x in s || x == k
  {
    if s == [] then [k]
    else if Before(v, k, s[0]) then [k] + s
    else [s[0]] + InsertIndex(v, s[1..], k)
  }

  /** `std::stable_sort` of the indexes `0 .. n-1` by value: each index inserted in turn. */
  function SortUpTo(v: seq<int>, n: nat): (r: seq<nat>)
    requires n <= |v|
    ensures |r| == n && InRange(v, r)
    ensures forall x: nat :: x in r <==> x < n
  {
    if n == 0 then [] else InsertIndex(v, SortUpTo(v, n - 1), n - 1)
  }

  /** `sort_indexes(v)`. */
  function SortIndexes(v: seq<int>): (r: seq<nat>)
    ensures |r| == |v| && InRange(v, r)
    ensures forall x: nat :: x in r <==> x < |v|
  {
    SortUpTo(v, |v|)
  }

  lemma {:induction false} InsertSorted(v: seq<int>, s: seq<nat>, k: nat)
    requires k < |v| && InRange(v, s) && StablySorted(v, s) && k !in s
    ensures StablySorted(v, InsertIndex(v, s, k))
  {
    if s != [] && !Before(v, k, s[0]) {
      assert StablySorted(v, s[1..]) by {
        forall a, b | 0 <= a < b < |s[1..]| ensures Before(v, s[1..][a], s[1..][b]) {
          assert Before(v, s[a + 1], s[b + 1]);
        }
      }
      InsertSorted(v, s[1..], k);
      var t := InsertIndex(v, s[1..], k);
      assert Before(v, s[0], k);
      forall x | x in t ensures Before(v, s[0], x) {
        if x != k {
          var j :| 0 <= j < |s[1..]| && s[1..][j] == x;
          assert Before(v, s[0], s[j + 1]);
        }
      }
      var r := [s[0]] + t;
      forall a, b | 0 <= a < b < |r| ensures Before(v, r[a], r[b]) {
        if a == 0 {
          assert r[b] == t[b - 1] && t[b - 1] in t;
        } else {
          assert r[a] == t[a - 1] && r[b] == t[b - 1];
        }
      }
    } else if s != [] {
      var r := [k] + s;
      forall a, b | 0 <= a < b < |r| ensures Before(v, r[a], r[b]) {
        if a == 0 {
          assert r[b] == s[b - 1];
          if b > 1 {
            assert Before(v, s[0], s[b - 1]);
          }
        } else {
          assert r[a] == s[a - 1] && r[b] == s[b - 1];
        }
      }
    }
  }

  lemma {:induction false} SortUpToSorted(v: seq<int>, n: nat)
    requires n <= |v|
    ensures StablySorted(v, SortUpTo(v, n))
  {
    if n > 0 {
      SortUpToSorted(v, n - 1);
      InsertSorted(v, SortUpTo(v, n - 1), n - 1);
    }
  }

  /**
   * `sort_indexes` returns every index `0 .. |v|-1` exactly once, ordered
   * by value, with equal values in ascending index order.
   */
  lemma SortIndexesStable(v: seq<int>)
    ensures var r := SortIndexes(v);
      && |r| == |v|
      && (forall x: nat :: x in r <==> x < |v|)
      && StablySorted(v, r)
      && (forall a, b :: 0 <= a < b < |r| ==> r[a] != r[b])
  {
    SortUpToSorted(v, |v|);
  }

  // ----------------------------------------------------- build_min_mask

  /**
   * `build_min_mask(x, len, mask)` with the count `k` of kept elements
   * already computed (the source takes it as a proportion of `len` in
   * floating point): zero the mask, then set a 1 at each of the first `k`
   * sorted indexes.
   */
  method BuildMinMask(x: array<int>, len: int, mask: array<byte>, k: int)
    requires 0 <= k <= len <= x.Length && len <= mask.Length
    modifies mask
    ensures mask[len..] == old(mask[len..])
    ensures forall i :: 0 <= i < len ==> mask[i] == if i in SortIndexes(x[..len])[..k] then 1 else 0
  {
    var idxs := SortIndexes(x[..len]);
    forall i | 0 <= i < len {
      mask[i] := 0;
    }
    assert x[..len] == old(x[..len]);
    var idx := 0;
    while idx < k
      invariant 0 <= idx <= k
      invariant mask[len..] == old(mask[len..])
      invariant forall i :: 0 <= i < len ==> mask[i] == if i in idxs[..idx] then 1 else 0
    {
      assert idxs[..idx + 1] == idxs[..idx] + [idxs[idx]];
      mask[idxs[idx]] := 1;
      idx := idx + 1;
    }
    assert idxs == SortIndexes(x[..len]);
  }

  /** The minimum mask keeps the smallest values: every kept value is at most every dropped one. */
  lemma MinMaskKeepsSmallest(v: seq<int>, k: nat, i: nat, j: nat)
    requires k <= |v| && i < |v| && j < |v|
    requires i in SortIndexes(v)[..k] && j !in SortIndexes(v)[..k]
    ensures v[i] <= v[j]
  {
    var r := SortIndexes(v);
    SortIndexesStable(v);
    var a :| 0 <= a < k && r[a] == i;
    assert j in r;
    var b :| 0 <= b < |r| && r[b] == j;
    assert Before(v, r[a], r[b]);
  }

  // ------------------------------------------------------ diff, subtract

  /** Consecutive differences: `x[i] - x[i+1]`, none for fewer than two values. */
  function Diff(xs: seq<int>): (r: seq<int>)
    ensures |r| == if xs == [] then 0 else |xs| - 1
    ensures forall i :: 0 <= i < |r| ==> r[i] == xs[i] - xs[i + 1]
  {
    if xs == [] then [] else seq(|xs| - 1, i requires 0 <= i < |xs| - 1 => xs[i] - xs[i + 1])
  }

  /**
   * `diff(x, len, y)`: `y[i] = x[i] - x[i+1]` for `i < len - 1`; for `len`
   * of 1 or less the loop does not run and `y` is left alone. The loop reads
   * `x[i+1]` before writing `y[i+1]`, so it also works in place.
   */
  method DiffInto(x: array<int>, len: int, y: array<int>)
    requires len <= x.Length && (len <= 1 || len - 1 <= y.Length)
    modifies y
    ensures len >= 1 ==> y[..len - 1] == Diff(old(x[..len])) && y[len - 1..] == old(y[len - 1..])
    ensures len <= 1 ==> y[..] == old(y[..])
  {
    ghost var xs := x[..if len < 0 then 0 else len];
    var idx := 0;
    while idx < len - 1
      invariant 0 <= idx && (idx == 0 || idx <= len - 1)
      invariant forall i :: 0 <= i < idx ==> y[i] == xs[i] - xs[i + 1]
      invariant forall i :: idx <= i < |xs| ==> x[i] == xs[i]
      invariant forall i :: idx <= i < y.Length ==> y[i] == old(y[i])
    {
      y[idx] := x[idx] - x[idx + 1];
      idx := idx + 1;
    }
    if len >= 1 {
      assert y[..len - 1] == Diff(xs);
      assert y[len - 1..] == old(y[len - 1..]);
    } else {
      assert y[..] == old(y[..]);
    }
  }

  /** The differences telescope: summing the first `j` gives `x[0] - x[j]`. */
  lemma {:induction false} DiffTelescopes(xs: seq<int>, j: nat)
    requires j < |xs|
    ensures Sum(Diff(xs)[..j]) == xs[0] - xs[j]
  {
    if j > 0 {
      DiffTelescopes(xs, j - 1);
      SumStep(Diff(xs), j - 1);
    }
  }

  /** Element-wise difference `a[i] - b[i]`. */
  function Subtract(a: seq<int>, b: seq<int>): (r: seq<int>)
    requires |a| == |b|
    ensures |r| == |a| && forall i :: 0 <= i < |r| ==> r[i] == a[i] - b[i]
  {
    seq(|a|, i requires 0 <= i < |a| => a[i] - b[i])
  }

  /**
   * `subtract(a, b, len, y)`: `y[i] = a[i] - b[i]` for `i < len`; `y` may be
   * `a` or `b`. A negative `len` writes nothing.
   */
  method SubtractInto(a: array<int>, b: array<int>, len: int, y: array<int>)
    requires len <= a.Length && len <= b.Length && len <= y.Length
    modifies y
    ensures len >= 0 ==> y[..len] == Subtract(old(a[..len]), old(b[..len])) && y[len..] == old(y[len..])
    ensures len <= 0 ==> y[..] == old(y[..])
  {
    ghost var n := if len < 0 then 0 else len;
    ghost var as_, bs := a[..n], b[..n];
    var idx := 0;
    while idx < len
      invariant 0 <= idx <= n
      invariant forall i :: 0 <= i < idx ==> y[i] == as_[i] - bs[i]
      invariant forall i :: idx <= i < n ==> a[i] == as_[i] && b[i] == bs[i]
      invariant forall i :: idx <= i < y.Length ==> y[i] == old(y[i])
    {
      y[idx] := a[idx] - b[idx];
      idx := idx + 1;
    }
    assert y[..n] == Subtract(as_, bs);
    assert y[n..] == old(y[n..]);
  }

  /** Subtracting sums: the sum of the differences is the difference of the sums. */
  lemma {:induction false} SumSubtract(a: seq<int>, b: seq<int>)
    requires |a| == |b|
    ensures Sum(Subtract(a, b)) == Sum(a) - Sum(b)
  {
    if a != [] {
      var n := |a| - 1;
      SumSubtract(a[..n], b[..n]);
      assert Subtract(a, b)[..n] == Subtract(a[..n], b[..n]);
    }
  }
}
