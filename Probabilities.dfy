/** Probabilities of a frequency table and inverse-CDF sampling from it. The source computes
    with doubles; here `p` and `cp` are exact reals. */
module Probabilities {
  import opened Entries

  /** The sum of the counts of a table. */
  function Total(es: seq<Entry>): int
  {
    if es == [] then 0 else Total(es[..|es| - 1]) + es[|es| - 1].count
  }

  /** The fraction `a / t` of a positive total `t`, as an exact real. */
  function Share(a: int, t: int): real
    requires t > 0
  {
    a as real / t as real
  }

  /** Shares of one total add up like the amounts they are shares of. */
  lemma ShareAdd(a: int, b: int, t: int)
    requires t > 0
    ensures Share(a, t) + Share(b, t) == Share(a + b, t)
  {
    var x, y, z := a as real, b as real, t as real;
    assert x / z + y / z == (x + y) / z;
  }

  /** Shares of amounts in (0, t] are in (0, 1], and larger amounts have larger shares. */
  lemma ShareIncreasing(a: int, b: int, t: int)
    requires 0 < a < b <= t
    ensures 0.0 < Share(a, t) < Share(b, t) <= 1.0
  {
    var x, y, z := a as real, b as real, t as real;
    assert y / z - x / z == (y - x) / z;
  }

  /** A table whose probabilities are set: each `p` is the record's share of the total count,
      the first `cp` is its own `p`, and each later `cp` adds its `p` to the previous `cp`. */
  ghost predicate Finalized(es: seq<Entry>)
  {
    |es| > 0 && Positive(es) && Total(es) > 0 &&
    (forall i :: 0 <= i < |es| ==> es[i].p == Share(es[i].count, Total(es))) &&
    es[0].cp == es[0].p &&
    (forall i :: 0 < i < |es| ==> RunningSum(es, i))
  }

  /** The `cp` at `i` adds the `p` at `i` to the `cp` before it. */
  ghost predicate RunningSum(es: seq<Entry>, i: int)
    requires 0 < i < |es|
  {
    es[i].cp == es[i - 1].cp + es[i].p
  }

  /** Extending a prefix by one record adds that record's count. */
  lemma TotalStep(es: seq<Entry>, k: int)
    requires 0 <= k < |es|
    ensures Total(es[..k + 1]) == Total(es[..k]) + es[k].count
  {
    assert es[..k + 1][..k] == es[..k];
  }

  /** A table of positive counts has a total that exceeds each proper prefix's total, and
      is positive when the table is not empty. */
  lemma TotalBounds(es: seq<Entry>, k: int)
    requires Positive(es) && 0 <= k <= |es|
    ensures 0 <= Total(es[..k]) <= Total(es)
    ensures k < |es| ==> Total(es[..k]) < Total(es)
    ensures |es| > 0 ==> Total(es) >= 1
  {
    assert es[..|es|] == es;
    assert es[..0] == [];
    if k < |es| {
      PrefixGrows(es, k, |es|);
    }
    if 0 < k {
      PrefixGrows(es, 0, k);
    }
  }

  /** Tables with the same counts have the same total. */
  lemma {:induction false} TotalKept(before: seq<Entry>, after: seq<Entry>)
    requires CountsKept(before, after)
    ensures Total(after) == Total(before)
  {
    if before != [] {
      var n := |before| - 1;
      TotalKept(before[..n], after[..n]);
    }
  }

  /** In a finalized table, `cp` at `i` is the share of the counts up to and including `i`. */
  lemma {:induction false} CumulativeShare(es: seq<Entry>, i: int)
    requires Finalized(es) && 0 <= i < |es|
    ensures es[i].cp == Share(Total(es[..i + 1]), Total(es))
  {
    TotalStep(es, i);
    if i == 0 {
      assert es[..0] == [];
    } else {
      CumulativeShare(es, i - 1);
      assert RunningSum(es, i);
      ShareAdd(Total(es[..i]), es[i].count, Total(es));
    }
  }

  /** The last `cp` of a finalized table is exactly one, so the probabilities sum to one. */
  lemma LastCumulativeIsOne(es: seq<Entry>)
    requires Finalized(es)
    ensures es[|es| - 1].cp == 1.0
  {
    CumulativeShare(es, |es| - 1);
    assert es[..|es|] == es;
    var t := Total(es) as real;
    assert t / t == 1.0;
  }

  /** The `cp` values of a finalized table strictly increase along the list and lie in (0, 1]. */
  lemma CumulativeIncreasing(es: seq<Entry>, i: int, j: int)
    requires Finalized(es) && 0 <= i < j < |es|
    ensures 0.0 < es[i].cp < es[j].cp <= 1.0
  {
    CumulativeShare(es, i);
    CumulativeShare(es, j);
    PrefixGrows(es, 0, i + 1);
    PrefixGrows(es, i + 1, j + 1);
    TotalBounds(es, j + 1);
    assert es[..0] == [];
    ShareIncreasing(Total(es[..i + 1]), Total(es[..j + 1]), Total(es));
  }

  /** The table with each record's `p` set to its share of `t`. */
  function WithShares(es: seq<Entry>, t: int): (r: seq<Entry>)
    requires t > 0
  {
    seq(|es|, j requires 0 <= j < |es| => es[j].(p := Share(es[j].count, t)))
  }

  /** The sum of the `p`s of the records up to and including `j`. */
  function PrefixSum(es: seq<Entry>, j: int): real
    requires 0 <= j < |es|
  {
    if j == 0 then es[0].p else PrefixSum(es, j - 1) + es[j].p
  }

  /** The table with each record's `cp` set to the sum of the `p`s up to it. */
  function WithRunningSums(es: seq<Entry>): (r: seq<Entry>)
  {
    seq(|es|, j requires 0 <= j < |es| => es[j].(cp := PrefixSum(es, j)))
  }

  /** The probabilities the finalization computes for a table of positive counts: the shares
      of the total count, then their running sums. */
  function Calculated(es: seq<Entry>): seq<Entry>
    requires |es| > 0 && Positive(es)
  {
    TotalBounds(es, |es|);
    WithRunningSums(WithShares(es, Total(es)))
  }

  /** Computing the probabilities of a table keeps its characters and counts. */
  lemma CalculatedKeepsCounts(es: seq<Entry>)
    requires |es| > 0 && Positive(es)
    ensures CountsKept(es, Calculated(es))
  {
    TotalBounds(es, |es|);
    var fs := Calculated(es);
    forall i | 0 <= i < |es|
      ensures fs[i].chr == es[i].chr && fs[i].count == es[i].count
    {
    }
  }

  /** Computing the probabilities of a non-empty table of positive counts leaves it
      finalized. */
  lemma CalculatedIsFinalized(es: seq<Entry>)
    requires |es| > 0 && Positive(es)
    ensures CountsKept(es, Calculated(es)) && Finalized(Calculated(es))
  {
    TotalBounds(es, |es|);
    var fs := Calculated(es);
    CalculatedKeepsCounts(es);
    TotalKept(es, fs);
    forall i | 0 < i < |fs|
      ensures RunningSum(fs, i)
    {
      CalculatedRunningSum(es, i);
    }
  }

  /** In a computed table, each `cp` after the first adds its `p` to the previous `cp`. */
  lemma CalculatedRunningSum(es: seq<Entry>, i: int)
    requires |es| > 0 && Positive(es) && 0 < i < |es|
    ensures RunningSum(Calculated(es), i)
  {
    TotalBounds(es, |es|);
    var gs := WithShares(es, Total(es));
    assert Calculated(es)[i].cp == PrefixSum(gs, i - 1) + gs[i].p;
  }

  /** Longer prefixes of a table with positive counts have larger totals. */
  lemma {:induction false} PrefixGrows(es: seq<Entry>, k: int, m: int)
    requires Positive(es) && 0 <= k < m <= |es|
    ensures Total(es[..k]) < Total(es[..m])
  {
    TotalStep(es, m - 1);
    if k < m - 1 {
      PrefixGrows(es, k, m - 1);
    }
  }

  /** Index of the first record whose `cp` reaches `r`, or `|es|` when none does. */
  function FirstReaching(es: seq<Entry>, r: real): (k: int)
    ensures 0 <= k <= |es|
    ensures forall i :: 0 <= i < k ==> es[i].cp < r
    ensures k < |es| ==> es[k].cp >= r
  {
    if es == [] then 0
    else if es[0].cp >= r then 0
    else 1 + FirstReaching(es[1..], r)
  }

  /** The character inverse-CDF sampling draws with `r`; 'X' when no `cp` reaches `r`. */
  function Sample(es: seq<Entry>, r: real): char
  {
    var k := FirstReaching(es, r);
    if k < |es| then es[k].chr else 'X'
  }

  /** For a finalized table and a draw in [0, 1), some `cp` reaches the draw, so the sample
      is the character of a record and the 'X' fallback is never taken. */
  lemma SampleHits(es: seq<Entry>, r: real)
    requires Finalized(es) && 0.0 <= r < 1.0
    ensures FirstReaching(es, r) < |es|
    ensures Sample(es, r) == es[FirstReaching(es, r)].chr
  {
    LastCumulativeIsOne(es);
  }

  /** Inverse-CDF sampling from a finalized table draws the record at `k` exactly for the
      draws in [0, cp[0]] for k = 0 and in (cp[k-1], cp[k]] for k > 0, an interval whose width is its `p`. */
  lemma SampleInterval(es: seq<Entry>, r: real, k: int)
    requires Finalized(es) && 0 <= k < |es| && 0.0 <= r < 1.0
    ensures FirstReaching(es, r) == k <==> (k == 0 || es[k - 1].cp < r) && r <= es[k].cp
  {
    var f := FirstReaching(es, r);
    SampleHits(es, r);
    if (k == 0 || es[k - 1].cp < r) && r <= es[k].cp && f < k - 1 {
      CumulativeIncreasing(es, f, k - 1);
    }
  }
}
