/**
 The split loop of `analytics-engine/scripts/compute_library_pbo.py` (combinatorially symmetric
 cross-validation). Scoring is an oracle: which strategy is best on the in-sample rows, and what
 rank a strategy has on the out-of-sample rows.
 */
module Cscv {
  import opened Quantiles
  import opened Wrappers

  /** Block indices from `lo` up to `hi`. */
  function Range(lo: nat, hi: nat): (r: set<nat>)
    ensures forall i :: i in r <==> lo <= i < hi
  {
    if lo >= hi then {} else Range(lo, hi - 1) + {hi - 1}
  }

  function WithEach(i: nat, sets: seq<set<nat>>): seq<set<nat>> {
    seq(|sets|, p requires 0 <= p < |sets| => sets[p] + {i})
  }

  /** `combinations(range(lo, hi), k)` in lexicographic order: first those with `lo`, then the rest. */
  function Combinations(lo: nat, hi: nat, k: nat): seq<set<nat>>
    requires lo <= hi
    decreases hi - lo
  {
    if k == 0 then [{}]
    else if lo == hi then []
    else WithEach(lo, Combinations(lo + 1, hi, k - 1)) + Combinations(lo + 1, hi, k)
  }

  /** Pascal's rule. */
  function Choose(n: nat, k: nat): nat {
    if k == 0 then 1 else if n == 0 then 0 else Choose(n - 1, k - 1) + Choose(n - 1, k)
  }

  lemma {:induction false} CombinationsCount(lo: nat, hi: nat, k: nat)
    requires lo <= hi
    ensures |Combinations(lo, hi, k)| == Choose(hi - lo, k)
    decreases hi - lo
  {
    if k > 0 && lo < hi {
      CombinationsCount(lo + 1, hi, k - 1);
      CombinationsCount(lo + 1, hi, k);
    }
  }

  /** The two runs a list of combinations consists of: with `lo`, and without. */
  lemma {:induction false} CombinationsAt(lo: nat, hi: nat, k: nat, p: nat)
    requires lo <= hi && p < |Combinations(lo, hi, k)| && k > 0
    ensures lo < hi
    ensures var a, b := Combinations(lo + 1, hi, k - 1), Combinations(lo + 1, hi, k);
            && |Combinations(lo, hi, k)| == |a| + |b|
            && Combinations(lo, hi, k)[p] == if p < |a| then a[p] + {lo} else b[p - |a|]
  {
  }

  lemma {:induction false} CombinationsNone(lo: nat, hi: nat)
    requires lo <= hi
    ensures Combinations(lo, hi, 0) == [{}]
  {
  }

  lemma {:induction false} CombinationsLen(lo: nat, hi: nat, k: nat)
    requires lo < hi && k > 0
    ensures |Combinations(lo, hi, k)| == |Combinations(lo + 1, hi, k - 1)| + |Combinations(lo + 1, hi, k)|
  {
  }

  lemma {:induction false} CombinationsSound(lo: nat, hi: nat, k: nat, p: nat)
    requires lo <= hi && p < |Combinations(lo, hi, k)|
    ensures Combinations(lo, hi, k)[p] <= Range(lo, hi) && |Combinations(lo, hi, k)[p]| == k
    decreases hi - lo
  {
    hide Combinations, Range;
    if k == 0 {
      CombinationsNone(lo, hi);
    } else {
      CombinationsAt(lo, hi, k, p);
      var a := Combinations(lo + 1, hi, k - 1);
      if p < |a| {
        CombinationsSound(lo + 1, hi, k - 1, p);
        assert lo !in a[p];
      } else {
        CombinationsSound(lo + 1, hi, k, p - |a|);
      }
    }
  }

  lemma {:induction false} CombinationsDistinct(lo: nat, hi: nat, k: nat, p: nat, q: nat)
    requires lo <= hi && p < q < |Combinations(lo, hi, k)|
    ensures Combinations(lo, hi, k)[p] != Combinations(lo, hi, k)[q]
    decreases hi - lo
  {
    hide Combinations, Range;
    if k == 0 {
      CombinationsNone(lo, hi);
    } else {
      CombinationsAt(lo, hi, k, p);
      CombinationsAt(lo, hi, k, q);
      var a := Combinations(lo + 1, hi, k - 1);
      if q < |a| {
        CombinationsDistinct(lo + 1, hi, k - 1, p, q);
        CombinationsSound(lo + 1, hi, k - 1, p);
        CombinationsSound(lo + 1, hi, k - 1, q);
        AddDistinct(lo, a[p], a[q]);
      } else if p >= |a| {
        CombinationsDistinct(lo + 1, hi, k, p - |a|, q - |a|);
      } else {
        CombinationsSound(lo + 1, hi, k, q - |a|);
        assert lo in Combinations(lo, hi, k)[p];
      }
    }
  }

  lemma AddDistinct(i: nat, a: set<nat>, b: set<nat>)
    requires i !in a && i !in b && a != b
    ensures a + {i} != b + {i}
  {
    assert (a + {i}) - {i} == a;
    assert (b + {i}) - {i} == b;
  }

  lemma RangeSize(lo: nat, hi: nat)
    requires lo <= hi
    ensures |Range(lo, hi)| == hi - lo
    decreases hi - lo
  {
    if lo < hi {
      RangeSize(lo + 1, hi);
      assert Range(lo, hi) == Range(lo + 1, hi) + {lo};
    } else {
      assert Range(lo, hi) == {};
    }
  }

  /** Every `k`-subset is visited: the index at which it comes up. */
  lemma {:induction false} CombinationsComplete(lo: nat, hi: nat, k: nat, a: set<nat>) returns (p: nat)
    requires lo <= hi && a <= Range(lo, hi) && |a| == k
    ensures p < |Combinations(lo, hi, k)| && Combinations(lo, hi, k)[p] == a
    decreases hi - lo
  {
    hide Combinations, Range;
    if k == 0 {
      CombinationsNone(lo, hi);
      p := 0;
    } else {
      var x :| x in a;
      CombinationsLen(lo, hi, k);
      if lo in a {
        p := CombinationsComplete(lo + 1, hi, k - 1, a - {lo});
        CombinationsAt(lo, hi, k, p);
        assert (a - {lo}) + {lo} == a;
      } else {
        p := CombinationsComplete(lo + 1, hi, k, a);
        p := p + |Combinations(lo + 1, hi, k - 1)|;
        CombinationsAt(lo, hi, k, p);
      }
    }
  }

  /** Exactly once: each half of the blocks is in-sample in one and only one split. */
  lemma EachHalfOnce(s: nat, a: set<nat>)
    requires a <= Range(0, s) && |a| == s / 2
    ensures exists p :: 0 <= p < |Combinations(0, s, s / 2)| && Combinations(0, s, s / 2)[p] == a
    ensures var c := Combinations(0, s, s / 2);
            forall p, q :: 0 <= p < |c| && 0 <= q < |c| && c[p] == a && c[q] == a ==> p == q
  {
    var c := Combinations(0, s, s / 2);
    var at := CombinationsComplete(0, s, s / 2, a);
    forall p, q | 0 <= p < |c| && 0 <= q < |c| && c[p] == a && c[q] == a ensures p == q {
      if p < q { CombinationsDistinct(0, s, s / 2, p, q); }
      if q < p { CombinationsDistinct(0, s, s / 2, q, p); }
    }
  }

  // ----- rows -----

  /** The block a row falls in; with no rows to a block there is no row to ask about. */
  function BlockOf(r: nat, m: nat): nat {
    if m == 0 then 0 else r / m
  }

  /** The rows of the blocks in `a`, `m` rows to a block. */
  function Rows(a: set<nat>, s: nat, m: nat): set<nat> {
    set r: nat | 0 <= r < s * m && BlockOf(r, m) in a
  }

  lemma MulMonotone(a: nat, b: nat, m: nat)
    requires a <= b
    ensures a * m <= b * m
  {
    assert b * m == a * m + (b - a) * m;
  }

  lemma RowOfBlock(r: nat, i: nat, m: nat)
    requires m > 0
    ensures BlockOf(r, m) == i <==> i * m <= r < (i + 1) * m
  {
    var q := r / m;
    assert q * m <= r < (q + 1) * m;
    if q < i { MulMonotone(q + 1, i, m); }
    if q > i { MulMonotone(i + 1, q, m); }
  }

  lemma InBlock(r: nat, i: nat, s: nat, m: nat)
    requires i < s
    ensures r in Rows({i}, s, m) <==> i * m <= r < i * m + m
  {
    MulMonotone(i + 1, s, m);
    if m > 0 { RowOfBlock(r, i, m); }
    assert (i + 1) * m == i * m + m;
  }

  /** The slice of rows a block is. */
  lemma {:induction false} BlockRows(i: nat, s: nat, m: nat)
    requires i < s
    ensures Rows({i}, s, m) == Range(i * m, i * m + m) && |Rows({i}, s, m)| == m
  {
    hide Rows, Range;
    forall r: nat ensures r in Rows({i}, s, m) <==> r in Range(i * m, i * m + m) {
      InBlock(r, i, s, m);
    }
    RangeSize(i * m, i * m + m);
  }

  lemma RowsOfPart(a: set<nat>, i: nat, s: nat, m: nat)
    requires i in a
    ensures Rows(a, s, m) == Rows(a - {i}, s, m) + Rows({i}, s, m)
    ensures Rows(a - {i}, s, m) !! Rows({i}, s, m)
    ensures |Rows(a, s, m)| == |Rows(a - {i}, s, m)| + |Rows({i}, s, m)|
  {
  }

  lemma OneMore(k: nat, m: nat)
    requires k > 0
    ensures (k - 1) * m + m == k * m
  {
  }

  lemma {:induction false} RowsSize(a: set<nat>, s: nat, m: nat, k: nat)
    requires a <= Range(0, s) && k == |a|
    ensures |Rows(a, s, m)| == k * m
    decreases k
  {
    if a == {} {
      assert Rows(a, s, m) == {};
    } else {
      hide Rows, Range;
      var i :| i in a;
      RowsOfPart(a, i, s, m);
      RowsSize(a - {i}, s, m, k - 1);
      BlockRows(i, s, m);
      OneMore(k, m);
    }
  }

  lemma RowInRange(r: nat, s: nat, m: nat)
    requires r < s * m
    ensures BlockOf(r, m) < s
  {
    if m > 0 {
      var q := BlockOf(r, m);
      RowOfBlock(r, q, m);
      if q >= s { MulMonotone(s, q, m); }
    }
  }

  lemma RowsPartition(a: set<nat>, b: set<nat>, s: nat, m: nat)
    requires a !! b && a + b == Range(0, s)
    ensures Rows(a, s, m) !! Rows(b, s, m)
    ensures Rows(a, s, m) + Rows(b, s, m) == Range(0, s * m)
  {
    hide Range, BlockOf;
    forall r: nat ensures r in Rows(a, s, m) + Rows(b, s, m) <==> r in Range(0, s * m) {
      if r < s * m { RowInRange(r, s, m); }
    }
  }

  lemma OtherHalf(a: set<nat>, s: nat, h: nat)
    requires a <= Range(0, s) && |a| == h
    ensures a !! (Range(0, s) - a) && a + (Range(0, s) - a) == Range(0, s)
    ensures |Range(0, s) - a| == s - h
  {
    hide Range;
    RangeSize(0, s);
    var b := Range(0, s) - a;
    assert a + b == Range(0, s);
  }

  /** In-sample and out-of-sample split the rows used into two disjoint halves, equal for an even `s`. */
  lemma SplitPartitionsRows(s: nat, m: nat, p: nat)
    requires p < |Combinations(0, s, s / 2)|
    ensures var a := Combinations(0, s, s / 2)[p];
            var b := Range(0, s) - a;
            && Rows(a, s, m) !! Rows(b, s, m)
            && Rows(a, s, m) + Rows(b, s, m) == Range(0, s * m)
            && |Rows(a, s, m)| == s / 2 * m
            && |Rows(b, s, m)| == (s - s / 2) * m
  {
    hide Combinations, Rows, Range;
    CombinationsSound(0, s, s / 2, p);
    var a := Combinations(0, s, s / 2)[p];
    var h := s / 2;
    OtherHalf(a, s, h);
    RowsSize(a, s, m, h);
    RowsSize(Range(0, s) - a, s, m, s - h);
    RowsPartition(a, Range(0, s) - a, s, m);
  }

  // ----- the loop -----

  /** How the two halves of a split are scored; ranks ascend from 1 to `n`. */
  datatype Scores = Scores(
    best: set<nat> -> nat,             // index of the in-sample best, given the in-sample rows
    rank: (set<nat>, nat) -> nat)      // ascending out-of-sample rank of a strategy

  ghost predicate Legal(o: Scores, n: nat) {
    && (forall rows :: o.best(rows) < n)
    && (forall rows, k :: 1 <= o.rank(rows, k) <= n)
  }

  /** The logarithm, as far as the loop depends on it: its sign. */
  ghost predicate IsLog(log: real -> real) {
    forall x :: x > 0.0 ==> (log(x) <= 0.0 <==> x <= 1.0)
  }

  const CLIP := 0.000000001

  function Clip(x: real): real {
    if x < CLIP then CLIP else if x > 1.0 - CLIP then 1.0 - CLIP else x
  }

  function Logit(log: real -> real, rank: nat, n: nat): real
    requires n > 0
  {
    var omega := Clip(rank as real / n as real);
    log(omega / (1.0 - omega))
  }

  /** The logit is only a sign test: non-positive exactly when the rank is in the lower half. */
  lemma LogitSign(log: real -> real, rank: nat, n: nat)
    requires IsLog(log) && 1 <= rank <= n
    ensures Logit(log, rank, n) <= 0.0 <==> 2 * rank <= n
  {
    var q := rank as real / n as real;
    var omega := Clip(q);
    assert q * n as real == rank as real;
    HalfQuotient(q, rank, n);
    Odds(omega);
  }

  lemma HalfQuotient(q: real, rank: nat, n: nat)
    requires n > 0 && q * n as real == rank as real
    ensures q <= 0.5 <==> 2 * rank <= n
  {
    var d := (0.5 - q) * n as real;
    assert 2.0 * d == n as real - 2.0 * rank as real;
    SignOfProduct(0.5 - q, n as real, d);
  }

  lemma SignOfProduct(x: real, y: real, d: real)
    requires y > 0.0 && d == x * y
    ensures d >= 0.0 <==> x >= 0.0
  {
  }

  lemma Odds(omega: real)
    requires 0.0 < omega < 1.0
    ensures omega / (1.0 - omega) > 0.0
    ensures omega / (1.0 - omega) <= 1.0 <==> omega <= 0.5
  {
    var r := omega / (1.0 - omega);
    assert r * (1.0 - omega) == omega;
    SignOfProduct(1.0 - r, 1.0 - omega, 1.0 - omega - omega);
  }

  /** The strategy picked in-sample by a split, and its out-of-sample rank. */
  function Winner(o: Scores, a: set<nat>, s: nat, m: nat): nat
  {
    o.best(Rows(a, s, m))
  }

  function WinnerRank(o: Scores, a: set<nat>, s: nat, m: nat): nat
  {
    o.rank(Rows(Range(0, s) - a, s, m), Winner(o, a, s, m))
  }

  function Wins(o: Scores, splits: seq<set<nat>>, s: nat, m: nat, k: nat): nat
  {
    if splits == [] then 0
    else Wins(o, splits[..|splits| - 1], s, m, k) + if Winner(o, splits[|splits| - 1], s, m) == k then 1 else 0
  }

  /** How many splits put their in-sample winner in the lower half out of sample. */
  function Overfit(o: Scores, splits: seq<set<nat>>, s: nat, m: nat, n: nat): nat
  {
    if splits == [] then 0
    else Overfit(o, splits[..|splits| - 1], s, m, n)
         + if 2 * WinnerRank(o, splits[|splits| - 1], s, m) <= n then 1 else 0
  }

  /** The rank quantiles a strategy got out of sample, over the splits it won. */
  function Shares(o: Scores, splits: seq<set<nat>>, s: nat, m: nat, n: nat, k: nat): seq<real>
    requires n > 0
  {
    if splits == [] then []
    else
      var last := splits[|splits| - 1];
      Shares(o, splits[..|splits| - 1], s, m, n, k)
      + if Winner(o, last, s, m) == k then [WinnerRank(o, last, s, m) as real / n as real] else []
  }

  /** A strategy has one quantile per win, each above zero and at most one. */
  lemma {:induction false} SharesAre(o: Scores, splits: seq<set<nat>>, s: nat, m: nat, n: nat, k: nat)
    requires n > 0 && Legal(o, n)
    ensures |Shares(o, splits, s, m, n, k)| == Wins(o, splits, s, m, k)
    ensures forall i :: 0 <= i < |Shares(o, splits, s, m, n, k)| ==> 0.0 < Shares(o, splits, s, m, n, k)[i] <= 1.0
    decreases |splits|
  {
    hide Winner, WinnerRank, Legal;
    if splits != [] {
      var p := |splits| - 1;
      SharesAre(o, splits[..p], s, m, n, k);
      RankInRange(o, splits[p], s, m, n);
      ShareInRange(WinnerRank(o, splits[p], s, m), n);
    }
  }

  lemma ShareInRange(rank: nat, n: nat)
    requires 1 <= rank <= n
    ensures 0.0 < rank as real / n as real <= 1.0
  {
    var q := rank as real / n as real;
    assert q * n as real == rank as real;
    SignOfProduct(1.0 - q, n as real, n as real - rank as real);
  }

  // ----- the tallies, split by split -----

  /** The winner of a split is the best on its rows, and is ranked on all the other rows used. */
  lemma {:induction false} RankedOnTheRest(o: Scores, a: set<nat>, s: nat, m: nat)
    requires a <= Range(0, s)
    ensures Winner(o, a, s, m) == o.best(Rows(a, s, m))
    ensures WinnerRank(o, a, s, m) == o.rank(Range(0, s * m) - Rows(a, s, m), o.best(Rows(a, s, m)))
  {
    hide Rows, Range;
    var b := Range(0, s) - a;
    assert a + b == Range(0, s);
    RowsPartition(a, b, s, m);
    assert Rows(b, s, m) == Range(0, s * m) - Rows(a, s, m);
  }

  /** The out-of-sample rank of the best of an in-sample set of rows, out of `used` rows in all. */
  function RankOfBest(o: Scores, rows: set<nat>, used: nat): nat {
    o.rank(Range(0, used) - rows, o.best(rows))
  }

  /** The splits a strategy is best in. */
  ghost function WonBy(o: Scores, splits: seq<set<nat>>, s: nat, m: nat, k: nat): set<nat> {
    set p: nat | p < |splits| && o.best(Rows(splits[p], s, m)) == k
  }

  /** The splits whose best ends in the lower half of the other rows. */
  ghost function Lost(o: Scores, splits: seq<set<nat>>, s: nat, m: nat, n: nat): set<nat> {
    set p: nat | p < |splits| && 2 * RankOfBest(o, Rows(splits[p], s, m), s * m) <= n
  }

  ghost predicate BlockSets(splits: seq<set<nat>>, s: nat) {
    forall p :: 0 <= p < |splits| ==> splits[p] <= Range(0, s)
  }

  lemma {:induction false} WinsAre(o: Scores, splits: seq<set<nat>>, s: nat, m: nat, k: nat)
    ensures Wins(o, splits, s, m, k) == |WonBy(o, splits, s, m, k)|
    decreases |splits|
  {
    hide Rows;
    if splits == [] {
      assert WonBy(o, splits, s, m, k) == {};
    } else {
      var n: nat := |splits| - 1;
      WinsAre(o, splits[..n], s, m, k);
      var was := WonBy(o, splits[..n], s, m, k);
      assert WonBy(o, splits, s, m, k) == if Winner(o, splits[n], s, m) == k then was + {n} else was;
    }
  }

  lemma {:induction false} OverfitAre(o: Scores, splits: seq<set<nat>>, s: nat, m: nat, n: nat)
    requires BlockSets(splits, s)
    ensures Overfit(o, splits, s, m, n) == |Lost(o, splits, s, m, n)|
    decreases |splits|
  {
    hide Rows, Range, RankOfBest, WinnerRank;
    if splits == [] {
      assert Lost(o, splits, s, m, n) == {};
    } else {
      var q: nat := |splits| - 1;
      OverfitAre(o, splits[..q], s, m, n);
      var was := Lost(o, splits[..q], s, m, n);
      RankIs(o, splits[q], s, m);
      assert Lost(o, splits, s, m, n) == if 2 * WinnerRank(o, splits[q], s, m) <= n then was + {q} else was;
    }
  }

  lemma RankIs(o: Scores, a: set<nat>, s: nat, m: nat)
    requires a <= Range(0, s)
    ensures WinnerRank(o, a, s, m) == RankOfBest(o, Rows(a, s, m), s * m)
  {
    hide Rows, Range, WinnerRank;
    RankedOnTheRest(o, a, s, m);
  }

  /** `shares` are the rank quantiles of the splits at the places of `at`, ascending. */
  ghost predicate SharesAt(o: Scores, splits: seq<set<nat>>, s: nat, m: nat, n: nat, shares: seq<real>, at: seq<nat>)
    requires n > 0
  {
    && |at| == |shares| && (forall i, j :: 0 <= i < j < |at| ==> at[i] < at[j])
    && forall i :: 0 <= i < |at| ==>
         at[i] < |splits| && shares[i] == RankOfBest(o, Rows(splits[at[i]], s, m), s * m) as real / n as real
  }

  lemma SharesAtNext(o: Scores, splits: seq<set<nat>>, s: nat, m: nat, n: nat, shares: seq<real>, at: seq<nat>)
    requires n > 0 && splits != [] && SharesAt(o, splits[..|splits| - 1], s, m, n, shares, at)
    ensures var q: nat := |splits| - 1;
            && SharesAt(o, splits, s, m, n, shares + [], at)
            && SharesAt(o, splits, s, m, n,
                        shares + [RankOfBest(o, Rows(splits[q], s, m), s * m) as real / n as real], at + [q])
  {
    hide Rows, RankOfBest;
    assert shares + [] == shares;
  }

  lemma WonByNext(o: Scores, splits: seq<set<nat>>, s: nat, m: nat, k: nat, at: seq<nat>)
    requires splits != [] && forall p: nat :: p in at <==> p in WonBy(o, splits[..|splits| - 1], s, m, k)
    ensures var q: nat := |splits| - 1;
            var next := if Winner(o, splits[q], s, m) == k then at + [q] else at;
            forall p: nat :: p in next <==> p in WonBy(o, splits, s, m, k)
  {
    hide Rows;
  }

  /** The quantiles of a strategy are those of the splits it won, in their order. */
  lemma {:induction false} SharesListed(o: Scores, splits: seq<set<nat>>, s: nat, m: nat, n: nat, k: nat)
      returns (at: seq<nat>)
    requires n > 0 && BlockSets(splits, s)
    ensures SharesAt(o, splits, s, m, n, Shares(o, splits, s, m, n, k), at)
    ensures forall p: nat :: p in at <==> p in WonBy(o, splits, s, m, k)
    decreases |splits|
  {
    hide Rows, Range, RankOfBest, WinnerRank;
    if splits == [] {
      at := [];
    } else {
      hide WonBy, SharesAt, Winner;
      var q: nat := |splits| - 1;
      at := SharesListed(o, splits[..q], s, m, n, k);
      RankIs(o, splits[q], s, m);
      SharesAtNext(o, splits, s, m, n, Shares(o, splits[..q], s, m, n, k), at);
      WonByNext(o, splits, s, m, k, at);
      if Winner(o, splits[q], s, m) == k {
        at := at + [q];
      }
    }
  }

  lemma {:induction false} SplitsAreBlocks(s: nat)
    ensures BlockSets(Combinations(0, s, s / 2), s)
  {
    hide Combinations, Range;
    forall p | 0 <= p < |Combinations(0, s, s / 2)| ensures Combinations(0, s, s / 2)[p] <= Range(0, s) {
      CombinationsSound(0, s, s / 2, p);
    }
  }

  /** `np.median`, absent for a strategy that won no split. */
  function Median(values: seq<real>): Option<real> {
    Percentile(Sort(values), 0.5)
  }

  lemma MedianInRange(values: seq<real>, lo: real, hi: real)
    requires forall i :: 0 <= i < |values| ==> lo < values[i] <= hi
    ensures Median(values).None? <==> values == []
    ensures Median(values).Some? ==> lo < Median(values).value <= hi
  {
    hide Sort, Percentile, Sorted;
    SamplesAreSorted(values);
    var sorted := Sort(values);
    if values == [] {
      NoMedian();
    } else {
      PercentileIsMonotone(sorted, 0.5, 0.5);
      forall i | 0 <= i < |sorted| ensures lo < sorted[i] <= hi {
        assert sorted[i] in multiset(sorted);
        assert sorted[i] in multiset(values);
      }
    }
  }

  /** The middle one of an odd number of values in order, the mean of the middle two of an even number. */
  lemma {:induction false} MedianIs(values: seq<real>, h: nat)
    requires values != [] && h == (|values| - 1) / 2
    ensures |Sort(values)| == |values|
    ensures |values| % 2 == 1 ==> Median(values) == Some(Sort(values)[h])
    ensures |values| % 2 == 0 ==> Median(values) == Some((Sort(values)[h] + Sort(values)[h + 1]) / 2.0)
  {
    hide *;
    SamplesAreSorted(values);
    MedianOf(values);
    var s := Sort(values);
    if |values| == 1 {
      PercentileOfOne(s, 0.5);
    } else if |values| % 2 == 1 {
      MiddlePosition(|s| - 1, h, 0.0);
      PercentileIs(s, 0.5, h, 0.0);
    } else {
      MiddlePosition(|s| - 1, h, 0.5);
      PercentileIs(s, 0.5, h, 0.5);
      HalfAndHalf(s[h], s[h + 1]);
    }
  }

  lemma MedianOf(values: seq<real>)
    ensures Median(values) == Percentile(Sort(values), 0.5)
  {
    hide Sort, Percentile;
  }

  lemma HalfAndHalf(a: real, b: real)
    ensures (1.0 - 0.5) * a + 0.5 * b == (a + b) / 2.0
  {
  }

  lemma MiddlePosition(n: nat, h: nat, x: real)
    requires (n == 2 * h && x == 0.0) || (n == 2 * h + 1 && x == 0.5)
    ensures n as real * 0.5 == h as real + x
  {
  }

  lemma NoMedian()
    ensures Percentile([], 0.5) == None
  {
  }

  function SumOf(counts: seq<nat>): nat {
    if counts == [] then 0 else SumOf(counts[..|counts| - 1]) + counts[|counts| - 1]
  }

  lemma {:induction false} SumOfUpdate(counts: seq<nat>, k: nat, x: nat)
    requires k < |counts|
    ensures SumOf(counts[k := x]) + counts[k] == SumOf(counts) + x
    decreases |counts|
  {
    var n := |counts| - 1;
    if k == n {
      assert counts[k := x][..n] == counts[..n];
    } else {
      assert counts[k := x][..n] == counts[..n][k := x];
      SumOfUpdate(counts[..n], k, x);
    }
  }

  lemma {:induction false} SumOfZeros(n: nat)
    ensures SumOf(seq(n, _ => 0)) == 0
  {
    if n > 0 {
      assert seq(n, _ => 0)[..n - 1] == seq(n - 1, _ => 0);
      SumOfZeros(n - 1);
    }
  }

  lemma {:induction false} ChoosePositive(n: nat, k: nat)
    requires k <= n
    ensures Choose(n, k) > 0
  {
    if k > 0 { ChoosePositive(n - 1, k - 1); }
  }

  /** The loop after `p` splits. */
  ghost predicate Tallied(o: Scores, all: seq<set<nat>>, p: nat, s: nat, m: nat, n: nat, counts: seq<nat>,
                          shares: seq<seq<real>>, low: nat)
  {
    && n > 0 && p <= |all| && |counts| == n == |shares| && SumOf(counts) == p
    && (forall k :: 0 <= k < n ==> shares[k] == Shares(o, all[..p], s, m, n, k))
    && (forall k :: 0 <= k < n ==> counts[k] == Wins(o, all[..p], s, m, k))
    && low == Overfit(o, all[..p], s, m, n)
    && (n == 1 ==> low == 0)
  }

  lemma TallyStart(o: Scores, all: seq<set<nat>>, s: nat, m: nat, n: nat)
    requires n > 0
    ensures Tallied(o, all, 0, s, m, n, seq(n, _ => 0), seq(n, _ => []), 0)
  {
    SumOfZeros(n);
  }

  lemma {:induction false} WinsNext(o: Scores, all: seq<set<nat>>, p: nat, s: nat, m: nat, k: nat)
    requires p < |all|
    ensures Wins(o, all[..p + 1], s, m, k) == Wins(o, all[..p], s, m, k) + if Winner(o, all[p], s, m) == k then 1 else 0
  {
    hide Winner;
    assert all[..p + 1][..p] == all[..p];
  }

  lemma {:induction false} OverfitNext(o: Scores, all: seq<set<nat>>, p: nat, s: nat, m: nat, n: nat)
    requires p < |all|
    ensures Overfit(o, all[..p + 1], s, m, n)
         == Overfit(o, all[..p], s, m, n) + if 2 * WinnerRank(o, all[p], s, m) <= n then 1 else 0
  {
    hide WinnerRank;
    assert all[..p + 1][..p] == all[..p];
  }

  lemma {:induction false} SharesNext(o: Scores, all: seq<set<nat>>, p: nat, s: nat, m: nat, n: nat, k: nat)
    requires p < |all| && n > 0
    ensures Shares(o, all[..p + 1], s, m, n, k) == Shares(o, all[..p], s, m, n, k)
         + if Winner(o, all[p], s, m) == k then [WinnerRank(o, all[p], s, m) as real / n as real] else []
  {
    hide Winner, WinnerRank;
    assert all[..p + 1][..p] == all[..p];
  }

  lemma RankInRange(o: Scores, a: set<nat>, s: nat, m: nat, n: nat)
    requires Legal(o, n)
    ensures Winner(o, a, s, m) < n && 1 <= WinnerRank(o, a, s, m) <= n
  {
  }

  lemma {:induction false} TallyStep(o: Scores, all: seq<set<nat>>, p: nat, s: nat, m: nat, n: nat, counts: seq<nat>,
                                     shares: seq<seq<real>>, low: nat)
    requires p < |all| && Tallied(o, all, p, s, m, n, counts, shares, low) && Legal(o, n)
    ensures Winner(o, all[p], s, m) < n
    ensures var best, rank := Winner(o, all[p], s, m), WinnerRank(o, all[p], s, m);
            Tallied(o, all, p + 1, s, m, n, counts[best := counts[best] + 1],
                    shares[best := shares[best] + [rank as real / n as real]], low + if 2 * rank <= n then 1 else 0)
  {
    hide Winner, WinnerRank, Wins, Overfit, SumOf, Legal, Shares;
    RankInRange(o, all[p], s, m, n);
    var best, rank := Winner(o, all[p], s, m), WinnerRank(o, all[p], s, m);
    OverfitNext(o, all, p, s, m, n);
    SumOfUpdate(counts, best, counts[best] + 1);
    var next, more := counts[best := counts[best] + 1], shares[best := shares[best] + [rank as real / n as real]];
    forall k | 0 <= k < n
      ensures next[k] == Wins(o, all[..p + 1], s, m, k) && more[k] == Shares(o, all[..p + 1], s, m, n, k)
    {
      WinsNext(o, all, p, s, m, k);
      SharesNext(o, all, p, s, m, n, k);
      assert shares[k] + [] == shares[k];
    }
  }

  lemma TallyEnd(o: Scores, all: seq<set<nat>>, s: nat, m: nat, n: nat, counts: seq<nat>, shares: seq<seq<real>>, low: nat)
    requires Tallied(o, all, |all|, s, m, n, counts, shares, low)
    ensures |counts| == n == |shares| && SumOf(counts) == |all|
    ensures forall k :: 0 <= k < n ==> counts[k] == Wins(o, all, s, m, k) && shares[k] == Shares(o, all, s, m, n, k)
    ensures low == Overfit(o, all, s, m, n)
    ensures n == 1 ==> low == 0
  {
    hide Wins, Overfit, SumOf, Shares;
    assert all[..|all|] == all;
  }

  /** `round(x, d)` with `scale` the `d`-th power of ten: the nearest multiple, ties to the even one. */
  function Rounded(x: real, scale: nat): real
    requires scale > 0
  {
    var low := (x * scale as real).Floor;
    var rest := x * scale as real - low as real;
    var up := rest > 0.5 || (rest == 0.5 && low % 2 != 0);
    (if up then low + 1 else low) as real / scale as real
  }

  /** The multiple that is taken, and how far it is. */
  lemma RoundedIs(x: real, scale: nat, y: real) returns (m: int)
    requires scale > 0 && y == x * scale as real
    ensures Rounded(x, scale) == m as real / scale as real && -0.5 <= m as real - y <= 0.5
  {
    m := NearestInt(y);
  }

  lemma NearestInt(y: real) returns (m: int)
    ensures m == (var rest := y - y.Floor as real; if rest > 0.5 || (rest == 0.5 && y.Floor % 2 != 0) then y.Floor + 1 else y.Floor)
    ensures -0.5 <= m as real - y <= 0.5
  {
    var rest := y - y.Floor as real;
    m := if rest > 0.5 || (rest == 0.5 && y.Floor % 2 != 0) then y.Floor + 1 else y.Floor;
  }

  /** Exactly half way between two multiples, the even one is taken. */
  lemma {:induction false} RoundedHalf(x: real, scale: nat, k: int)
    requires scale > 0
    ensures x * scale as real == (2 * k) as real + 0.5 ==> Rounded(x, scale) == (2 * k) as real / scale as real
    ensures x * scale as real == (2 * k + 1) as real + 0.5 ==> Rounded(x, scale) == (2 * k + 2) as real / scale as real
  {
    FloorOfHalf(2 * k);
    FloorOfHalf(2 * k + 1);
  }

  lemma FloorOfHalf(m: int)
    ensures (m as real + 0.5).Floor == m
  {
  }

  /** Rounding moves a figure by at most half a unit in the last place. */
  lemma RoundedIsNear(x: real, scale: nat)
    requires scale > 0
    ensures -0.5 <= (Rounded(x, scale) - x) * scale as real <= 0.5
  {
    hide Rounded;
    var m := RoundedIs(x, scale, x * scale as real);
    TimesBack(m as real, scale as real, x);
  }

  lemma TimesBack(m: real, n: real, x: real)
    requires n != 0.0
    ensures (m / n - x) * n == m - x * n
  {
    assert (m / n) * n == m;
  }

  /** A figure in the unit interval stays there. */
  lemma RoundedStays(x: real, scale: nat)
    requires scale > 0 && 0.0 <= x <= 1.0
    ensures 0.0 <= Rounded(x, scale) <= 1.0
    ensures x == 0.0 ==> Rounded(x, scale) == 0.0
  {
    hide Rounded;
    var m := RoundedInts(x, scale);
    QuotientInRange(m as real, scale as real);
  }

  lemma RoundedInts(x: real, scale: nat) returns (m: nat)
    requires scale > 0 && 0.0 <= x <= 1.0
    ensures m <= scale && Rounded(x, scale) == m as real / scale as real && (x == 0.0 ==> m == 0)
  {
    hide Rounded;
    var y := Scaled(x, scale);
    var n := RoundedIs(x, scale, y);
    BetweenInts(n, scale, y);
    m := n;
  }

  lemma Scaled(x: real, scale: nat) returns (y: real)
    requires scale > 0 && 0.0 <= x <= 1.0
    ensures y == x * scale as real && 0.0 <= y <= scale as real && (x == 0.0 ==> y == 0.0)
  {
    y := x * scale as real;
    ProductInRange(x, scale as real);
  }

  lemma BetweenInts(m: int, scale: nat, y: real)
    requires -0.5 <= m as real - y <= 0.5 && 0.0 <= y <= scale as real
    ensures 0 <= m <= scale && (y == 0.0 ==> m == 0)
  {
  }

  lemma ProductInRange(x: real, n: real)
    requires 0.0 <= x <= 1.0 && n > 0.0
    ensures 0.0 <= x * n <= n && (x == 0.0 ==> x * n == 0.0)
  {
    SignOfProduct(x, n, x * n);
    SignOfProduct(1.0 - x, n, n - x * n);
  }

  lemma QuotientInRange(m: real, n: real)
    requires 0.0 <= m <= n && n > 0.0
    ensures 0.0 <= m / n <= 1.0 && (m == 0.0 ==> m / n == 0.0)
  {
    var q := m / n;
    assert q * n == m;
    SignOfProduct(q, n, m);
    SignOfProduct(1.0 - q, n, n - m);
  }

  /** The fraction of splits that overfit, and what is reported of it. */
  function Fraction(low: nat, splits: nat): real
    requires splits > 0
  {
    low as real / splits as real
  }

  function ReportedPbo(low: nat, splits: nat): real
    requires splits > 0
  {
    Rounded(Fraction(low, splits), PBO_SCALE)
  }

  /** The reported probability is the fraction of splits, to half a millionth. */
  lemma PboIsFraction(low: nat, splits: nat)
    requires splits > 0
    ensures Fraction(low, splits) * splits as real == low as real
    ensures -0.5 <= (ReportedPbo(low, splits) - Fraction(low, splits)) * 1_000_000.0 <= 0.5
  {
    hide Rounded;
    RoundedIsNear(Fraction(low, splits), PBO_SCALE);
  }

  const PBO_SCALE := 1_000_000
  const MEDIAN_SCALE := 10_000

  function ReportedMedian(values: seq<real>): Option<real> {
    var m := Median(values);
    if m.None? then None else Some(Rounded(m.value, MEDIAN_SCALE))
  }

  /** The reported median is the median, to half a ten-thousandth. */
  lemma MedianIsNear(values: seq<real>)
    ensures ReportedMedian(values).Some? <==> Median(values).Some?
    ensures Median(values).Some? ==>
              -0.5 <= (ReportedMedian(values).value - Median(values).value) * 10_000.0 <= 0.5
  {
    hide Rounded, Median;
    if Median(values).Some? { RoundedIsNear(Median(values).value, MEDIAN_SCALE); }
  }

  lemma ReportedInRange(values: seq<real>)
    requires forall i :: 0 <= i < |values| ==> 0.0 < values[i] <= 1.0
    ensures ReportedMedian(values).None? <==> values == []
    ensures ReportedMedian(values).Some? ==> 0.0 <= ReportedMedian(values).value <= 1.0
  {
    hide Median, Rounded;
    MedianInRange(values, 0.0, 1.0);
    if values != [] { RoundedStays(Median(values).value, MEDIAN_SCALE); }
  }

  lemma FractionIsZero(splits: nat)
    requires splits > 0
    ensures ReportedPbo(0, splits) == 0.0
  {
    hide Rounded;
    RoundedStays(0.0, PBO_SCALE);
  }

  /**
   `cscv_diagnostics`: one pass over the splits. The in-sample-best counts account for every
   split exactly once, the overfitting probability is the fraction of splits whose winner ranks
   in the lower half (zero with a single strategy, because of the clip), and each strategy's
   median is that of the rank quantiles of the splits it won.
   */
  method Diagnose(o: Scores, log: real -> real, s: nat, t: nat, n: nat)
    returns (counts: seq<nat>, pbo: real, splits: nat, medians: seq<Option<real>>)
    requires n > 0 && s >= 2 && Legal(o, n) && IsLog(log)
    ensures splits == Choose(s, s / 2) > 0
    ensures |counts| == n == |medians| && SumOf(counts) == splits
    ensures forall k :: 0 <= k < n ==> counts[k] == |WonBy(o, Combinations(0, s, s / 2), s, t / s, k)|
    ensures pbo == ReportedPbo(|Lost(o, Combinations(0, s, s / 2), s, t / s, n)|, splits)
    ensures n == 1 ==> pbo == 0.0
    ensures forall k :: 0 <= k < n ==> medians[k] == ReportedMedian(Shares(o, Combinations(0, s, s / 2), s, t / s, n, k))
    ensures forall k :: 0 <= k < n ==> (medians[k].None? <==> counts[k] == 0)
    ensures forall k :: 0 <= k < n && medians[k].Some? ==> 0.0 <= medians[k].value <= 1.0
  {
    hide *;
    var m := t / s;
    var all := Combinations(0, s, s / 2);
    CombinationsCount(0, s, s / 2);
    ChoosePositive(s, s / 2);
    counts := seq(n, _ => 0);
    var shares: seq<seq<real>>, low, p := seq(n, _ => []), 0, 0;
    TallyStart(o, all, s, m, n);
    while p < |all|
      invariant 0 <= p <= |all| && Tallied(o, all, p, s, m, n, counts, shares, low)
    {
      counts, shares, low := Split(o, log, all, p, s, m, n, counts, shares, low);
      p := p + 1;
    }
    TallyEnd(o, all, s, m, n, counts, shares, low);
    SplitsAreBlocks(s);
    OverfitAre(o, all, s, m, n);
    forall k | 0 <= k < n ensures counts[k] == |WonBy(o, all, s, m, k)| { WinsAre(o, all, s, m, k); }
    splits := |all|;
    pbo := ReportedPbo(low, splits);
    FractionIsZero(splits);
    medians := Medians(o, all, s, m, n, shares);
    forall k | 0 <= k < n ensures medians[k].None? <==> counts[k] == 0 { SharesAre(o, all, s, m, n, k); }
  }

  /** The per-strategy medians. */
  method Medians(o: Scores, ghost all: seq<set<nat>>, ghost s: nat, ghost m: nat, n: nat, shares: seq<seq<real>>)
    returns (medians: seq<Option<real>>)
    requires n > 0 && Legal(o, n) && |shares| == n
    requires forall k :: 0 <= k < n ==> shares[k] == Shares(o, all, s, m, n, k)
    ensures |medians| == n
    ensures forall k :: 0 <= k < n ==> medians[k] == ReportedMedian(Shares(o, all, s, m, n, k))
    ensures forall k :: 0 <= k < n ==> (medians[k].None? <==> |shares[k]| == 0)
    ensures forall k :: 0 <= k < n && medians[k].Some? ==> 0.0 <= medians[k].value <= 1.0
  {
    hide *;
    medians := [];
    var i := 0;
    while i < n
      invariant 0 <= i <= n && |medians| == i
      invariant forall k :: 0 <= k < i ==> medians[k] == ReportedMedian(Shares(o, all, s, m, n, k))
      invariant forall k :: 0 <= k < i ==> (medians[k].None? <==> |shares[k]| == 0)
      invariant forall k :: 0 <= k < i && medians[k].Some? ==> 0.0 <= medians[k].value <= 1.0
    {
      SharesAre(o, all, s, m, n, i);
      ReportedInRange(shares[i]);
      medians := medians + [ReportedMedian(shares[i])];
      i := i + 1;
    }
  }

  lemma TallySize(o: Scores, all: seq<set<nat>>, p: nat, s: nat, m: nat, n: nat, counts: seq<nat>,
                  shares: seq<seq<real>>, low: nat)
    requires Tallied(o, all, p, s, m, n, counts, shares, low)
    ensures |counts| == n == |shares|
  {
  }

  /** One turn of the loop. */
  method Split(o: Scores, log: real -> real, all: seq<set<nat>>, p: nat, s: nat, m: nat, n: nat, counts0: seq<nat>,
               shares0: seq<seq<real>>, low0: nat)
    returns (counts: seq<nat>, shares: seq<seq<real>>, low: nat)
    requires p < |all| && n > 0 && Tallied(o, all, p, s, m, n, counts0, shares0, low0) && Legal(o, n) && IsLog(log)
    ensures Tallied(o, all, p + 1, s, m, n, counts, shares, low)
  {
    hide *;
    var best := Winner(o, all[p], s, m);
    var rank := WinnerRank(o, all[p], s, m);
    RankInRange(o, all[p], s, m, n);
    TallySize(o, all, p, s, m, n, counts0, shares0, low0);
    LogitSign(log, rank, n);
    TallyStep(o, all, p, s, m, n, counts0, shares0, low0);
    low := low0 + if Logit(log, rank, n) <= 0.0 then 1 else 0;
    counts := counts0[best := counts0[best] + 1];
    shares := shares0[best := shares0[best] + [rank as real / n as real]];
  }
}
