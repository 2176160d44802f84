/**
 The trading book of `gatev_2006_portfolio_of_pairs.py`: formation, side changes, netting of
 shared legs, and the ledger of orders placed only on change.

 `history[t][d]` is the close of feed `d` at bar `t`. `Step` is one call of `next`, and `Run`
 the book after a whole history.
 */
module Gatev {
  import opened PairSelection
  import opened Wrappers

  datatype Params = Params(formation: nat, trading: nat, nPairs: nat, entrySigma: real, exposure: real)

  /** `side`: 0 flat, 1 short the first leg and long the second, -1 the reverse. */
  datatype Pair = Pair(i: nat, j: nat, baseI: real, baseJ: real, sigma: real, side: int)

  datatype Book = Book(
    pairs: seq<Pair>,
    bars: nat,               // `_bars_in_trading`
    weights: seq<real>,      // `_current_weights`, empty before the first order round
    ordered: seq<real>)      // the last target ordered for each feed, zero if none

  const TOLERANCE := 0.000000001

  // ----- netting -----

  function LegWeight(exposure: real, n: nat): real {
    exposure / (if n == 0 then 1 else n) as real
  }

  function Zeros(n: nat): seq<real> {
    seq(n, _ => 0.0)
  }

  predicate Fits(p: Pair, n: nat) {
    p.i < p.j < n
  }

  predicate AllFit(pairs: seq<Pair>, n: nat) {
    forall k :: 0 <= k < |pairs| ==> Fits(pairs[k], n)
  }

  /** One pair's contribution to the targets. */
  function AddPair(t: seq<real>, p: Pair, leg: real): (r: seq<real>)
    requires Fits(p, |t|)
    ensures |r| == |t|
  {
    if p.side == 0 then t else Shift(t, p.i, p.j, p.side as real * leg)
  }

  /** Move weight `d` from feed `i` to feed `j`. */
  function Shift(t: seq<real>, i: nat, j: nat, d: real): (r: seq<real>)
    requires i < j < |t|
    ensures |r| == |t|
  {
    t[i := t[i] - d][j := t[j] + d]
  }

  /** The per-feed target weights of a book. */
  function Targets(pairs: seq<Pair>, n: nat, leg: real): (r: seq<real>)
    requires AllFit(pairs, n)
    ensures |r| == n
  {
    if pairs == [] then Zeros(n)
    else AddPair(Targets(pairs[..|pairs| - 1], n, leg), pairs[|pairs| - 1], leg)
  }

  /** How many legs a feed is long, net, over the open pairs. */
  function NetLegs(pairs: seq<Pair>, feed: nat): int {
    if pairs == [] then 0
    else
      var p := pairs[|pairs| - 1];
      NetLegs(pairs[..|pairs| - 1], feed)
      + (if feed == p.j then p.side else 0) - (if feed == p.i then p.side else 0)
  }

  function Abs(x: real): (r: real)
    ensures r >= 0.0
  {
    if x < 0.0 then -x else x
  }

  /** Gross exposure: the sum of the absolute weights. */
  function Gross(s: seq<real>): real {
    if s == [] then 0.0 else Gross(s[..|s| - 1]) + Abs(s[|s| - 1])
  }

  lemma {:induction false} SumUpdate(s: seq<real>, k: nat, x: real)
    requires k < |s|
    ensures Sum(s[k := x]) == Sum(s) - s[k] + x
    decreases |s|
  {
    var n := |s| - 1;
    if k == n {
      assert s[k := x][..n] == s[..n];
    } else {
      assert s[k := x][..n] == s[..n][k := x];
      SumUpdate(s[..n], k, x);
    }
  }

  lemma {:induction false} GrossUpdate(s: seq<real>, k: nat, x: real)
    requires k < |s|
    ensures Gross(s[k := x]) == Gross(s) - Abs(s[k]) + Abs(x)
    decreases |s|
  {
    var n := |s| - 1;
    if k == n {
      assert s[k := x][..n] == s[..n];
    } else {
      assert s[k := x][..n] == s[..n][k := x];
      GrossUpdate(s[..n], k, x);
    }
  }

  lemma {:induction false} ZerosSum(n: nat)
    ensures Sum(Zeros(n)) == 0.0 && Gross(Zeros(n)) == 0.0
  {
    if n > 0 {
      assert Zeros(n)[..n - 1] == Zeros(n - 1);
      ZerosSum(n - 1);
    }
  }

  predicate SideOk(p: Pair) {
    p.side == -1 || p.side == 0 || p.side == 1
  }

  lemma {:induction false} ShiftEffect(t: seq<real>, i: nat, j: nat, d: real)
    requires i < j < |t|
    ensures Sum(Shift(t, i, j, d)) == Sum(t)
    ensures Gross(Shift(t, i, j, d)) <= Gross(t) + 2.0 * Abs(d)
  {
    hide Sum, Gross;
    var u := t[i := t[i] - d];
    SumUpdate(t, i, t[i] - d);
    SumUpdate(u, j, t[j] + d);
    GrossUpdate(t, i, t[i] - d);
    GrossUpdate(u, j, t[j] + d);
  }

  lemma {:induction false} AddPairEffect(t: seq<real>, p: Pair, leg: real)
    requires Fits(p, |t|) && SideOk(p) && leg >= 0.0
    ensures Sum(AddPair(t, p, leg)) == Sum(t)
    ensures Gross(AddPair(t, p, leg)) <= Gross(t) + (if p.side == 0 then 0.0 else 2.0 * leg)
  {
    hide Sum, Gross, Shift;
    if p.side != 0 {
      assert p.side as real * leg == if p.side == 1 then leg else -leg;
      ShiftEffect(t, p.i, p.j, p.side as real * leg);
    }
  }

  /** Two legs for every open pair. */
  function GrossCap(pairs: seq<Pair>, leg: real): real {
    if pairs == [] then 0.0
    else GrossCap(pairs[..|pairs| - 1], leg) + if pairs[|pairs| - 1].side == 0 then 0.0 else 2.0 * leg
  }

  lemma {:induction false} GrossCapBound(pairs: seq<Pair>, leg: real)
    requires leg >= 0.0
    ensures GrossCap(pairs, leg) <= 2.0 * (|pairs| as real * leg)
    decreases |pairs|
  {
    if pairs != [] {
      var n := |pairs| - 1;
      GrossCapBound(pairs[..n], leg);
      Distribute(n, 1, leg);
    }
  }

  /** Dollar neutral, gross bounded by two legs per open pair. */
  lemma {:induction false} TargetsNeutral(pairs: seq<Pair>, n: nat, leg: real)
    requires AllFit(pairs, n) && leg >= 0.0 && forall k :: 0 <= k < |pairs| ==> SideOk(pairs[k])
    ensures Sum(Targets(pairs, n, leg)) == 0.0
    ensures Gross(Targets(pairs, n, leg)) <= GrossCap(pairs, leg)
    decreases |pairs|
  {
    if pairs == [] {
      ZerosSum(n);
    } else {
      var front, last := pairs[..|pairs| - 1], pairs[|pairs| - 1];
      TargetsNeutral(front, n, leg);
      hide Sum, Gross, AddPair, SideOk;
      AddPairEffect(Targets(front, n, leg), last, leg);
    }
  }

  /** Each target is a whole number of legs. */
  lemma {:induction false} TargetIsWholeLegs(pairs: seq<Pair>, n: nat, leg: real, feed: nat)
    requires AllFit(pairs, n) && feed < n
    ensures Targets(pairs, n, leg)[feed] == NetLegs(pairs, feed) as real * leg
    decreases |pairs|
  {
    hide *;
    if pairs == [] {
      NoLegs(n, leg, feed);
    } else {
      var front, p := pairs[..|pairs| - 1], pairs[|pairs| - 1];
      LastFits(pairs, n);
      TargetIsWholeLegs(front, n, leg, feed);
      TargetsSnoc(pairs, n, leg);
      NetLegsSnoc(pairs, feed);
      AddPairAt(Targets(front, n, leg), p, leg, feed);
      WholeLegsStep(Targets(front, n, leg)[feed], Targets(pairs, n, leg)[feed],
                    NetLegs(front, feed), Legs(p, feed), NetLegs(pairs, feed), leg);
    }
  }

  lemma {:induction false} NoLegs(n: nat, leg: real, feed: nat)
    requires feed < n
    ensures AllFit([], n) && Targets([], n, leg)[feed] == NetLegs([], feed) as real * leg
  {
  }

  lemma LastFits(pairs: seq<Pair>, n: nat)
    requires AllFit(pairs, n) && pairs != []
    ensures Fits(pairs[|pairs| - 1], n) && AllFit(pairs[..|pairs| - 1], n)
    ensures pairs[|pairs| - 1].i != pairs[|pairs| - 1].j
  {
  }

  lemma WholeLegsStep(before: real, after: real, m: int, d: int, total: int, leg: real)
    requires before == m as real * leg && after == before + d as real * leg && total == m + d
    ensures after == total as real * leg
  {
    Distribute(m, d, leg);
  }

  /** The legs one pair adds to a feed. */
  function Legs(p: Pair, feed: nat): int {
    if feed == p.j then p.side else if feed == p.i then -p.side else 0
  }

  lemma {:induction false} TargetsSnoc(pairs: seq<Pair>, n: nat, leg: real)
    requires AllFit(pairs, n) && pairs != []
    ensures Targets(pairs, n, leg) == AddPair(Targets(pairs[..|pairs| - 1], n, leg), pairs[|pairs| - 1], leg)
  {
  }

  lemma {:induction false} NetLegsSnoc(pairs: seq<Pair>, feed: nat)
    requires pairs != [] && pairs[|pairs| - 1].i != pairs[|pairs| - 1].j
    ensures NetLegs(pairs, feed) == NetLegs(pairs[..|pairs| - 1], feed) + Legs(pairs[|pairs| - 1], feed)
  {
  }

  lemma AddPairAt(t: seq<real>, p: Pair, leg: real, feed: nat)
    requires Fits(p, |t|) && feed < |t|
    ensures AddPair(t, p, leg)[feed] == t[feed] + Legs(p, feed) as real * leg
  {
    Distribute(0, p.side, leg);
  }

  /** The open pairs that make a feed their long leg: the second at side 1, the first at side -1. */
  ghost function Longs(pairs: seq<Pair>, feed: nat): set<nat> {
    set k: nat | k < |pairs| && ((pairs[k].j == feed && pairs[k].side == 1) || (pairs[k].i == feed && pairs[k].side == -1))
  }

  /** The open pairs that make a feed their short leg. */
  ghost function Shorts(pairs: seq<Pair>, feed: nat): set<nat> {
    set k: nat | k < |pairs| && ((pairs[k].i == feed && pairs[k].side == 1) || (pairs[k].j == feed && pairs[k].side == -1))
  }

  lemma {:induction false} NetLegsCount(pairs: seq<Pair>, feed: nat)
    requires forall k :: 0 <= k < |pairs| ==> SideOk(pairs[k]) && pairs[k].i != pairs[k].j
    ensures NetLegs(pairs, feed) == |Longs(pairs, feed)| - |Shorts(pairs, feed)|
    decreases |pairs|
  {
    if pairs != [] {
      var n: nat := |pairs| - 1;
      NetLegsCount(pairs[..n], feed);
      NetLegsSnoc(pairs, feed);
      hide NetLegs;
      LongsSnoc(pairs, feed);
      ShortsSnoc(pairs, feed);
    }
  }

  lemma LongsSnoc(pairs: seq<Pair>, feed: nat)
    requires pairs != [] && SideOk(pairs[|pairs| - 1]) && pairs[|pairs| - 1].i != pairs[|pairs| - 1].j
    ensures |Longs(pairs, feed)|
         == |Longs(pairs[..|pairs| - 1], feed)| + if Legs(pairs[|pairs| - 1], feed) == 1 then 1 else 0
  {
    var n: nat, p := |pairs| - 1, pairs[|pairs| - 1];
    var was := Longs(pairs[..n], feed);
    assert Longs(pairs, feed) == if Legs(p, feed) == 1 then was + {n} else was;
  }

  lemma ShortsSnoc(pairs: seq<Pair>, feed: nat)
    requires pairs != [] && SideOk(pairs[|pairs| - 1]) && pairs[|pairs| - 1].i != pairs[|pairs| - 1].j
    ensures |Shorts(pairs, feed)|
         == |Shorts(pairs[..|pairs| - 1], feed)| + if Legs(pairs[|pairs| - 1], feed) == -1 then 1 else 0
  {
    var n: nat, p := |pairs| - 1, pairs[|pairs| - 1];
    var was := Shorts(pairs[..n], feed);
    assert Shorts(pairs, feed) == if Legs(p, feed) == -1 then was + {n} else was;
  }

  lemma Distribute(m: int, d: int, leg: real)
    ensures (m + d) as real * leg == m as real * leg + d as real * leg
    ensures (-d) as real * leg == -(d as real * leg)
  {
  }

  // ----- orders -----

  function Weight(w: seq<real>, k: nat): real {
    if k < |w| then w[k] else 0.0
  }

  /** An order goes out only for a target that moved by more than the tolerance. */
  function Ledger(ordered: seq<real>, weights: seq<real>, targets: seq<real>): seq<real>
    requires |ordered| == |targets|
  {
    seq(|targets|, k requires 0 <= k < |targets| =>
      if Abs(targets[k] - Weight(weights, k)) > TOLERANCE then targets[k] else ordered[k])
  }

  function ApplyWeights(c: Params, b: Book): Book
    requires AllFit(b.pairs, |b.ordered|)
  {
    var targets := Targets(b.pairs, |b.ordered|, LegWeight(c.exposure, |b.pairs|));
    b.(weights := targets, ordered := Ledger(b.ordered, b.weights, targets))
  }

  // ----- one bar -----

  /** Every bar has a price for each of `n` feeds. */
  predicate Rectangular(history: seq<seq<real>>, n: nat) {
    forall t :: 0 <= t < |history| ==> |history[t]| == n
  }

  /** The trailing `w` closes of each feed, oldest first. */
  function Windows(history: seq<seq<real>>, n: nat, w: nat): (closes: seq<seq<real>>)
    requires Rectangular(history, n) && 1 <= w <= |history|
    ensures |closes| == n && Aligned(closes)
  {
    seq(n, d requires 0 <= d < n => seq(w, k requires 0 <= k < w => history[|history| - w + k][d]))
  }

  function Fresh(closes: seq<seq<real>>, c: Candidate): Pair
    requires c.i < |closes| && c.j < |closes| && closes[c.i] != [] && closes[c.j] != []
  {
    Pair(c.i, c.j, closes[c.i][0], closes[c.j][0], c.sigma, 0)
  }

  /** The pairs of a new book, all flat. */
  function Formed(c: Params, sqrt: real -> real, closes: seq<seq<real>>): (pairs: seq<Pair>)
    requires Aligned(closes)
  {
    SelectedIsBest(closes, sqrt, c.nPairs);
    var book := Selected(closes, sqrt, c.nPairs);
    seq(|book|, k requires 0 <= k < |book| => assert Judged(closes, sqrt, book[k]); Fresh(closes, book[k]))
  }

  function Reform(c: Params, sqrt: real -> real, b: Book, closes: seq<seq<real>>): Book
    requires Aligned(closes) && |closes| == |b.ordered|
  {
    FormedFits(c, sqrt, closes);
    ApplyWeights(c, b.(pairs := Formed(c, sqrt, closes), bars := 0))
  }

  ghost predicate PairOk(p: Pair, n: nat) {
    Fits(p, n) && SideOk(p) && p.baseI > 0.0 && p.baseJ > 0.0 && p.sigma > 0.0
  }

  lemma FormedFits(c: Params, sqrt: real -> real, closes: seq<seq<real>>)
    requires Aligned(closes)
    ensures var pairs := Formed(c, sqrt, closes);
            && |pairs| <= c.nPairs && AllFit(pairs, |closes|)
            && forall k :: 0 <= k < |pairs| ==> PairOk(pairs[k], |closes|) && pairs[k].side == 0
  {
    SelectedIsBest(closes, sqrt, c.nPairs);
    var book, pairs := Selected(closes, sqrt, c.nPairs), Formed(c, sqrt, closes);
    forall k | 0 <= k < |pairs| ensures PairOk(pairs[k], |closes|) && pairs[k].side == 0 {
      assert Judged(closes, sqrt, book[k]);
    }
  }

  function Spread(p: Pair, prices: seq<real>): Option<real>
    requires Fits(p, |prices|) && p.baseI != 0.0 && p.baseJ != 0.0
  {
    if prices[p.i] <= 0.0 || prices[p.j] <= 0.0 then None
    else Some(prices[p.i] / p.baseI - prices[p.j] / p.baseJ)
  }

  /** The side of a pair after a bar with the given spread. */
  function NextSide(entrySigma: real, p: Pair, spread: Option<real>): int {
    if spread.None? then p.side
    else if p.side == 0 then
      if Abs(spread.value) > entrySigma * p.sigma then (if spread.value > 0.0 then 1 else -1) else 0
    else if (p.side == 1 && spread.value <= 0.0) || (p.side == -1 && spread.value >= 0.0) then 0
    else p.side
  }

  function Moved(c: Params, p: Pair, prices: seq<real>): Pair
    requires Fits(p, |prices|) && p.baseI != 0.0 && p.baseJ != 0.0
  {
    p.(side := NextSide(c.entrySigma, p, Spread(p, prices)))
  }

  ghost predicate PairsOk(pairs: seq<Pair>, n: nat) {
    forall k :: 0 <= k < |pairs| ==> PairOk(pairs[k], n)
  }

  ghost function MovedAll(c: Params, pairs: seq<Pair>, prices: seq<real>): (r: seq<Pair>)
    requires PairsOk(pairs, |prices|)
  {
    seq(|pairs|, k requires 0 <= k < |pairs| => assert PairOk(pairs[k], |prices|); Moved(c, pairs[k], prices))
  }

  predicate Reforms(c: Params, b: Book, bars: nat) {
    bars >= c.formation && (b.pairs == [] || b.bars >= c.trading)
  }

  /** One call of `next`, at the last bar of `history`. */
  ghost function Step(c: Params, sqrt: real -> real, b: Book, history: seq<seq<real>>): Book
    requires c.formation >= 1 && Rectangular(history, |b.ordered|) && history != []
    requires PairsOk(b.pairs, |b.ordered|)
  {
    if |history| < c.formation then b
    else if Reforms(c, b, |history|) then Reform(c, sqrt, b, Windows(history, |b.ordered|, c.formation))
    else Trade(c, b, history[|history| - 1])
  }

  /** A trading bar: every pair moves, and weights are applied again only if some side changed. */
  ghost function Trade(c: Params, b: Book, prices: seq<real>): Book
    requires PairsOk(b.pairs, |b.ordered|) && |prices| == |b.ordered|
  {
    var moved := MovedAll(c, b.pairs, prices);
    MovedKeepsOk(c, b.pairs, prices);
    var next := b.(pairs := moved, bars := b.bars + 1);
    if moved == b.pairs then next else ApplyWeights(c, next)
  }

  /** Two pairs that differ at most in their side. */
  predicate SameLegs(p: Pair, q: Pair) {
    p.(side := 0) == q.(side := 0)
  }

  lemma MovedKeepsOk(c: Params, pairs: seq<Pair>, prices: seq<real>)
    requires PairsOk(pairs, |prices|)
    ensures var moved := MovedAll(c, pairs, prices);
            && |moved| == |pairs| && PairsOk(moved, |prices|) && AllFit(moved, |prices|)
            && forall k :: 0 <= k < |pairs| ==> SameLegs(moved[k], pairs[k])
  {
    var moved := MovedAll(c, pairs, prices);
    forall k | 0 <= k < |moved| ensures PairOk(moved[k], |prices|) && SameLegs(moved[k], pairs[k]) {
      assert PairOk(pairs[k], |prices|);
    }
  }

  // ----- what every book of every run is -----

  lemma OkFits(pairs: seq<Pair>, n: nat)
    requires PairsOk(pairs, n)
    ensures AllFit(pairs, n) && forall k :: 0 <= k < |pairs| ==> SideOk(pairs[k])
  {
    forall k | 0 <= k < |pairs| ensures Fits(pairs[k], n) && SideOk(pairs[k]) {
      assert PairOk(pairs[k], n);
    }
  }

  /** The weights the book should carry. */
  ghost function Owed(c: Params, b: Book): seq<real>
    requires PairsOk(b.pairs, |b.ordered|)
  {
    OkFits(b.pairs, |b.ordered|);
    Targets(b.pairs, |b.ordered|, LegWeight(c.exposure, |b.pairs|))
  }

  /** The legs are sound, the book fits its size and age, and its weights are its netted targets. */
  ghost predicate BookOk(c: Params, n: nat, b: Book) {
    && |b.ordered| == n && PairsOk(b.pairs, n) && |b.pairs| <= c.nPairs && b.bars <= c.trading
    && (forall k :: 0 <= k < n ==> Weight(b.weights, k) == Owed(c, b)[k])
  }

  function Empty(n: nat): Book {
    Book([], 0, [], Zeros(n))
  }

  lemma ReformKeepsOk(c: Params, sqrt: real -> real, b: Book, closes: seq<seq<real>>)
    requires Aligned(closes) && |closes| == |b.ordered|
    ensures BookOk(c, |b.ordered|, Reform(c, sqrt, b, closes))
    ensures Reform(c, sqrt, b, closes).pairs == Formed(c, sqrt, closes)
  {
    hide Formed, Targets, LegWeight;
    FormedFits(c, sqrt, closes);
  }

  lemma TradeKeepsOk(c: Params, b: Book, prices: seq<real>)
    requires BookOk(c, |prices|, b) && b.bars < c.trading
    ensures BookOk(c, |prices|, Trade(c, b, prices))
  {
    hide MovedAll, Targets, LegWeight, PairOk;
    MovedKeepsOk(c, b.pairs, prices);
  }

  lemma StepKeepsOk(c: Params, sqrt: real -> real, b: Book, history: seq<seq<real>>)
    requires c.formation >= 1 && Rectangular(history, |b.ordered|) && history != []
    requires BookOk(c, |b.ordered|, b)
    ensures BookOk(c, |b.ordered|, Step(c, sqrt, b, history))
  {
    hide Trade, Reform, Windows, BookOk, PairsOk;
    BookParts(c, b);
    if Reforms(c, b, |history|) {
      ReformKeepsOk(c, sqrt, b, Windows(history, |b.ordered|, c.formation));
    } else if |history| >= c.formation {
      TradeKeepsOk(c, b, history[|history| - 1]);
    }
  }

  lemma BookParts(c: Params, b: Book)
    requires BookOk(c, |b.ordered|, b)
    ensures PairsOk(b.pairs, |b.ordered|) && |b.pairs| <= c.nPairs && b.bars <= c.trading
  {
  }

  /** The book after every bar of `history`. */
  ghost function Run(c: Params, sqrt: real -> real, n: nat, history: seq<seq<real>>): (b: Book)
    requires c.formation >= 1 && Rectangular(history, n)
    ensures |b.ordered| == n && BookOk(c, n, b)
    decreases |history|
  {
    if history == [] then Empty(n)
    else
      var before := Run(c, sqrt, n, history[..|history| - 1]);
      StepKeepsOk(c, sqrt, before, history);
      Step(c, sqrt, before, history)
  }

  /**
   After every bar of every run, with any number of pairs sharing legs: the book is dollar
   neutral, its gross exposure is at most twice the committed capital, and every target is a
   whole number of the book's leg weights.
   */
  lemma RunIsNeutral(c: Params, sqrt: real -> real, n: nat, history: seq<seq<real>>)
    requires c.formation >= 1 && Rectangular(history, n) && c.exposure >= 0.0
    ensures var b := Run(c, sqrt, n, history);
            && (b.weights != [] ==> |b.weights| == n)
            && Sum(b.weights) == 0.0 && Gross(b.weights) <= 2.0 * c.exposure
            && forall k :: 0 <= k < n ==>
                 Weight(b.weights, k) == NetLegs(b.pairs, k) as real * LegWeight(c.exposure, |b.pairs|)
  {
    hide *;
    WeightsLength(c, sqrt, n, history);
    BookIsNeutral(c, n, Run(c, sqrt, n, history));
  }

  /**
   The weight of every feed after every bar: one share of the exposure for each open pair that
   makes it its long leg, less one for each that makes it its short leg.
   */
  lemma RunWeights(c: Params, sqrt: real -> real, n: nat, history: seq<seq<real>>, feed: nat)
    requires c.formation >= 1 && Rectangular(history, n) && feed < n
    ensures var b := Run(c, sqrt, n, history);
            Weight(b.weights, feed) == (|Longs(b.pairs, feed)| - |Shorts(b.pairs, feed)|) as real
                                       * (c.exposure / (if |b.pairs| == 0 then 1 else |b.pairs|) as real)
  {
    hide Run, NetLegs, Longs, Shorts, BookOk;
    var b := Run(c, sqrt, n, history);
    BookPairs(c, n, b);
    WeightIsWholeLegs(c, n, b, feed);
    OkFits(b.pairs, n);
    NetLegsCount(b.pairs, feed);
  }

  lemma BookIsNeutral(c: Params, n: nat, b: Book)
    requires BookOk(c, n, b) && (b.weights == [] || |b.weights| == n) && c.exposure >= 0.0
    ensures Sum(b.weights) == 0.0 && Gross(b.weights) <= 2.0 * c.exposure
    ensures forall k :: 0 <= k < n ==>
              Weight(b.weights, k) == NetLegs(b.pairs, k) as real * LegWeight(c.exposure, |b.pairs|)
  {
    hide *;
    BookSums(c, n, b);
    forall k | 0 <= k < n
      ensures Weight(b.weights, k) == NetLegs(b.pairs, k) as real * LegWeight(c.exposure, |b.pairs|)
    {
      WeightIsWholeLegs(c, n, b, k);
    }
  }

  lemma WeightIsWholeLegs(c: Params, n: nat, b: Book, k: nat)
    requires BookOk(c, n, b) && k < n
    ensures Weight(b.weights, k) == NetLegs(b.pairs, k) as real * LegWeight(c.exposure, |b.pairs|)
  {
    hide Targets, NetLegs, LegWeight, PairOk;
    OkFits(b.pairs, n);
    TargetIsWholeLegs(b.pairs, n, LegWeight(c.exposure, |b.pairs|), k);
  }

  lemma BookSums(c: Params, n: nat, b: Book)
    requires BookOk(c, n, b) && (b.weights == [] || |b.weights| == n) && c.exposure >= 0.0
    ensures Sum(b.weights) == 0.0 && Gross(b.weights) <= 2.0 * c.exposure
  {
    hide Targets, LegWeight, PairOk, GrossCap;
    OkFits(b.pairs, n);
    if b.weights != [] {
      assert b.weights == Owed(c, b);
      LegWeightTotal(c.exposure, |b.pairs|);
      var leg := LegWeight(c.exposure, |b.pairs|);
      TargetsNeutral(b.pairs, n, leg);
      GrossCapBound(b.pairs, leg);
    }
  }

  lemma LegWeightTotal(exposure: real, n: nat)
    requires exposure >= 0.0
    ensures LegWeight(exposure, n) >= 0.0 && n as real * LegWeight(exposure, n) <= exposure
  {
  }

  lemma {:induction false} WeightsLength(c: Params, sqrt: real -> real, n: nat, history: seq<seq<real>>)
    requires c.formation >= 1 && Rectangular(history, n)
    ensures var w := Run(c, sqrt, n, history).weights; w == [] || |w| == n
    decreases |history|
  {
    hide BookOk, PairsOk, Targets, Windows, Formed, MovedAll, LegWeight;
    if history != [] {
      WeightsLength(c, sqrt, n, history[..|history| - 1]);
    }
  }

  // ----- the tolerance hides no real change -----

  /** A non-zero whole number of legs is visible exactly when one leg is. */
  lemma WholeLegsVisible(m: int, leg: real)
    requires leg > TOLERANCE && m != 0
    ensures Abs(m as real * leg) > TOLERANCE
  {
    if m > 0 {
      Distribute(m - 1, 1, leg);
      NonNegativeProduct(m - 1, leg);
    } else {
      Distribute(0, m, leg);
      Distribute(-m - 1, 1, leg);
      NonNegativeProduct(-m - 1, leg);
    }
  }

  lemma NonNegativeProduct(m: nat, leg: real)
    requires leg >= 0.0
    ensures m as real * leg >= 0.0
  {
  }

  /** Every order that was due has been placed: the broker's last target is the current weight. */
  ghost predicate Synced(b: Book) {
    forall k :: 0 <= k < |b.ordered| ==> b.ordered[k] == Weight(b.weights, k)
  }

  /** A change of `d` legs is seen by the ledger, or there is nothing to see. */
  predicate Seen(d: int, leg: real) {
    d == 0 || leg == 0.0 || Abs(d as real * leg) > TOLERANCE
  }

  predicate LedgerSees(targets: seq<real>, weights: seq<real>, k: nat)
    requires k < |targets|
  {
    var change := targets[k] - Weight(weights, k);
    change == 0.0 || Abs(change) > TOLERANCE
  }

  ghost predicate AllSeen(targets: seq<real>, weights: seq<real>) {
    forall k :: 0 <= k < |targets| ==> LedgerSees(targets, weights, k)
  }

  lemma SeenIff(d: int, leg: real, change: real)
    requires change == d as real * leg
    ensures change == 0.0 || Abs(change) > TOLERANCE <==> Seen(d, leg)
  {
    if d != 0 && leg != 0.0 { NonZeroProduct(d as real, leg); }
  }

  lemma NonZeroProduct(x: real, y: real)
    requires x != 0.0 && y != 0.0
    ensures x * y != 0.0
  {
  }

  lemma ApplySyncsExactly(c: Params, b: Book)
    requires AllFit(b.pairs, |b.ordered|) && Synced(b)
    ensures Synced(ApplyWeights(c, b)) <==>
            AllSeen(Targets(b.pairs, |b.ordered|, LegWeight(c.exposure, |b.pairs|)), b.weights)
  {
    hide Targets, LegWeight, Abs;
    var t, next := Targets(b.pairs, |b.ordered|, LegWeight(c.exposure, |b.pairs|)), ApplyWeights(c, b);
    forall k | 0 <= k < |b.ordered| ensures next.ordered[k] == Weight(next.weights, k) <==> LedgerSees(t, b.weights, k) {
      assert next.weights[k] == t[k];
      assert b.ordered[k] == Weight(b.weights, k);
    }
    if Synced(next) {
      forall k | 0 <= k < |t| ensures LedgerSees(t, b.weights, k) {
        assert next.ordered[k] == Weight(next.weights, k);
      }
    }
    if AllSeen(t, b.weights) {
      forall k | 0 <= k < |next.ordered| ensures next.ordered[k] == Weight(next.weights, k) {
        assert LedgerSees(t, b.weights, k);
      }
    }
  }

  /** The weight of a feed moves by its change of legs. */
  lemma ChangeInLegs(c: Params, b: Book, moved: seq<Pair>, n: nat, k: nat)
    requires BookOk(c, n, b) && k < n && AllFit(moved, n)
    ensures var leg := LegWeight(c.exposure, |b.pairs|);
            Targets(moved, n, leg)[k] - Weight(b.weights, k) == (NetLegs(moved, k) - NetLegs(b.pairs, k)) as real * leg
  {
    hide Targets, LegWeight, NetLegs, BookOk;
    var leg := LegWeight(c.exposure, |b.pairs|);
    TargetIsWholeLegs(moved, n, leg, k);
    WeightIsWholeLegs(c, n, b, k);
    DifferenceOfLegs(NetLegs(moved, k), NetLegs(b.pairs, k), leg);
  }

  lemma DifferenceOfLegs(m: int, d: int, leg: real)
    ensures m as real * leg - d as real * leg == (m - d) as real * leg
  {
  }

  /** Going from one set of positions to another, every feed's change of legs is seen. */
  ghost predicate LegsSeen(next: seq<Pair>, now: seq<Pair>, n: nat, leg: real) {
    forall k :: 0 <= k < n ==> Seen(NetLegs(next, k) - NetLegs(now, k), leg)
  }

  lemma SeenTogether(t: seq<real>, weights: seq<real>, next: seq<Pair>, now: seq<Pair>, leg: real)
    requires forall k :: 0 <= k < |t| ==>
      t[k] - Weight(weights, k) == (NetLegs(next, k) - NetLegs(now, k)) as real * leg
    ensures AllSeen(t, weights) <==> LegsSeen(next, now, |t|, leg)
  {
    hide NetLegs, Weight, Seen, Abs;
    forall k | 0 <= k < |t| ensures LedgerSees(t, weights, k) <==> Seen(NetLegs(next, k) - NetLegs(now, k), leg) {
      SeenIff(NetLegs(next, k) - NetLegs(now, k), leg, t[k] - Weight(weights, k));
    }
    hide LedgerSees;
    if AllSeen(t, weights) {
      forall k | 0 <= k < |t| ensures Seen(NetLegs(next, k) - NetLegs(now, k), leg) { assert LedgerSees(t, weights, k); }
    }
    if LegsSeen(next, now, |t|, leg) {
      forall k | 0 <= k < |t| ensures LedgerSees(t, weights, k) {
        assert Seen(NetLegs(next, k) - NetLegs(now, k), leg);
      }
    }
  }

  /**
   A trading bar leaves the ledger right if and only if every feed's change of legs is either
   nothing or large enough to be seen.
   */
  lemma TradeSyncsExactly(c: Params, b: Book, prices: seq<real>)
    requires BookOk(c, |prices|, b) && Synced(b)
    ensures Synced(Trade(c, b, prices)) <==>
            LegsSeen(MovedAll(c, b.pairs, prices), b.pairs, |prices|, LegWeight(c.exposure, |b.pairs|))
  {
    hide MovedAll, Targets, LegWeight, PairOk, NetLegs, Owed, LegsSeen, AllSeen;
    MovedKeepsOk(c, b.pairs, prices);
    var moved := MovedAll(c, b.pairs, prices);
    var n, leg := |prices|, LegWeight(c.exposure, |b.pairs|);
    if moved != b.pairs {
      var next, t := b.(pairs := moved, bars := b.bars + 1), Targets(moved, n, leg);
      forall k | 0 <= k < |t| ensures t[k] - Weight(b.weights, k) == (NetLegs(moved, k) - NetLegs(b.pairs, k)) as real * leg {
        ChangeInLegs(c, b, moved, n, k);
      }
      SeenTogether(t, b.weights, moved, b.pairs, leg);
      ApplySyncsExactly(c, next);
    } else {
      NothingToSee(b.pairs, n, leg);
    }
  }

  lemma NothingToSee(pairs: seq<Pair>, n: nat, leg: real)
    ensures LegsSeen(pairs, pairs, n, leg)
  {
    hide NetLegs, Seen;
    LegIsSeen(0, leg);
  }

  lemma LegIsSeen(d: int, leg: real)
    requires d == 0 || leg > TOLERANCE
    ensures Seen(d, leg)
  {
    if d != 0 { WholeLegsVisible(d, leg); }
  }

  /** A re-formation leaves the ledger right if and only if what it closes is large enough to be seen. */
  lemma ReformSyncsExactly(c: Params, sqrt: real -> real, b: Book, closes: seq<seq<real>>)
    requires Aligned(closes) && |closes| == |b.ordered| && BookOk(c, |b.ordered|, b) && Synced(b)
    ensures Synced(Reform(c, sqrt, b, closes)) <==>
            LegsSeen([], b.pairs, |b.ordered|, LegWeight(c.exposure, |b.pairs|))
  {
    hide Formed, Targets, LegWeight, PairOk, BookOk, NetLegs, LegsSeen, AllSeen;
    FormedFits(c, sqrt, closes);
    var pairs, n, leg := Formed(c, sqrt, closes), |b.ordered|, LegWeight(c.exposure, |b.pairs|);
    var t := Targets(pairs, n, LegWeight(c.exposure, |pairs|));
    forall k | 0 <= k < |t| ensures t[k] - Weight(b.weights, k) == (NetLegs([], k) - NetLegs(b.pairs, k)) as real * leg {
      FlatTarget(pairs, n, LegWeight(c.exposure, |pairs|), k);
      WeightIsWholeLegs(c, n, b, k);
      FlatHasNoLegs([], k);
      DifferenceOfLegs(0, NetLegs(b.pairs, k), leg);
    }
    SeenTogether(t, b.weights, [], b.pairs, leg);
    ApplySyncsExactly(c, b.(pairs := pairs, bars := 0));
  }

  lemma FlatTarget(pairs: seq<Pair>, n: nat, leg: real, k: nat)
    requires AllFit(pairs, n) && k < n && forall q :: 0 <= q < |pairs| ==> pairs[q].side == 0
    ensures Targets(pairs, n, leg)[k] == 0.0
  {
    hide Targets, NetLegs;
    TargetIsWholeLegs(pairs, n, leg, k);
    FlatHasNoLegs(pairs, k);
  }

  lemma {:induction false} FlatHasNoLegs(pairs: seq<Pair>, k: nat)
    requires forall q :: 0 <= q < |pairs| ==> pairs[q].side == 0
    ensures NetLegs(pairs, k) == 0
    decreases |pairs|
  {
    if pairs != [] { FlatHasNoLegs(pairs[..|pairs| - 1], k); }
  }

  lemma LegWeightVisible(c: Params, n: nat)
    requires c.nPairs >= 1 && n <= c.nPairs && c.exposure / c.nPairs as real > TOLERANCE
    ensures LegWeight(c.exposure, n) > TOLERANCE
  {
    var m, d := if n == 0 then 1 else n, c.nPairs;
    var x := c.exposure / d as real;
    assert x * d as real == c.exposure;
    assert LegWeight(c.exposure, n) * m as real == x * d as real;
    Distribute(m, d - m, x);
    NonNegativeProduct(d - m, x);
    assert LegWeight(c.exposure, n) * m as real >= x * m as real;
    Larger(LegWeight(c.exposure, n), x, m as real);
  }

  lemma Larger(x: real, y: real, m: real)
    requires m > 0.0 && x * m >= y * m
    ensures x >= y
  {
    assert (x - y) * m >= 0.0;
  }

  lemma LegsAreSeen(next: seq<Pair>, now: seq<Pair>, n: nat, leg: real)
    requires leg > TOLERANCE
    ensures LegsSeen(next, now, n, leg)
  {
    hide NetLegs, Seen;
    forall k | 0 <= k < n ensures Seen(NetLegs(next, k) - NetLegs(now, k), leg) {
      LegIsSeen(NetLegs(next, k) - NetLegs(now, k), leg);
    }
  }

  lemma TradeSyncs(c: Params, b: Book, prices: seq<real>)
    requires BookOk(c, |prices|, b) && Synced(b) && LegWeight(c.exposure, |b.pairs|) > TOLERANCE
    ensures Synced(Trade(c, b, prices))
  {
    hide BookOk, MovedAll, LegWeight, LegsSeen, Synced, Trade;
    assert PairsOk(b.pairs, |prices|) by { BookPairs(c, |prices|, b); }
    LegsAreSeen(MovedAll(c, b.pairs, prices), b.pairs, |prices|, LegWeight(c.exposure, |b.pairs|));
    TradeSyncsExactly(c, b, prices);
  }

  lemma BookPairs(c: Params, n: nat, b: Book)
    requires BookOk(c, n, b)
    ensures |b.ordered| == n && PairsOk(b.pairs, n)
  {
  }

  lemma ReformSyncs(c: Params, sqrt: real -> real, b: Book, closes: seq<seq<real>>)
    requires Aligned(closes) && |closes| == |b.ordered|
    requires BookOk(c, |b.ordered|, b) && Synced(b) && LegWeight(c.exposure, |b.pairs|) > TOLERANCE
    ensures Synced(Reform(c, sqrt, b, closes))
  {
    hide LegWeight, LegsSeen, Synced, Reform, BookOk;
    LegsAreSeen([], b.pairs, |b.ordered|, LegWeight(c.exposure, |b.pairs|));
    ReformSyncsExactly(c, sqrt, b, closes);
  }

  /**
   Over every run, through re-formations to books of any size, the last target ordered for
   each feed is its current weight: skipping small changes never skipped a real one.
   */
  lemma {:induction false} RunStaysSynced(c: Params, sqrt: real -> real, n: nat, history: seq<seq<real>>)
    requires c.formation >= 1 && Rectangular(history, n)
    requires c.nPairs >= 1 && c.exposure / c.nPairs as real > TOLERANCE
    ensures Synced(Run(c, sqrt, n, history))
    decreases |history|
  {
    hide BookOk, PairsOk, Trade, Reform, Windows, LegWeight, Synced;
    if history == [] {
      EmptySynced(n);
    } else {
      var b := Run(c, sqrt, n, history[..|history| - 1]);
      RunStaysSynced(c, sqrt, n, history[..|history| - 1]);
      BookParts(c, b);
      LegWeightVisible(c, |b.pairs|);
      if Reforms(c, b, |history|) {
        ReformSyncs(c, sqrt, b, Windows(history, n, c.formation));
      } else if |history| >= c.formation {
        TradeSyncs(c, b, history[|history| - 1]);
      }
    }
  }

  lemma EmptySynced(n: nat)
    ensures Synced(Empty(n))
  {
  }

  // ----- and when it does -----

  lemma {:induction false} NetLegsBound(pairs: seq<Pair>, k: nat)
    requires forall q :: 0 <= q < |pairs| ==> SideOk(pairs[q]) && pairs[q].i != pairs[q].j
    ensures 0 <= NetLegs(pairs, k) + |pairs| && NetLegs(pairs, k) <= |pairs|
    decreases |pairs|
  {
    if pairs != [] { NetLegsBound(pairs[..|pairs| - 1], k); }
  }

  lemma LegsWithin(m: int, count: nat, leg: real, limit: real)
    requires 0 <= m + count && m <= count && leg >= 0.0 && count as real * leg <= limit
    ensures Abs(m as real * leg) <= limit
  {
    Distribute(m, count - m, leg);
    NonNegativeProduct(count - m, leg);
    Distribute(-m, count + m, leg);
    NonNegativeProduct(count + m, leg);
    Distribute(0, m, leg);
  }

  /** No feed carries more than the whole exposure. */
  lemma WeightWithin(c: Params, n: nat, b: Book, k: nat)
    requires BookOk(c, n, b) && k < n && c.exposure >= 0.0
    ensures Abs(Weight(b.weights, k)) <= c.exposure
  {
    hide Targets, LegWeight, NetLegs, Owed;
    WeightIsWholeLegs(c, n, b, k);
    OkFits(b.pairs, n);
    forall q | 0 <= q < |b.pairs| ensures SideOk(b.pairs[q]) && b.pairs[q].i != b.pairs[q].j {
      assert Fits(b.pairs[q], n);
    }
    NetLegsBound(b.pairs, k);
    LegWeightTotal(c.exposure, |b.pairs|);
    LegsWithin(NetLegs(b.pairs, k), |b.pairs|, LegWeight(c.exposure, |b.pairs|), c.exposure);
  }

  /** What an order round does to feed `k`. */
  lemma StepOrders(c: Params, sqrt: real -> real, b: Book, history: seq<seq<real>>, k: nat)
    requires c.formation >= 1 && Rectangular(history, |b.ordered|) && history != [] && k < |b.ordered|
    requires BookOk(c, |b.ordered|, b)
    ensures var next := Step(c, sqrt, b, history);
            && |next.ordered| == |b.ordered|
            && (next.ordered[k] == b.ordered[k] || Abs(Weight(next.weights, k) - Weight(b.weights, k)) > TOLERANCE)
  {
    hide Targets, LegWeight, MovedAll, Formed, Windows, Abs, Owed;
    assert PairsOk(b.pairs, |b.ordered|);
    if |history| >= c.formation {
      if Reforms(c, b, |history|) {
        FormedFits(c, sqrt, Windows(history, |b.ordered|, c.formation));
      } else {
        MovedKeepsOk(c, b.pairs, history[|history| - 1]);
      }
    }
  }

  /** With an exposure within half the tolerance no order is ever placed, in any run. */
  lemma {:induction false} NothingIsEverOrdered(c: Params, sqrt: real -> real, n: nat, history: seq<seq<real>>, k: nat)
    requires c.formation >= 1 && Rectangular(history, n) && k < n
    requires 0.0 <= c.exposure && 2.0 * c.exposure <= TOLERANCE
    ensures Run(c, sqrt, n, history).ordered[k] == 0.0
    decreases |history|
  {
    hide BookOk, Step;
    if history != [] {
      var past := history[..|history| - 1];
      NothingIsEverOrdered(c, sqrt, n, past, k);
      var b, next := Run(c, sqrt, n, past), Run(c, sqrt, n, history);
      WeightWithin(c, n, b, k);
      WeightWithin(c, n, next, k);
      StepOrders(c, sqrt, b, history, k);
    }
  }

  /** Two feeds that part at the second bar of the formation window, and then the first one jumps. */
  function Parting(jump: real): seq<seq<real>> {
    [[1.0, 1.0], [1.0, 2.0], [jump, 1.0]]
  }

  function PartingWindow(): seq<seq<real>> {
    [[1.0, 1.0], [1.0, 2.0]]
  }

  lemma PartingSpread()
    ensures Aligned(PartingWindow()) && |PartingWindow()| == 2
    ensures var s := Spreads([1.0, 1.0], [1.0, 2.0]);
            s == [0.0, -1.0] && Sum(s) == -1.0 && SumSquares(s, -0.5) == 0.5 && SumSquares(s, 0.0) == 1.0
  {
    var s := Spreads([1.0, 1.0], [1.0, 2.0]);
    assert s == [0.0, -1.0];
    assert s[..1] == [0.0] && s[..1][..0] == [];
    assert Sum([0.0]) == 0.0 && SumSquares([0.0], -0.5) == 0.25 && SumSquares([0.0], 0.0) == 0.0;
  }

  function PartingCandidate(sqrt: real -> real): Candidate {
    Candidate(1.0, 0, 1, sqrt(0.5))
  }

  lemma PartingJudged(sqrt: real -> real, c: Candidate)
    requires sqrt(0.5) > 0.0 && Aligned(PartingWindow())
    ensures Judged(PartingWindow(), sqrt, c) <==> c == PartingCandidate(sqrt)
  {
    hide Sum, SumSquares, Spreads;
    PartingSpread();
    var w := PartingWindow();
    assert w[0] == [1.0, 1.0] && w[1] == [1.0, 2.0];
    assert Judge(w, sqrt, 0, 1) == Some(PartingCandidate(sqrt));
  }

  lemma PartingSelected(sqrt: real -> real, nPairs: nat)
    requires sqrt(0.5) > 0.0 && nPairs >= 1 && Aligned(PartingWindow())
    ensures Selected(PartingWindow(), sqrt, nPairs) == [PartingCandidate(sqrt)]
  {
    hide Judged, Selected, Aligned;
    var book, only := Selected(PartingWindow(), sqrt, nPairs), PartingCandidate(sqrt);
    SelectedIsBest(PartingWindow(), sqrt, nPairs);
    forall c ensures Judged(PartingWindow(), sqrt, c) <==> c == only { PartingJudged(sqrt, c); }
    assert Judged(PartingWindow(), sqrt, only);
    assert forall a :: 0 <= a < |book| ==> book[a] == only;
    if |book| > 1 { TwoAlike(book, only); }
  }

  lemma TwoAlike(book: seq<Candidate>, only: Candidate)
    requires |book| > 1 && forall a :: 0 <= a < |book| ==> book[a] == only
    ensures exists a, b :: 0 <= a < b < |book| && (book[a].i, book[a].j) == (book[b].i, book[b].j)
  {
    assert (book[0].i, book[0].j) == (book[1].i, book[1].j);
  }

  function PartingPair(sqrt: real -> real, side: int): Pair {
    Pair(0, 1, 1.0, 1.0, sqrt(0.5), side)
  }

  lemma PartingFormed(c: Params, sqrt: real -> real)
    requires sqrt(0.5) > 0.0 && c.nPairs >= 1 && Aligned(PartingWindow())
    ensures Formed(c, sqrt, PartingWindow()) == [PartingPair(sqrt, 0)]
  {
    hide Selected, Aligned;
    PartingSelected(sqrt, c.nPairs);
  }

  lemma PartingFlat(c: Params, sqrt: real -> real)
    requires sqrt(0.5) > 0.0 && c.nPairs >= 1 && Aligned(PartingWindow())
    ensures var b := Reform(c, sqrt, Empty(2), PartingWindow());
            && b.pairs == [PartingPair(sqrt, 0)] && b.bars == 0 && |b.ordered| == 2
            && b.ordered == Zeros(2) && b.weights == Zeros(2)
  {
    hide Formed, LegWeight, Aligned;
    PartingFormed(c, sqrt);
    var p := [PartingPair(sqrt, 0)];
    assert p[..0] == [];
    assert Targets(p, 2, LegWeight(c.exposure, 1)) == Zeros(2);
  }

  lemma PartingBook(c: Params, sqrt: real -> real, jump: real)
    requires sqrt(0.5) > 0.0 && c.nPairs >= 1 && c.formation == 2
    ensures Aligned(PartingWindow()) && Rectangular(Parting(jump)[..2], 2)
    ensures Run(c, sqrt, 2, Parting(jump)[..2]) == Reform(c, sqrt, Empty(2), PartingWindow())
  {
    hide Reform, Formed, BookOk, PairsOk, Trade;
    PartingSpread();
    var h := Parting(jump)[..2];
    assert h == [[1.0, 1.0], [1.0, 2.0]];
    assert h[..1] == [[1.0, 1.0]] && h[..1][..0] == [];
    assert Run(c, sqrt, 2, []) == Empty(2);
    assert Run(c, sqrt, 2, h[..1]) == Empty(2);
    var w := Windows(h, 2, 2);
    assert w[0] == [1.0, 1.0] && w[1] == [1.0, 2.0];
    assert w == PartingWindow();
  }

  lemma PartingOpens(c: Params, sqrt: real -> real, jump: real)
    requires sqrt(0.5) > 0.0 && c.entrySigma >= 0.0 && jump == 2.0 + c.entrySigma * sqrt(0.5)
    ensures PairsOk([PartingPair(sqrt, 0)], 2)
    ensures MovedAll(c, [PartingPair(sqrt, 0)], [jump, 1.0]) == [PartingPair(sqrt, 1)]
  {
    ThresholdNonNegative(c.entrySigma, sqrt(0.5));
    var p := PartingPair(sqrt, 0);
    assert Spread(p, [jump, 1.0]) == Some(jump - 1.0);
    assert Moved(c, p, [jump, 1.0]) == PartingPair(sqrt, 1);
  }

  /** One leg short and one long of two feeds, by a single open pair. */
  lemma OneOpenPair(p: Pair)
    requires p.i == 0 && p.j == 1
    ensures NetLegs([p], 1) == p.side
  {
    assert [p][..0] == [];
  }

  /**
   A whole run, on three bars of two feeds, that ends with a position nobody ordered: with an
   exposure within the tolerance, the opening of its only pair is not seen.
   */
  lemma SmallLegIsHidden(c: Params, sqrt: real -> real, jump: real)
    requires c.formation == 2 && c.trading >= 1 && c.nPairs >= 1 && c.entrySigma >= 0.0
    requires 0.0 < c.exposure <= TOLERANCE && sqrt(0.5) > 0.0 && jump == 2.0 + c.entrySigma * sqrt(0.5)
    ensures Rectangular(Parting(jump), 2) && !Synced(Run(c, sqrt, 2, Parting(jump)))
  {
    var h := Parting(jump);
    var b := Run(c, sqrt, 2, h[..2]);
    PartingBook(c, sqrt, jump);
    PartingFlat(c, sqrt);
    PartingOpens(c, sqrt, jump);
    hide Run, Reform, MovedAll, Trade, Spread;
    assert b.pairs == [PartingPair(sqrt, 0)];
    PartingTrades(c, sqrt, jump);
    PartingUnseen(c, sqrt);
    TradeSyncsExactly(c, b, [jump, 1.0]);
  }

  lemma PartingTrades(c: Params, sqrt: real -> real, jump: real)
    requires c.formation == 2 && c.trading >= 1 && c.nPairs >= 1 && sqrt(0.5) > 0.0
    ensures var h := Parting(jump); var b := Run(c, sqrt, 2, h[..2]);
            && BookOk(c, 2, b) && Synced(b) && Run(c, sqrt, 2, h) == Trade(c, b, [jump, 1.0])
  {
    hide Reform, Trade, Formed;
    var h := Parting(jump);
    PartingBook(c, sqrt, jump);
    PartingFlat(c, sqrt);
    var b := Run(c, sqrt, 2, h[..2]);
    assert h[..|h| - 1] == h[..2];
    assert h[2] == [jump, 1.0];
  }

  lemma PartingUnseen(c: Params, sqrt: real -> real)
    requires 0.0 < c.exposure <= TOLERANCE
    ensures !LegsSeen([PartingPair(sqrt, 1)], [PartingPair(sqrt, 0)], 2, LegWeight(c.exposure, 1))
  {
    hide NetLegs;
    OneOpenPair(PartingPair(sqrt, 1));
    OneOpenPair(PartingPair(sqrt, 0));
    assert LegWeight(c.exposure, 1) == c.exposure;
    assert !Seen(1, c.exposure);
    assert !Seen(NetLegs([PartingPair(sqrt, 1)], 1) - NetLegs([PartingPair(sqrt, 0)], 1), c.exposure);
  }

  // ----- sides -----

  /** Both legs have a price. */
  predicate Quoted(p: Pair, prices: seq<real>)
    requires Fits(p, |prices|)
  {
    prices[p.i] > 0.0 && prices[p.j] > 0.0
  }

  /**
   What a bar makes of a pair's side. Without both prices it stays. A flat pair opens exactly when
   the gap of its normalised prices is beyond the threshold either way, short the rich leg; an
   open pair closes exactly when the gap has left its side, and never flips.
   */
  ghost predicate Turns(c: Params, p: Pair, prices: seq<real>, next: int)
    requires PairOk(p, |prices|)
  {
    var gap, limit := prices[p.i] / p.baseI - prices[p.j] / p.baseJ, c.entrySigma * p.sigma;
    if !Quoted(p, prices) then next == p.side
    else if p.side == 0 then
      && (next != 0 <==> gap > limit || -gap > limit)
      && (next != 0 ==> next == if gap > 0.0 then 1 else -1)
      && (next != 0 && c.entrySigma >= 0.0 ==> next as real * gap > 0.0)
    else next == if p.side as real * gap > 0.0 then p.side else 0
  }

  lemma SideMoves(c: Params, p: Pair, prices: seq<real>)
    requires PairOk(p, |prices|)
    ensures Turns(c, p, prices, Moved(c, p, prices).side) && SameLegs(p, Moved(c, p, prices))
  {
    var gap := prices[p.i] / p.baseI - prices[p.j] / p.baseJ;
    assert 1.0 * gap == gap && (-1.0) * gap == -gap;
    if c.entrySigma >= 0.0 {
      ThresholdNonNegative(c.entrySigma, p.sigma);
    }
  }

  lemma ThresholdNonNegative(e: real, sigma: real)
    requires e >= 0.0 && sigma > 0.0
    ensures e * sigma >= 0.0
  {
  }

  /** The book at bar `t` (after `t` bars). */
  ghost function At(c: Params, sqrt: real -> real, n: nat, history: seq<seq<real>>, t: nat): Book
    requires c.formation >= 1 && Rectangular(history, n) && t <= |history|
  {
    Run(c, sqrt, n, history[..t])
  }

  /** Whether bar `t` (the `t`-th, counting from one) replaced the book. */
  ghost predicate ReformedAt(c: Params, sqrt: real -> real, n: nat, history: seq<seq<real>>, t: nat)
    requires c.formation >= 1 && Rectangular(history, n) && 1 <= t <= |history|
  {
    Reforms(c, At(c, sqrt, n, history, t - 1), t)
  }

  lemma AtStep(c: Params, sqrt: real -> real, n: nat, history: seq<seq<real>>, t: nat)
    requires c.formation >= 1 && Rectangular(history, n) && 1 <= t <= |history|
    ensures var b, b' := At(c, sqrt, n, history, t - 1), At(c, sqrt, n, history, t);
            && BookOk(c, n, b) && |b.ordered| == n && PairsOk(b.pairs, n)
            && (t < c.formation ==> b' == b)
            && (ReformedAt(c, sqrt, n, history, t) ==>
                  b'.bars == 0 && forall k :: 0 <= k < |b'.pairs| ==> b'.pairs[k].side == 0)
            && (t >= c.formation && !ReformedAt(c, sqrt, n, history, t) ==>
                  b'.bars == b.bars + 1 && b'.pairs == MovedAll(c, b.pairs, history[t - 1]))
  {
    hide Formed, Windows, MovedAll, Targets, LegWeight, PairOk;
    var h := history[..t];
    assert h[..t - 1] == history[..t - 1];
    var b := Run(c, sqrt, n, h[..t - 1]);
    if Reforms(c, b, t) {
      FormedFits(c, sqrt, Windows(h, n, c.formation));
    }
  }

  /**
   A non-empty book lives exactly `trading + 1` bars: it ages by one each bar, keeps its legs,
   and is replaced on the bar after it reaches `trading`.
   */
  lemma {:induction false} BookLifetime(c: Params, sqrt: real -> real, n: nat, history: seq<seq<real>>, t: nat, d: nat)
    requires c.formation >= 1 && Rectangular(history, n) && 1 <= t && t + d <= |history|
    requires ReformedAt(c, sqrt, n, history, t) && At(c, sqrt, n, history, t).pairs != []
    requires d <= c.trading
    ensures var b := At(c, sqrt, n, history, t + d);
            && b.bars == d && |b.pairs| == |At(c, sqrt, n, history, t).pairs|
            && forall k :: 0 <= k < |b.pairs| ==> SameLegs(b.pairs[k], At(c, sqrt, n, history, t).pairs[k])
    ensures t + d + 1 <= |history| ==> (ReformedAt(c, sqrt, n, history, t + d + 1) <==> d == c.trading)
    decreases d
  {
    hide At, BookOk, PairsOk, MovedAll;
    if d == 0 {
      AtStep(c, sqrt, n, history, t);
    } else {
      BookLifetime(c, sqrt, n, history, t, d - 1);
      AtStep(c, sqrt, n, history, t + d);
      MovedKeepsOk(c, At(c, sqrt, n, history, t + d - 1).pairs, history[t + d - 1]);
    }
    ReformedIs(c, sqrt, n, history, t);
    if t + d + 1 <= |history| { ReformedIs(c, sqrt, n, history, t + d + 1); }
  }

  lemma ReformedIs(c: Params, sqrt: real -> real, n: nat, history: seq<seq<real>>, t: nat)
    requires c.formation >= 1 && Rectangular(history, n) && 1 <= t <= |history|
    ensures ReformedAt(c, sqrt, n, history, t)
       <==> t >= c.formation
            && (At(c, sqrt, n, history, t - 1).pairs == [] || At(c, sqrt, n, history, t - 1).bars >= c.trading)
  {
  }

  /** Pair `k` sits on side `s`, and its spread, where the bar has one, is strictly on that side. */
  ghost predicate Held(b: Book, prices: seq<real>, k: nat, s: int) {
    && k < |b.pairs| && PairOk(b.pairs[k], |prices|) && b.pairs[k].side == s
    && var d := Spread(b.pairs[k], prices);
       d.Some? ==> s as real * d.value > 0.0
  }

  /** Bar `m` opened pair `k`: flat before it, and its spread beyond the threshold. */
  ghost predicate Entered(c: Params, before: Book, prices: seq<real>, k: nat) {
    && k < |before.pairs| && PairOk(before.pairs[k], |prices|) && before.pairs[k].side == 0
    && var d := Spread(before.pairs[k], prices);
       d.Some? && Abs(d.value) > c.entrySigma * before.pairs[k].sigma
  }

  /**
   Every open pair of every run entered at some bar of the current book on a spread beyond its
   threshold, and has kept its side and the strict sign of its spread on every bar since.
   */
  lemma {:induction false} OpenSince(c: Params, sqrt: real -> real, n: nat, history: seq<seq<real>>, t: nat, k: nat)
    returns (m: nat)
    requires c.formation >= 1 && Rectangular(history, n) && t <= |history| && c.entrySigma >= 0.0
    requires k < |At(c, sqrt, n, history, t).pairs| && At(c, sqrt, n, history, t).pairs[k].side != 0
    ensures c.formation <= m <= t
    ensures Entered(c, At(c, sqrt, n, history, m - 1), history[m - 1], k)
    ensures forall u :: m <= u <= t ==>
              && !ReformedAt(c, sqrt, n, history, u)
              && Held(At(c, sqrt, n, history, u), history[u - 1], k, At(c, sqrt, n, history, t).pairs[k].side)
    decreases t
  {
    hide At, BookOk, MovedAll, ReformedAt;
    if t == 0 {
      NoBars(c, sqrt, n, history);
      assert false;
    } else {
      var b, b' := At(c, sqrt, n, history, t - 1), At(c, sqrt, n, history, t);
      AtStep(c, sqrt, n, history, t);
      if t < c.formation {
        m := OpenSince(c, sqrt, n, history, t - 1, k);
      } else {
        MovedKeepsOk(c, b.pairs, history[t - 1]);
        MovedAt(c, b.pairs, history[t - 1], k);
        if b.pairs[k].side == 0 {
          m := t;
        } else {
          m := OpenSince(c, sqrt, n, history, t - 1, k);
        }
      }
    }
  }

  lemma NoBars(c: Params, sqrt: real -> real, n: nat, history: seq<seq<real>>)
    requires c.formation >= 1 && Rectangular(history, n)
    ensures At(c, sqrt, n, history, 0).pairs == []
  {
  }

  /** What a trading bar did to pair `k`, when it left it open. */
  lemma MovedAt(c: Params, pairs: seq<Pair>, prices: seq<real>, k: nat)
    requires PairsOk(pairs, |prices|) && k < |pairs| && c.entrySigma >= 0.0
    requires MovedAll(c, pairs, prices)[k].side != 0
    ensures var p, p' := pairs[k], MovedAll(c, pairs, prices)[k];
            && PairOk(p, |prices|) && PairOk(p', |prices|) && SameLegs(p, p')
            && (p.side == 0 ==> var d := Spread(p, prices); d.Some? && Abs(d.value) > c.entrySigma * p.sigma)
            && (p.side != 0 ==> p'.side == p.side)
            && (var d := Spread(p', prices); d.Some? ==> p'.side as real * d.value > 0.0)
  {
    assert PairOk(pairs[k], |prices|);
    SideMoves(c, pairs[k], prices);
    var p, p' := pairs[k], MovedAll(c, pairs, prices)[k];
    assert Spread(p, prices) == Spread(p', prices);
  }

  /** Every pair is turned by that rule and keeps its legs. */
  ghost predicate AllTurn(c: Params, pairs: seq<Pair>, prices: seq<real>, next: seq<Pair>) {
    && |next| == |pairs|
    && forall k :: 0 <= k < |pairs| ==>
         PairOk(pairs[k], |prices|) && SameLegs(pairs[k], next[k]) && Turns(c, pairs[k], prices, next[k].side)
  }

  lemma MovedTurns(c: Params, pairs: seq<Pair>, prices: seq<real>)
    requires PairsOk(pairs, |prices|)
    ensures AllTurn(c, pairs, prices, MovedAll(c, pairs, prices))
  {
    hide PairOk, MovedAll, Moved, Turns, SameLegs;
    MovedKeepsOk(c, pairs, prices);
    forall k | 0 <= k < |pairs|
      ensures PairOk(pairs[k], |prices|) && SameLegs(pairs[k], MovedAll(c, pairs, prices)[k])
      ensures Turns(c, pairs[k], prices, MovedAll(c, pairs, prices)[k].side)
    {
      MovedIs(c, pairs, prices, k);
      SideMoves(c, pairs[k], prices);
    }
  }

  /**
   Every bar of every run that neither waits nor replaces the book turns each of its pairs by that
   rule; in particular a flat pair beyond its threshold is open on the side of its gap after it.
   */
  lemma BarTurns(c: Params, sqrt: real -> real, n: nat, history: seq<seq<real>>, t: nat)
    requires c.formation >= 1 && Rectangular(history, n) && c.formation <= t <= |history|
    requires !ReformedAt(c, sqrt, n, history, t)
    ensures AllTurn(c, At(c, sqrt, n, history, t - 1).pairs, history[t - 1], At(c, sqrt, n, history, t).pairs)
  {
    hide At, BookOk, ReformedAt, AllTurn, MovedAll;
    AtStep(c, sqrt, n, history, t);
    MovedTurns(c, At(c, sqrt, n, history, t - 1).pairs, history[t - 1]);
  }

  /** So a flat pair whose gap is beyond its threshold, either way, is open on the side of the gap after the bar. */
  lemma FlatPairOpens(c: Params, sqrt: real -> real, n: nat, history: seq<seq<real>>, t: nat, k: nat, gap: real)
    requires c.formation >= 1 && Rectangular(history, n) && c.formation <= t <= |history| && c.entrySigma >= 0.0
    requires !ReformedAt(c, sqrt, n, history, t) && k < |At(c, sqrt, n, history, t - 1).pairs|
    requires var p := At(c, sqrt, n, history, t - 1).pairs[k];
             && p.side == 0 && PairOk(p, n) && Quoted(p, history[t - 1])
             && gap == history[t - 1][p.i] / p.baseI - history[t - 1][p.j] / p.baseJ
    ensures |At(c, sqrt, n, history, t).pairs| == |At(c, sqrt, n, history, t - 1).pairs|
    ensures var limit, side := c.entrySigma * At(c, sqrt, n, history, t - 1).pairs[k].sigma,
                               At(c, sqrt, n, history, t).pairs[k].side;
            && (gap > limit ==> side == 1) && (-gap > limit ==> side == -1)
            && (gap <= limit && -gap <= limit ==> side == 0)
  {
    hide At, ReformedAt, PairOk, SameLegs;
    BarTurns(c, sqrt, n, history, t);
    var p := At(c, sqrt, n, history, t - 1).pairs[k];
    assert p.sigma > 0.0 by { PairSigma(p, n); }
    ThresholdNonNegative(c.entrySigma, p.sigma);
    assert Turns(c, p, history[t - 1], At(c, sqrt, n, history, t).pairs[k].side);
  }

  lemma PairSigma(p: Pair, n: nat)
    requires PairOk(p, n)
    ensures p.sigma > 0.0
  {
  }

  /** `closes` holds, feed by feed, the `w` bars of `history` that end at bar `t`. */
  ghost predicate Trailing(closes: seq<seq<real>>, history: seq<seq<real>>, n: nat, t: nat, w: nat)
    requires Rectangular(history, n) && w <= t <= |history|
  {
    && |closes| == n
    && (forall d :: 0 <= d < n ==> |closes[d]| == w)
    && (forall d, k :: 0 <= d < n && 0 <= k < w ==> closes[d][k] == history[t - w + k][d])
  }

  /** `pairs` is the book of `chosen`, flat, each leg based at its first close of the window. */
  ghost predicate Opening(pairs: seq<Pair>, chosen: seq<Candidate>, history: seq<seq<real>>, n: nat, first: nat)
    requires Rectangular(history, n) && first < |history|
  {
    && |pairs| == |chosen|
    && forall k :: 0 <= k < |pairs| ==>
         && pairs[k].i == chosen[k].i < n && pairs[k].j == chosen[k].j < n && pairs[k].side == 0
         && pairs[k].baseI == history[first][pairs[k].i] && pairs[k].baseJ == history[first][pairs[k].j]
         && pairs[k].sigma == chosen[k].sigma
  }

  /** A bar that replaces the book takes the best pairs of the formation window that ends with it. */
  lemma BarForms(c: Params, sqrt: real -> real, n: nat, history: seq<seq<real>>, t: nat, closes: seq<seq<real>>)
    requires c.formation >= 1 && Rectangular(history, n) && c.formation <= t <= |history|
    requires ReformedAt(c, sqrt, n, history, t) && Trailing(closes, history, n, t, c.formation)
    ensures Aligned(closes)
    ensures Opening(At(c, sqrt, n, history, t).pairs, Selected(closes, sqrt, c.nPairs), history, n, t - c.formation)
  {
    hide BookOk, PairsOk, Trade, Selected, LegWeight, Targets;
    var h := history[..t];
    assert h[..t - 1] == history[..t - 1];
    var w := Windows(h, n, c.formation);
    SameWindow(closes, w, history, n, t, c.formation);
    FormedIs(c, sqrt, closes);
    ReformKeepsOk(c, sqrt, At(c, sqrt, n, history, t - 1), closes);
    hide Formed, Reform;
    assert At(c, sqrt, n, history, t).pairs == Formed(c, sqrt, closes);
  }

  lemma SameWindow(closes: seq<seq<real>>, w: seq<seq<real>>, history: seq<seq<real>>, n: nat, t: nat, size: nat)
    requires Rectangular(history, n) && 1 <= size <= t <= |history|
    requires Trailing(closes, history, n, t, size) && w == Windows(history[..t], n, size)
    ensures closes == w && Aligned(closes)
  {
    forall d | 0 <= d < n ensures closes[d] == w[d] {
      forall k | 0 <= k < size ensures closes[d][k] == w[d][k] {
        assert history[..t][t - size + k] == history[t - size + k];
      }
    }
  }

  lemma FormedIs(c: Params, sqrt: real -> real, closes: seq<seq<real>>)
    requires Aligned(closes)
    ensures var pairs, chosen := Formed(c, sqrt, closes), Selected(closes, sqrt, c.nPairs);
            && |pairs| == |chosen|
            && forall k :: 0 <= k < |pairs| ==>
                 && chosen[k].i < |closes| && chosen[k].j < |closes|
                 && closes[chosen[k].i] != [] && closes[chosen[k].j] != []
                 && pairs[k] == Pair(chosen[k].i, chosen[k].j, closes[chosen[k].i][0], closes[chosen[k].j][0],
                                     chosen[k].sigma, 0)
  {
    hide Selected;
    SelectedIsBest(closes, sqrt, c.nPairs);
    var chosen := Selected(closes, sqrt, c.nPairs);
    forall k | 0 <= k < |chosen| ensures chosen[k].i < |closes| && chosen[k].j < |closes| {
      assert Judged(closes, sqrt, chosen[k]);
    }
  }

  // ----- the strategy object -----

  class Strategy {
    const params: Params
    const sqrt: real -> real
    const n: nat
    var pairs: seq<Pair>
    var bars: nat
    var weights: seq<real>
    var ordered: seq<real>

    ghost function View(): Book
      reads this
    {
      Book(pairs, bars, weights, ordered)
    }

    constructor (c: Params, sqrt: real -> real, n: nat)
      ensures params == c && this.sqrt == sqrt && this.n == n && View() == Empty(n)
    {
      params, this.sqrt, this.n := c, sqrt, n;
      pairs, bars, weights, ordered := [], 0, [], Zeros(n);
    }

    /** `_apply_weights`: net the open pairs, then order every feed whose target moved. */
    method Apply()
      requires AllFit(pairs, |ordered|)
      modifies this`weights, this`ordered
      ensures View() == ApplyWeights(params, old(View()))
      ensures |weights| == |ordered| == |old(ordered)|
      ensures forall k :: 0 <= k < |ordered| ==>
                ordered[k] == if Abs(weights[k] - Weight(old(weights), k)) > 0.000000001 then weights[k] else old(ordered)[k]
    {
      hide LegWeight, AddPair, Weight;
      var leg := LegWeight(params.exposure, |pairs|);
      var targets := Zeros(|ordered|);
      var k := 0;
      while k < |pairs|
        invariant 0 <= k <= |pairs| && targets == Targets(pairs[..k], |ordered|, leg)
      {
        assert pairs[..k + 1][..k] == pairs[..k];
        targets := AddPair(targets, pairs[k], leg);
        k := k + 1;
      }
      assert pairs[..k] == pairs;
      ghost var before := ordered;
      var d := 0;
      while d < |targets|
        invariant 0 <= d <= |targets| == |ordered| == |before|
        invariant forall q :: 0 <= q < |targets| ==>
                    ordered[q] == if q < d then Ledger(before, weights, targets)[q] else before[q]
        invariant weights == old(weights) && pairs == old(pairs)
      {
        if Abs(targets[d] - Weight(weights, d)) > TOLERANCE {
          ordered := ordered[d := targets[d]];
        }
        d := d + 1;
      }
      assert ordered == Ledger(before, weights, targets);
      weights := targets;
    }

    /** `next`: wait for a formation window, replace a spent book, or trade the current one. */
    method Next(history: seq<seq<real>>)
      requires params.formation >= 1 && Rectangular(history, n) && history != []
      requires View() == Run(params, sqrt, n, history[..|history| - 1])
      modifies this
      ensures View() == Run(params, sqrt, n, history)
      ensures |history| < params.formation ==> View() == old(View())
      ensures |history| >= params.formation && old(pairs) != [] && old(bars) < params.trading ==>
                bars == old(bars) + 1 && AllTurn(params, old(pairs), history[|history| - 1], pairs)
    {
      hide BookOk, Windows, Formed, MovedAll, ApplyWeights, PairOk, AllTurn;
      BookParts(params, View());
      if |history| < params.formation {
        return;
      }
      if pairs == [] || bars >= params.trading {
        var closes := Windows(history, n, params.formation);
        FormedFits(params, sqrt, closes);
        pairs := Formed(params, sqrt, closes);
        bars := 0;
        Apply();
        return;
      }
      var prices := history[|history| - 1];
      MovedKeepsOk(params, pairs, prices);
      ghost var before := pairs;
      bars := bars + 1;
      var changed := false;
      var k := 0;
      while k < |pairs|
        invariant 0 <= k <= |pairs| == |before|
        invariant forall q :: 0 <= q < |pairs| ==>
                    pairs[q] == if q < k then MovedAll(params, before, prices)[q] else before[q]
        invariant changed <==> pairs != before
        invariant weights == old(weights) && ordered == old(ordered) && bars == old(bars) + 1
      {
        MovedIs(params, before, prices, k);
        var p := Moved(params, pairs[k], prices);
        if p.side != pairs[k].side {
          changed := true;
        }
        pairs := pairs[k := p];
        k := k + 1;
      }
      assert pairs == MovedAll(params, before, prices);
      MovedTurns(params, before, prices);
      if changed {
        Apply();
      }
    }
  }

  lemma MovedIs(c: Params, pairs: seq<Pair>, prices: seq<real>, k: nat)
    requires PairsOk(pairs, |prices|) && k < |pairs|
    ensures |MovedAll(c, pairs, prices)| == |pairs| && PairOk(pairs[k], |prices|)
    ensures Fits(pairs[k], |prices|) && pairs[k].baseI != 0.0 && pairs[k].baseJ != 0.0
    ensures MovedAll(c, pairs, prices)[k] == Moved(c, pairs[k], prices)
    ensures Moved(c, pairs[k], prices).side == pairs[k].side <==> Moved(c, pairs[k], prices) == pairs[k]
  {
    assert PairOk(pairs[k], |prices|);
  }
}
