/** The running-peak drawdown of `analytics-engine/strategies/low_tan_wermers_2004_dividend_yield.py`. */
module Drawdown {
  import opened Wrappers

  /** Loss from `high` to `low` as a fraction of `high`. */
  function Drop(high: real, low: real): real
    requires high > 0.0
  {
    (high - low) / high
  }

  lemma DropTimes(high: real, low: real)
    requires high > 0.0
    ensures Drop(high, low) * high == high - low
  {
  }

  lemma QuotientSign(q: real, a: real, b: real)
    requires a > 0.0 && q * a == b
    ensures q > 0.0 <==> b > 0.0
    ensures q >= 0.0 <==> b >= 0.0
  {
  }

  /** A higher peak makes a worse loss, as long as the later price is not negative. */
  lemma DropGrows(a: real, b: real, low: real)
    requires 0.0 < a <= b && low >= 0.0
    ensures Drop(a, low) <= Drop(b, low)
  {
    hide Drop;
    DropTimes(a, low);
    DropTimes(b, low);
    Compare(Drop(a, low), Drop(b, low), a, b, low);
  }

  lemma Compare(x: real, y: real, a: real, b: real, low: real)
    requires 0.0 < a <= b && low >= 0.0 && x * a == a - low && y * b == b - low
    ensures x <= y
  {
    Complement(x, a, low);
    Complement(y, b, low);
    Shares(1.0 - x, 1.0 - y, a, b, low);
  }

  lemma Complement(x: real, a: real, low: real)
    requires x * a == a - low
    ensures (1.0 - x) * a == low
  {
  }

  lemma Shares(u: real, v: real, a: real, b: real, low: real)
    requires 0.0 < a <= b && low >= 0.0 && u * a == low && v * b == low
    ensures v <= u
  {
    QuotientSign(v, b, low);
    Widen(v, a, b);
    Cancel(u, v, a);
  }

  lemma Widen(v: real, a: real, b: real)
    requires v >= 0.0 && a <= b
    ensures v * a <= v * b
  {
    assert v * (b - a) >= 0.0;
  }

  lemma Cancel(u: real, v: real, a: real)
    requires a > 0.0 && v * a <= u * a
    ensures v <= u
  {
    QuotientSign(u - v, a, (u - v) * a);
    assert (u - v) * a == u * a - v * a;
  }

  /** Below zero it is the other way round: the lower of two earlier prices makes the worse loss. */
  lemma DropFalls(a: real, b: real, low: real)
    requires 0.0 < a < b && low < 0.0
    ensures Drop(a, low) > Drop(b, low)
  {
    hide Drop;
    DropTimes(a, low);
    DropTimes(b, low);
    Complement(Drop(a, low), a, low);
    Complement(Drop(b, low), b, low);
    NegativeShares(1.0 - Drop(a, low), 1.0 - Drop(b, low), a, b, low);
  }

  lemma NegativeShares(u: real, v: real, a: real, b: real, low: real)
    requires 0.0 < a < b && low < 0.0 && u * a == low && v * b == low
    ensures u < v
  {
    NegativeQuotient(v, b, low);
    WidenDown(v, a, b);
    CancelStrictly(u, v, a);
  }

  lemma NegativeQuotient(q: real, a: real, b: real)
    requires a > 0.0 && q * a == b && b < 0.0
    ensures q < 0.0
  {
    QuotientSign(q, a, b);
  }

  lemma WidenDown(v: real, a: real, b: real)
    requires v < 0.0 && a < b
    ensures v * b < v * a
  {
    var d := b - a;
    assert v * d < 0.0;
    assert v * d == v * b - v * a;
  }

  lemma CancelStrictly(u: real, v: real, a: real)
    requires a > 0.0 && u * a < v * a
    ensures u < v
  {
    QuotientSign(v - u, a, (v - u) * a);
    assert (v - u) * a == v * a - u * a;
  }

  lemma DropBelowOne(high: real, low: real)
    requires high > 0.0
    ensures Drop(high, low) < 1.0 <==> low > 0.0
    ensures Drop(high, low) >= 0.0 <==> low <= high
  {
    hide Drop;
    DropTimes(high, low);
    var d := Drop(high, low);
    Complement(d, high, low);
    QuotientSign(1.0 - d, high, low);
    QuotientSign(d, high, high - low);
  }

  /** The trailing closes, oldest first, without the current bar. */
  function Window(bars: seq<real>, n: nat): seq<real>
    requires n < |bars|
  {
    bars[|bars| - 1 - n..|bars| - 1]
  }

  /** Whatever came before and whatever the current close is, the window is the closes between. */
  lemma WindowIs(before: seq<real>, closes: seq<real>, current: real)
    ensures Window(before + closes + [current], |closes|) == closes
  {
  }

  // ----- the loop as a function -----

  /** The running peak after `k` prices; before the first it is that price. */
  function Peak(c: seq<real>, k: nat): real
    requires c != [] && k <= |c|
  {
    if k == 0 then c[0] else if c[k - 1] > Peak(c, k - 1) then c[k - 1] else Peak(c, k - 1)
  }

  /** The worst loss seen after `k` prices. */
  function Worst(c: seq<real>, k: nat): real
    requires c != [] && k <= |c|
  {
    if k == 0 then 0.0
    else
      var before, peak := Worst(c, k - 1), Peak(c, k);
      if peak > 0.0 && Drop(peak, c[k - 1]) > before then Drop(peak, c[k - 1]) else before
  }

  lemma {:induction false} PeakIsHighest(c: seq<real>, k: nat)
    requires c != [] && 0 < k <= |c|
    ensures forall i :: 0 <= i < k ==> c[i] <= Peak(c, k)
    ensures exists i :: 0 <= i < k && c[i] == Peak(c, k)
    decreases k
  {
    if k == 1 {
      assert c[0] == Peak(c, 1);
    } else {
      PeakIsHighest(c, k - 1);
      var i :| 0 <= i < k - 1 && c[i] == Peak(c, k - 1);
      if c[k - 1] > Peak(c, k - 1) { assert c[k - 1] == Peak(c, k); } else { assert c[i] == Peak(c, k); }
    }
  }

  ghost predicate NoWorse(c: seq<real>, r: real) {
    forall i, j :: 0 <= i <= j < |c| && c[i] > 0.0 ==> Drop(c[i], c[j]) <= r
  }

  ghost predicate Attained(c: seq<real>, k: nat, r: real) {
    r == 0.0 || exists i, j :: 0 <= i <= j < k <= |c| && c[i] > 0.0 && Drop(c[i], c[j]) == r
  }

  /** The largest loss from a close to itself or a later one. */
  ghost predicate IsMaxDrawdown(c: seq<real>, r: real) {
    r >= 0.0 && NoWorse(c, r) && Attained(c, |c|, r)
  }

  /** What the loop returns is a loss that occurs, or zero. */
  lemma {:induction false} WorstOccurs(c: seq<real>, k: nat)
    requires c != [] && k <= |c|
    ensures Worst(c, k) >= 0.0 && Attained(c, k, Worst(c, k))
    decreases k
  {
    hide Drop, Peak;
    if k > 0 {
      WorstOccurs(c, k - 1);
      PeakIsHighest(c, k);
    }
  }

  /** It is no smaller than any loss down to a price that is not negative. */
  lemma {:induction false} WorstBounds(c: seq<real>, k: nat, i: nat, j: nat)
    requires c != [] && i <= j < k <= |c| && c[i] > 0.0 && c[j] >= 0.0
    ensures Drop(c[i], c[j]) <= Worst(c, k)
    decreases k
  {
    hide Drop, Peak;
    if j < k - 1 {
      WorstBounds(c, k - 1, i, j);
    } else {
      PeakIsHighest(c, k);
      DropGrows(c[i], Peak(c, k), c[j]);
    }
  }

  /**
   At each price the running peak stands for every earlier positive close if and only if the
   price is not negative, or no earlier positive close is below the peak.
   */
  lemma PeakStandsExactly(c: seq<real>, k: nat)
    requires k < |c| && Peak(c, k + 1) > 0.0
    ensures (forall i :: 0 <= i <= k && c[i] > 0.0 ==> Drop(c[i], c[k]) <= Drop(Peak(c, k + 1), c[k]))
       <==> c[k] >= 0.0 || forall i :: 0 <= i <= k && c[i] > 0.0 ==> c[i] == Peak(c, k + 1)
  {
    hide Drop, Peak;
    var peak := Peak(c, k + 1);
    PeakIsHighest(c, k + 1);
    forall i | 0 <= i <= k && c[i] > 0.0
      ensures c[k] >= 0.0 ==> Drop(c[i], c[k]) <= Drop(peak, c[k])
      ensures c[k] < 0.0 && c[i] != peak ==> Drop(c[i], c[k]) > Drop(peak, c[k])
    {
      if c[k] >= 0.0 { DropGrows(c[i], peak, c[k]); } else if c[i] != peak { DropFalls(c[i], peak, c[k]); }
    }
  }

  /** The loop's answer is the maximum exactly when no loss down to a negative price exceeds it. */
  lemma WorstIsMaxWhen(c: seq<real>)
    requires c != []
    ensures IsMaxDrawdown(c, Worst(c, |c|)) <==>
      forall i, j :: 0 <= i <= j < |c| && c[i] > 0.0 && c[j] < 0.0 ==> Drop(c[i], c[j]) <= Worst(c, |c|)
  {
    hide Drop, Worst;
    WorstOccurs(c, |c|);
    forall i, j | 0 <= i <= j < |c| && c[i] > 0.0 && c[j] >= 0.0 ensures Drop(c[i], c[j]) <= Worst(c, |c|) {
      WorstBounds(c, |c|, i, j);
    }
  }

  /** The answer is no smaller than any loss from a running peak. */
  lemma {:induction false} WorstBoundsPeaks(c: seq<real>, n: nat, k: nat)
    requires k < n <= |c| && Peak(c, k + 1) > 0.0
    ensures Drop(Peak(c, k + 1), c[k]) <= Worst(c, n)
    decreases n
  {
    hide Drop, Peak;
    if k < n - 1 { WorstBoundsPeaks(c, n - 1, k); }
  }

  /** A positive answer is the loss from some running peak. */
  lemma {:induction false} WorstIsPeakDrop(c: seq<real>, n: nat) returns (k: nat)
    requires n <= |c| && c != [] && Worst(c, n) > 0.0
    ensures k < n && Peak(c, k + 1) > 0.0 && Drop(Peak(c, k + 1), c[k]) == Worst(c, n)
    decreases n
  {
    hide Drop, Peak;
    if Worst(c, n) == Worst(c, n - 1) {
      k := WorstIsPeakDrop(c, n - 1);
    } else {
      k := n - 1;
    }
  }

  /** Some negative close is at least as far below the running peak at its bar. */
  ghost predicate Matched(c: seq<real>, loss: real) {
    exists k :: 0 <= k < |c| && c[k] < 0.0 && Peak(c, k + 1) > 0.0 && loss <= Drop(Peak(c, k + 1), c[k])
  }

  lemma MatchedIsBounded(c: seq<real>, loss: real)
    requires c != [] && Matched(c, loss)
    ensures loss <= Worst(c, |c|)
  {
    hide Drop, Peak, Worst;
    var k :| 0 <= k < |c| && c[k] < 0.0 && Peak(c, k + 1) > 0.0 && loss <= Drop(Peak(c, k + 1), c[k]);
    WorstBoundsPeaks(c, |c|, k);
  }

  /** A loss down to a negative close exceeds one, so only a negative close can match it. */
  lemma BoundedIsMatched(c: seq<real>, i: nat, j: nat)
    requires i <= j < |c| && c[i] > 0.0 && c[j] < 0.0 && Drop(c[i], c[j]) <= Worst(c, |c|)
    ensures Matched(c, Drop(c[i], c[j]))
  {
    hide Drop, Peak, Worst;
    DropAboveOne(c[i], c[j]);
    var k := WorstIsPeakDrop(c, |c|);
    DropAboveOne(Peak(c, k + 1), c[k]);
  }

  lemma DropAboveOne(high: real, low: real)
    requires high > 0.0
    ensures Drop(high, low) > 1.0 <==> low < 0.0
  {
    hide Drop;
    DropTimes(high, low);
    var d := Drop(high, low);
    Complement(d, high, low);
    Surplus(d, high, low);
  }

  lemma Surplus(d: real, high: real, low: real)
    requires high > 0.0 && (1.0 - d) * high == low
    ensures d > 1.0 <==> low < 0.0
  {
    assert (d - 1.0) * high == -low;
    QuotientSign(d - 1.0, high, -low);
  }

  /**
   The loop's answer is the maximum drawdown if and only if every loss from a positive close down
   to a negative one is matched at some negative close by the loss from the running peak there.
   */
  lemma WorstIsMaxExactly(c: seq<real>)
    requires c != []
    ensures IsMaxDrawdown(c, Worst(c, |c|)) <==>
      forall i, j :: 0 <= i <= j < |c| && c[i] > 0.0 && c[j] < 0.0 ==> Matched(c, Drop(c[i], c[j]))
  {
    hide Drop, Peak, Worst, Matched, IsMaxDrawdown;
    WorstIsMaxWhen(c);
    forall i, j | 0 <= i <= j < |c| && c[i] > 0.0 && c[j] < 0.0
      ensures Drop(c[i], c[j]) <= Worst(c, |c|) <==> Matched(c, Drop(c[i], c[j]))
    {
      if Matched(c, Drop(c[i], c[j])) {
        MatchedIsBounded(c, Drop(c[i], c[j]));
      } else if Drop(c[i], c[j]) <= Worst(c, |c|) {
        BoundedIsMatched(c, i, j);
      }
    }
  }

  /** For prices that are never negative it is the maximum drawdown; for positive prices it is below one. */
  lemma WorstIsMax(c: seq<real>)
    requires c != [] && forall i :: 0 <= i < |c| ==> c[i] >= 0.0
    ensures IsMaxDrawdown(c, Worst(c, |c|))
    ensures (forall i :: 0 <= i < |c| ==> c[i] > 0.0) ==> Worst(c, |c|) < 1.0
  {
    hide Drop, Worst;
    WorstIsMaxWhen(c);
    WorstOccurs(c, |c|);
    var r := Worst(c, |c|);
    if r != 0.0 && forall i :: 0 <= i < |c| ==> c[i] > 0.0 {
      var i, j :| 0 <= i <= j < |c| && c[i] > 0.0 && Drop(c[i], c[j]) == r;
      DropBelowOne(c[i], c[j]);
    }
  }

  /** On closes 1, 2, -1 the loop answers 1.5, but from the first close to the last the loss is 2. */
  lemma NegativePriceMissed()
    ensures var c := [1.0, 2.0, -1.0];
      Worst(c, 3) == 1.5 && Drop(c[0], c[2]) == 2.0 && !IsMaxDrawdown(c, Worst(c, 3))
  {
    var c := [1.0, 2.0, -1.0];
    assert Peak(c, 1) == 1.0 && Peak(c, 2) == 2.0 && Peak(c, 3) == 2.0;
    assert Drop(1.0, 1.0) == 0.0 && Drop(2.0, 2.0) == 0.0 && Drop(2.0, -1.0) == 1.5;
    assert Worst(c, 1) == 0.0;
    assert Worst(c, 2) == 0.0;
    assert Drop(c[0], c[2]) == 2.0;
  }

  /** `_max_drawdown`: one pass with a running peak. */
  method MaxDrawdown(bars: seq<real>, n: nat) returns (r: Option<real>)
    ensures r.None? <==> |bars| <= n || n == 0
    ensures r.Some? ==> r.value == Worst(Window(bars, n), n) && r.value >= 0.0 && Attained(Window(bars, n), n, r.value)
    ensures r.Some? && (forall i :: 0 <= i < n ==> Window(bars, n)[i] >= 0.0) ==> IsMaxDrawdown(Window(bars, n), r.value)
    ensures r.Some? && (forall i :: 0 <= i < n ==> Window(bars, n)[i] > 0.0) ==> r.value < 1.0
  {
    hide Drop, Attained, NoWorse;
    if |bars| < n + 1 {
      return None;
    }
    var closes := Window(bars, n);
    if closes == [] {
      return None;
    }
    var peak, worst, k := closes[0], 0.0, 0;
    while k < |closes|
      invariant 0 <= k <= |closes| && peak == Peak(closes, k) && worst == Worst(closes, k)
    {
      var price := closes[k];
      if price > peak {
        peak := price;
      }
      if peak > 0.0 {
        var dd := Drop(peak, price);
        if dd > worst {
          worst := dd;
        }
      }
      k := k + 1;
    }
    WorstOccurs(closes, n);
    if forall i :: 0 <= i < n ==> closes[i] >= 0.0 { WorstIsMax(closes); }
    r := Some(worst);
  }
}
