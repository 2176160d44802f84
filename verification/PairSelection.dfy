/**
 Formation of a pair book: `select_pairs_by_ssd` of `gatev_2006_portfolio_of_pairs.py`.

 Every pair of assets is judged by the squared distance of its normalised price paths; the
 book takes the closest ones. The square root is a parameter: nothing depends on it beyond
 the source's own test that the spread deviation is positive.
 */
module PairSelection {
  import opened Sorting
  import opened Wrappers

  datatype Candidate = Candidate(ssd: real, i: nat, j: nat, sigma: real)

  /** One aligned, non-empty price window per asset. */
  predicate Aligned(closes: seq<seq<real>>) {
    forall a :: 0 <= a < |closes| ==> |closes[a]| == |closes[0]| >= 1
  }

  function Spreads(a: seq<real>, b: seq<real>): (s: seq<real>)
    requires |a| == |b| >= 1 && a[0] > 0.0 && b[0] > 0.0
  {
    seq(|a|, k requires 0 <= k < |a| => a[k] / a[0] - b[k] / b[0])
  }

  function Sum(s: seq<real>): real {
    if s == [] then 0.0 else Sum(s[..|s| - 1]) + s[|s| - 1]
  }

  /** Sum of squared distances from `m`. */
  function SumSquares(s: seq<real>, m: real): real {
    if s == [] then 0.0 else SumSquares(s[..|s| - 1], m) + (s[|s| - 1] - m) * (s[|s| - 1] - m)
  }

  /** The verdict on one pair: untradeable, or its distance and threshold unit. */
  function Judge(closes: seq<seq<real>>, sqrt: real -> real, i: nat, j: nat): (c: Option<Candidate>)
    requires Aligned(closes) && i < j < |closes|
    ensures c.Some? ==> c.value.i == i && c.value.j == j && c.value.sigma > 0.0
    ensures c.Some? ==> closes[i][0] > 0.0 && closes[j][0] > 0.0
  {
    if closes[i][0] <= 0.0 || closes[j][0] <= 0.0 then None
    else
      var s := Spreads(closes[i], closes[j]);
      if |s| < 2 then None
      else
        var mean := Sum(s) / |s| as real;
        var sigma := sqrt(SumSquares(s, mean) / (|s| - 1) as real);
        if sigma <= 0.0 then None else Some(Candidate(SumSquares(s, 0.0), i, j, sigma))
  }

  // ----- what the verdict measures -----

  /** The gap between two normalised paths at bar `k`. */
  function Gap(closes: seq<seq<real>>, i: nat, j: nat, k: nat): real
    requires Aligned(closes) && i < |closes| && j < |closes| && k < |closes[0]|
    requires closes[i][0] > 0.0 && closes[j][0] > 0.0
  {
    closes[i][k] / closes[i][0] - closes[j][k] / closes[j][0]
  }

  /** `next` is `closes` with one more bar. */
  ghost predicate OneMore(closes: seq<seq<real>>, next: seq<seq<real>>) {
    && |next| == |closes|
    && forall a :: 0 <= a < |closes| ==> |next[a]| == |closes[a]| + 1 && next[a][..|closes[a]|] == closes[a]
  }

  /** Two bars are as far apart as their second gap; each further bar adds the square of its own. */
  lemma {:induction false} DistanceIs(closes: seq<seq<real>>, next: seq<seq<real>>, sqrt: real -> real, i: nat, j: nat)
    requires Aligned(closes) && Aligned(next) && OneMore(closes, next) && i < j < |closes|
    requires Judge(next, sqrt, i, j).Some?
    ensures |next[0]| >= 2 && closes[i][0] > 0.0 && closes[j][0] > 0.0
    ensures var gap := Gap(next, i, j, |closes[0]|);
            && (|closes[0]| == 1 ==> Judge(next, sqrt, i, j).value.ssd == gap * gap)
            && (Judge(closes, sqrt, i, j).Some? ==>
                  Judge(next, sqrt, i, j).value.ssd == Judge(closes, sqrt, i, j).value.ssd + gap * gap)
  {
    hide Judge, SumSquares, Sum;
    var n := |closes[0]|;
    JudgedDistance(next, sqrt, i, j);
    if Judge(closes, sqrt, i, j).Some? { JudgedDistance(closes, sqrt, i, j); }
    assert closes[i] == next[i][..n] && closes[j] == next[j][..n];
    assert next[i][0] == next[i][..n][0] && next[j][0] == next[j][..n][0];
    var s, s' := Spreads(closes[i], closes[j]), Spreads(next[i], next[j]);
    assert s'[..n] == s;
    SquaresLast(s', 0.0);
    if n == 1 {
      StartsTogether(s, closes[i], closes[j]);
    }
  }

  lemma JudgedDistance(closes: seq<seq<real>>, sqrt: real -> real, i: nat, j: nat)
    requires Aligned(closes) && i < j < |closes| && Judge(closes, sqrt, i, j).Some?
    ensures |closes[i]| == |closes[j]| >= 2 && closes[i][0] > 0.0 && closes[j][0] > 0.0
    ensures Judge(closes, sqrt, i, j).value.ssd == SumSquares(Spreads(closes[i], closes[j]), 0.0)
  {
  }

  /** Normalised paths start together. */
  lemma StartsTogether(s: seq<real>, a: seq<real>, b: seq<real>)
    requires |a| == |b| == 1 && a[0] > 0.0 && b[0] > 0.0 && s == Spreads(a, b)
    ensures SumSquares(s, 0.0) == 0.0
  {
    assert s[0] == 0.0 && s[..0] == [];
  }

  /** The squares about any point, from the squares about zero and the sum. */
  lemma {:induction false} SquaresAbout(s: seq<real>, m: real)
    ensures SumSquares(s, m) == SumSquares(s, 0.0) - 2.0 * (m * Sum(s)) + |s| as real * (m * m)
    decreases |s|
  {
    if s != [] {
      var n := |s| - 1;
      var x := s[n];
      SquaresAbout(s[..n], m);
      SquaresLast(s, m);
      SquaresLast(s, 0.0);
      hide *;
      AboutScalars(m, SumSquares(s[..n], m), SumSquares(s[..n], 0.0), Sum(s[..n]), x, n as real);
    }
  }

  lemma {:induction false} SquaresLast(s: seq<real>, m: real)
    requires s != []
    ensures var n := |s| - 1;
            && SumSquares(s, m) == SumSquares(s[..n], m) + (s[n] - m) * (s[n] - m)
            && Sum(s) == Sum(s[..n]) + s[n]
  {
  }

  lemma AboutScalars(m: real, q: real, z: real, t: real, x: real, n: real)
    requires q == z - 2.0 * (m * t) + n * (m * m)
    ensures q + (x - m) * (x - m)
         == z + (x - 0.0) * (x - 0.0) - 2.0 * (m * (t + x)) + (n + 1.0) * (m * m)
  {
    assert (x - m) * (x - m) == x * x - 2.0 * (m * x) + m * m;
  }

  /** The squares about the mean: what is left of them when the mean is taken out. */
  lemma {:induction false} SquaresAboutMean(s: seq<real>, mean: real)
    requires s != [] && mean == Sum(s) / |s| as real
    ensures SumSquares(s, mean) == SumSquares(s, 0.0) - Sum(s) * Sum(s) / |s| as real
  {
    hide Sum, SumSquares;
    SquaresAbout(s, mean);
    MeanScalars(Sum(s), |s| as real, mean);
  }

  lemma MeanScalars(t: real, n: real, mean: real)
    requires n != 0.0 && mean == t / n
    ensures n * (mean * mean) - 2.0 * (mean * t) == -(t * t / n)
  {
    assert mean * n == t;
    assert n * (mean * mean) == (mean * n) * mean;
    assert mean * t == t * t / n;
  }

  /**
   A pair is tradeable exactly when both bases are positive, there are two bars and the sample
   deviation of its gaps is positive; its distance and its unit are then the sum of the squared
   gaps and that deviation.
   */
  lemma {:induction false} JudgeIs(closes: seq<seq<real>>, sqrt: real -> real, i: nat, j: nat, gaps: seq<real>)
    requires Aligned(closes) && i < j < |closes| && |gaps| == |closes[0]|
    requires closes[i][0] > 0.0 && closes[j][0] > 0.0 ==>
               forall k :: 0 <= k < |gaps| ==> gaps[k] == Gap(closes, i, j, k)
    ensures var n, ssd := |gaps| as real, SumSquares(gaps, 0.0);
            Judge(closes, sqrt, i, j)
            == if closes[i][0] > 0.0 && closes[j][0] > 0.0 && |gaps| >= 2
                  && sqrt((ssd - Sum(gaps) * Sum(gaps) / n) / (n - 1.0)) > 0.0
               then Some(Candidate(ssd, i, j, sqrt((ssd - Sum(gaps) * Sum(gaps) / n) / (n - 1.0))))
               else None
  {
    hide Sum, SumSquares;
    assert |closes[i]| == |closes[j]| == |gaps|;
    if closes[i][0] > 0.0 && closes[j][0] > 0.0 {
      assert Spreads(closes[i], closes[j]) == gaps;
      SquaresAboutMean(gaps, Sum(gaps) / |gaps| as real);
    }
  }

  function Kept(c: Option<Candidate>): seq<Candidate> {
    if c.Some? then [c.value] else []
  }

  /** Candidates `(i, b)` with `i < b < j`, then all candidates with first leg below `i`. */
  function RowTo(closes: seq<seq<real>>, sqrt: real -> real, i: nat, j: nat): seq<Candidate>
    requires Aligned(closes) && i < |closes| && i < j <= |closes|
    decreases j
  {
    if j == i + 1 then [] else RowTo(closes, sqrt, i, j - 1) + Kept(Judge(closes, sqrt, i, j - 1))
  }

  function RowsTo(closes: seq<seq<real>>, sqrt: real -> real, i: nat): seq<Candidate>
    requires Aligned(closes) && i <= |closes|
  {
    if i == 0 then [] else RowsTo(closes, sqrt, i - 1) + RowTo(closes, sqrt, i - 1, |closes|)
  }

  function Candidates(closes: seq<seq<real>>, sqrt: real -> real): seq<Candidate>
    requires Aligned(closes)
  {
    RowsTo(closes, sqrt, |closes|)
  }

  // ----- what the candidates are -----

  predicate Judged(closes: seq<seq<real>>, sqrt: real -> real, c: Candidate)
    requires Aligned(closes)
  {
    c.i < c.j < |closes| && Judge(closes, sqrt, c.i, c.j) == Some(c)
  }

  lemma {:induction false} RowToMembers(closes: seq<seq<real>>, sqrt: real -> real, i: nat, j: nat, c: Candidate)
    requires Aligned(closes) && i < |closes| && i < j <= |closes|
    ensures c in RowTo(closes, sqrt, i, j) <==> Judged(closes, sqrt, c) && c.i == i && c.j < j
    decreases j
  {
    hide Judge, Aligned;
    if j > i + 1 { RowToMembers(closes, sqrt, i, j - 1, c); }
  }

  lemma {:induction false} RowsToMembers(closes: seq<seq<real>>, sqrt: real -> real, i: nat, c: Candidate)
    requires Aligned(closes) && i <= |closes|
    ensures c in RowsTo(closes, sqrt, i) <==> Judged(closes, sqrt, c) && c.i < i
  {
    hide Judge, Aligned, RowTo;
    if i > 0 {
      RowsToMembers(closes, sqrt, i - 1, c);
      RowToMembers(closes, sqrt, i - 1, |closes|, c);
    }
  }

  lemma {:induction false} RowToOnce(closes: seq<seq<real>>, sqrt: real -> real, i: nat, j: nat, c: Candidate)
    requires Aligned(closes) && i < |closes| && i < j <= |closes|
    ensures multiset(RowTo(closes, sqrt, i, j))[c] <= 1
    decreases j
  {
    hide *;
    RowToLast(closes, sqrt, i, j);
    if j > i + 1 {
      RowToOnce(closes, sqrt, i, j - 1, c);
      RowToMembers(closes, sqrt, i, j - 1, c);
      KeptOnce(closes, sqrt, i, j - 1, c);
      OnceInOne(RowTo(closes, sqrt, i, j - 1), Kept(Judge(closes, sqrt, i, j - 1)), c);
    }
  }

  lemma RowToLast(closes: seq<seq<real>>, sqrt: real -> real, i: nat, j: nat)
    requires Aligned(closes) && i < |closes| && i < j <= |closes|
    ensures j == i + 1 ==> RowTo(closes, sqrt, i, j) == []
    ensures j > i + 1 ==> RowTo(closes, sqrt, i, j) == RowTo(closes, sqrt, i, j - 1) + Kept(Judge(closes, sqrt, i, j - 1))
  {
    hide Judge, Aligned;
  }

  lemma KeptOnce(closes: seq<seq<real>>, sqrt: real -> real, i: nat, j: nat, c: Candidate)
    requires Aligned(closes) && i < j < |closes|
    ensures c in Kept(Judge(closes, sqrt, i, j)) ==> c.j == j
    ensures multiset(Kept(Judge(closes, sqrt, i, j)))[c] <= 1
  {
    hide Judge, Aligned;
  }

  lemma OnceInOne(a: seq<Candidate>, b: seq<Candidate>, c: Candidate)
    requires multiset(a)[c] <= 1 && multiset(b)[c] <= 1 && !(c in a && c in b)
    ensures multiset(a + b)[c] <= 1
  {
    assert c in a || multiset(a)[c] == 0;
    assert c in b || multiset(b)[c] == 0;
  }

  lemma {:induction false} RowsToOnce(closes: seq<seq<real>>, sqrt: real -> real, i: nat, c: Candidate)
    requires Aligned(closes) && i <= |closes|
    ensures multiset(RowsTo(closes, sqrt, i))[c] <= 1
  {
    hide Judge, Aligned, RowTo, Judged;
    if i > 0 {
      RowsToOnce(closes, sqrt, i - 1, c);
      RowsToMembers(closes, sqrt, i - 1, c);
      RowToOnce(closes, sqrt, i - 1, |closes|, c);
      RowToMembers(closes, sqrt, i - 1, |closes|, c);
      var rows, row := RowsTo(closes, sqrt, i - 1), RowTo(closes, sqrt, i - 1, |closes|);
      assert multiset(rows + row) == multiset(rows) + multiset(row);
    }
  }

  // ----- ranking -----

  predicate Ascending(s: seq<Candidate>) {
    forall a, b :: 0 <= a < b < |s| ==> s[a].ssd <= s[b].ssd
  }

  function ByDistance(): (Candidate, Candidate) -> bool {
    (a: Candidate, b: Candidate) => a.ssd <= b.ssd
  }

  /** The stable sort by distance. */
  function Ranked(s: seq<Candidate>): seq<Candidate> {
    SortBy(s, ByDistance())
  }

  lemma RankedIsSorted(s: seq<Candidate>)
    ensures Ascending(Ranked(s)) && multiset(Ranked(s)) == multiset(s)
  {
    hide SortBy;
    SortIsSorted(s, ByDistance());
  }

  // ----- ties -----

  /** The order the loops meet pairs in. */
  predicate Earlier(a: Candidate, b: Candidate) {
    a.i < b.i || (a.i == b.i && a.j < b.j)
  }

  ghost predicate InLoopOrder(s: seq<Candidate>) {
    forall a, b :: 0 <= a < b < |s| ==> Earlier(s[a], s[b])
  }

  lemma OrderedConcat(s: seq<Candidate>, t: seq<Candidate>)
    requires InLoopOrder(s) && InLoopOrder(t) && forall x, y :: x in s && y in t ==> Earlier(x, y)
    ensures InLoopOrder(s + t)
  {
  }

  lemma {:induction false} RowToOrdered(closes: seq<seq<real>>, sqrt: real -> real, i: nat, j: nat)
    requires Aligned(closes) && i < |closes| && i < j <= |closes|
    ensures InLoopOrder(RowTo(closes, sqrt, i, j))
    decreases j
  {
    hide Judge, Aligned, Judged;
    RowToLast(closes, sqrt, i, j);
    if j > i + 1 {
      RowToOrdered(closes, sqrt, i, j - 1);
      var row, last := RowTo(closes, sqrt, i, j - 1), Kept(Judge(closes, sqrt, i, j - 1));
      forall x, y | x in row && y in last ensures Earlier(x, y) {
        RowToMembers(closes, sqrt, i, j - 1, x);
        KeptIs(closes, sqrt, i, j - 1, y);
      }
      OrderedConcat(row, last);
    }
  }

  lemma KeptIs(closes: seq<seq<real>>, sqrt: real -> real, i: nat, j: nat, c: Candidate)
    requires Aligned(closes) && i < j < |closes| && c in Kept(Judge(closes, sqrt, i, j))
    ensures c.i == i && c.j == j
  {
  }

  lemma {:induction false} RowsToOrdered(closes: seq<seq<real>>, sqrt: real -> real, i: nat)
    requires Aligned(closes) && i <= |closes|
    ensures InLoopOrder(RowsTo(closes, sqrt, i))
  {
    hide Judge, Aligned, Judged, RowTo;
    if i > 0 {
      RowsToOrdered(closes, sqrt, i - 1);
      RowToOrdered(closes, sqrt, i - 1, |closes|);
      var rows, row := RowsTo(closes, sqrt, i - 1), RowTo(closes, sqrt, i - 1, |closes|);
      forall x, y | x in rows && y in row ensures Earlier(x, y) {
        RowsToMembers(closes, sqrt, i - 1, x);
        RowToMembers(closes, sqrt, i - 1, |closes|, y);
      }
      OrderedConcat(rows, row);
    }
  }

  /** Closer, or as close and met earlier. */
  predicate Precedes(a: Candidate, b: Candidate) {
    a.ssd < b.ssd || (a.ssd == b.ssd && Earlier(a, b))
  }

  lemma RankedIsOrdered(closes: seq<seq<real>>, sqrt: real -> real, a: nat, b: nat)
    requires Aligned(closes) && a < b < |Ranked(Candidates(closes, sqrt))|
    ensures Precedes(Ranked(Candidates(closes, sqrt))[a], Ranked(Candidates(closes, sqrt))[b])
  {
    hide Judge, Aligned, RowsTo, SortBy;
    var all, r := Candidates(closes, sqrt), Ranked(Candidates(closes, sqrt));
    RowsToOrdered(closes, sqrt, |closes|);
    SortIsStable(all, ByDistance(), (x: Candidate, y: Candidate) => Earlier(x, y));
    assert ByDistance()(r[a], r[b]) && (ByDistance()(r[b], r[a]) ==> Earlier(r[a], r[b]));
  }

  /** No tie is left open: the book is the front of the one listing by distance and then by position. */
  lemma SelectedIsFirst(closes: seq<seq<real>>, sqrt: real -> real, nPairs: nat)
    requires Aligned(closes)
    ensures var book := Selected(closes, sqrt, nPairs);
            && (forall a, b :: 0 <= a < b < |book| ==> Precedes(book[a], book[b]))
            && (forall c, a :: Judged(closes, sqrt, c) && c !in book && 0 <= a < |book| ==> Precedes(book[a], c))
  {
    hide Judge, Aligned, Candidates, Judged, Precedes, Ranked;
    var ranked, book := Ranked(Candidates(closes, sqrt)), Selected(closes, sqrt, nPairs);
    forall a, b | 0 <= a < b < |ranked| ensures Precedes(ranked[a], ranked[b]) {
      RankedIsOrdered(closes, sqrt, a, b);
    }
    forall c, a | Judged(closes, sqrt, c) && c !in book && 0 <= a < |book| ensures Precedes(book[a], c) {
      RankedMembers(closes, sqrt, c);
      var k :| 0 <= k < |ranked| && ranked[k] == c;
      assert forall q :: 0 <= q < |book| ==> book[q] == ranked[q];
    }
  }

  function Selected(closes: seq<seq<real>>, sqrt: real -> real, nPairs: nat): seq<Candidate>
    requires Aligned(closes)
  {
    var ranked := Ranked(Candidates(closes, sqrt));
    ranked[..if nPairs < |ranked| then nPairs else |ranked|]
  }

  /**
   The book is the best one: tradeable pairs only, no pair twice, closest first, and every
   tradeable pair left out is at least as far apart as every pair taken. Nothing tradeable is
   left out unless the book is full.
   */
  lemma SelectedIsBest(closes: seq<seq<real>>, sqrt: real -> real, nPairs: nat)
    requires Aligned(closes)
    ensures var book := Selected(closes, sqrt, nPairs);
            && |book| <= nPairs && Ascending(book)
            && (forall a :: 0 <= a < |book| ==> Judged(closes, sqrt, book[a]))
            && (forall a, b :: 0 <= a < b < |book| ==> (book[a].i, book[a].j) != (book[b].i, book[b].j))
            && (forall c, a :: Judged(closes, sqrt, c) && c !in book && 0 <= a < |book| ==> book[a].ssd <= c.ssd)
            && (forall c :: Judged(closes, sqrt, c) && c !in book ==> |book| == nPairs)
  {
    hide Judge, Aligned, Candidates, Judged;
    var ranked, book := Ranked(Candidates(closes, sqrt)), Selected(closes, sqrt, nPairs);
    RankedIsSorted(Candidates(closes, sqrt));
    forall c ensures c in ranked <==> Judged(closes, sqrt, c) {
      RankedMembers(closes, sqrt, c);
    }
    forall a, b | 0 <= a < b < |book| ensures (book[a].i, book[a].j) != (book[b].i, book[b].j) {
      RankedOnce(closes, sqrt, a, b);
    }
    forall c | Judged(closes, sqrt, c) && c !in book
      ensures |book| == nPairs && forall a :: 0 <= a < |book| ==> book[a].ssd <= c.ssd
    {
      var k :| 0 <= k < |ranked| && ranked[k] == c;
      assert forall q :: 0 <= q < |book| ==> book[q] == ranked[q];
    }
  }

  lemma RankedMembers(closes: seq<seq<real>>, sqrt: real -> real, c: Candidate)
    requires Aligned(closes)
    ensures c in Ranked(Candidates(closes, sqrt)) <==> Judged(closes, sqrt, c)
  {
    hide Judge, Aligned, Judged;
    var all := Candidates(closes, sqrt);
    RankedIsSorted(all);
    RowsToMembers(closes, sqrt, |closes|, c);
    JudgedBounds(closes, sqrt, c);
    assert c in multiset(Ranked(all)) <==> c in multiset(all);
  }

  lemma JudgedBounds(closes: seq<seq<real>>, sqrt: real -> real, c: Candidate)
    requires Aligned(closes)
    ensures Judged(closes, sqrt, c) ==> c.i < |closes|
  {
  }

  /** A pair is judged once, so two ranks never hold the same pair. */
  lemma RankedOnce(closes: seq<seq<real>>, sqrt: real -> real, a: nat, b: nat)
    requires Aligned(closes) && a < b < |Ranked(Candidates(closes, sqrt))|
    ensures var r := Ranked(Candidates(closes, sqrt)); (r[a].i, r[a].j) != (r[b].i, r[b].j)
  {
    hide Judge, Aligned;
    var all, r := Candidates(closes, sqrt), Ranked(Candidates(closes, sqrt));
    RankedMembers(closes, sqrt, r[a]);
    RankedMembers(closes, sqrt, r[b]);
    RankedIsSorted(all);
    RowsToOnce(closes, sqrt, |closes|, r[a]);
    if r[a] == r[b] {
      Twice(r, a, b);
    }
  }

  lemma RowEmpty(closes: seq<seq<real>>, sqrt: real -> real, i: nat, before: seq<Candidate>)
    requires Aligned(closes) && i < |closes|
    ensures before + RowTo(closes, sqrt, i, i + 1) == before
  {
  }

  lemma {:induction false} RowGrows(closes: seq<seq<real>>, sqrt: real -> real, i: nat, j: nat, before: seq<Candidate>)
    requires Aligned(closes) && i < j < |closes|
    ensures var c, row := Judge(closes, sqrt, i, j), before + RowTo(closes, sqrt, i, j);
            before + RowTo(closes, sqrt, i, j + 1) == if c.Some? then row + [c.value] else row
  {
    hide Judge, Aligned;
    var c, row := Judge(closes, sqrt, i, j), RowTo(closes, sqrt, i, j);
    assert before + (row + Kept(c)) == before + row + Kept(c);
  }

  /** `select_pairs_by_ssd`: two nested loops over the assets, a sort, a cut. */
  method SelectPairs(closes: seq<seq<real>>, sqrt: real -> real, nPairs: nat) returns (book: seq<Candidate>)
    requires Aligned(closes)
    ensures book == Selected(closes, sqrt, nPairs)
  {
    hide Judge, Aligned, RowTo, Kept;
    var found := [];
    var i := 0;
    while i < |closes|
      invariant i <= |closes| && found == RowsTo(closes, sqrt, i)
    {
      var j := i + 1;
      RowEmpty(closes, sqrt, i, found);
      while j < |closes|
        invariant i < j <= |closes|
        invariant found == RowsTo(closes, sqrt, i) + RowTo(closes, sqrt, i, j)
        decreases |closes| - j
      {
        var c := Judge(closes, sqrt, i, j);
        RowGrows(closes, sqrt, i, j, RowsTo(closes, sqrt, i));
        if c.Some? {
          found := found + [c.value];
        }
        j := j + 1;
      }
      i := i + 1;
    }
    var ranked := Ranked(found);
    book := ranked[..if nPairs < |ranked| then nPairs else |ranked|];
  }
}
