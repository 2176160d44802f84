/**
 What the hedge filter of `elliott_2005_kalman_pairs.py` is for, over a whole run: its state is
 the end of the cheapest explanation of every bar so far.

 An explanation is a path of states, one before the first bar and one per bar. It pays the
 squared distance of its start from the prior, each move between states relative to the drift
 `delta/(1-delta)`, and each missed price relative to the noise `ve`.
 */
module KalmanPaths {
  import opened Kalman

  function Norm(v: Vec): real {
    v.a * v.a + v.b * v.b
  }

  /** What a hedge ratio and an intercept leave unexplained of leg A's price. */
  function Miss(bar: Bar, z: Vec): real {
    bar.y - (bar.price * z.a + z.b)
  }

  /** What one bar adds to a path that moves from `u` to `z`. */
  function BarCost(c: Params, bar: Bar, u: Vec, z: Vec): real
    requires c.ve != 0.0 && c.delta != 0.0
  {
    Norm(Minus(z, u)) * (1.0 - c.delta) / c.delta + Miss(bar, z) * Miss(bar, z) / c.ve
  }

  function PathCost(c: Params, bars: seq<Bar>, path: seq<Vec>): real
    requires |path| == |bars| + 1 && c.ve != 0.0 && c.delta != 0.0
    decreases |bars|
  {
    if bars == [] then Norm(path[0])
    else
      var n := |bars| - 1;
      PathCost(c, bars[..n], path[..n + 1]) + BarCost(c, bars[n], path[n], path[n + 1])
  }

  /** The forecast errors of the run, each relative to its forecast variance. */
  ghost function Least(c: Params, bars: seq<Bar>): real
    requires Legal(c)
    decreases |bars|
  {
    if bars == [] then 0.0
    else
      var n := |bars| - 1;
      RunStaysPositiveDefinite(c, bars[..n]);
      Least(c, bars[..n]) + Floor(c, Run(c, bars[..n]), bars[n])
  }

  // ----- one move -----

  lemma ImageForm(p: Mat, e: Vec, s: Vec, u: Vec)
    requires p.ab == p.ba && Det(p) != 0.0 && u == MatVec(p, s)
    ensures Penalty(p, Plus(e, u)) == Penalty(p, e) + 2.0 * Dot(s, e) + Dot(s, u)
  {
    hide *;
    AdjugateShift(p, s, u, e, 1.0);
    ScaleOne(u);
    PenaltyIs(p, Plus(e, u));
    PenaltyIs(p, e);
    ImageScalars(AdjugateForm(p, e), Det(p), Dot(s, e), Dot(s, u));
  }

  lemma ScaleOne(u: Vec)
    ensures Scale(1.0, u) == u
  {
  }

  lemma ImageScalars(a: real, d: real, x: real, y: real)
    requires d != 0.0
    ensures (a + 2.0 * 1.0 * (d * x) + 1.0 * 1.0 * (d * y)) / d == a / d + 2.0 * x + y
  {
  }

  /** A regular symmetric matrix reaches every vector. */
  lemma Solve(m: Mat, d: Vec) returns (s: Vec)
    requires m.ab == m.ba && Det(m) != 0.0
    ensures MatVec(m, s) == d
  {
    var det := Det(m);
    s := Vec((m.bb * d.a - m.ab * d.b) / det, (m.aa * d.b - m.ab * d.a) / det);
    SolveScalars(m.aa, m.ab, m.bb, d.a, d.b, det, s.a, s.b);
  }

  lemma SolveScalars(a: real, b: real, r: real, x: real, y: real, det: real, s: real, t: real)
    requires det == a * r - b * b && det != 0.0 && s == (r * x - b * y) / det && t == (a * y - b * x) / det
    ensures a * s + b * t == x && b * s + r * t == y
  {
    Quotient(r * x - b * y, det);
    Quotient(a * y - b * x, det);
    assert det * (a * s + b * t) == a * (s * det) + b * (t * det);
    assert a * (r * x - b * y) + b * (a * y - b * x) == det * x;
    Cancel(det, a * s + b * t, x);
    assert det * (b * s + r * t) == b * (s * det) + r * (t * det);
    assert b * (r * x - b * y) + r * (a * y - b * x) == det * y;
    Cancel(det, b * s + r * t, y);
  }

  lemma Shifted(p: Mat, w: real, s: Vec)
    ensures MatVec(AddDiagonal(p, w), s) == Plus(MatVec(p, s), Scale(w, s))
  {
  }

  lemma DotPlus(s: Vec, u: Vec, w: real)
    ensures Dot(s, Plus(u, Scale(w, s))) == Dot(s, u) + w * Dot(s, s)
  {
  }

  lemma MoveForm(s: Vec, e: Vec, w: real)
    requires w != 0.0
    ensures Norm(Minus(Scale(w, s), e)) / w == w * Dot(s, s) - 2.0 * Dot(s, e) + Norm(e) / w
  {
    hide *;
    NormOfMove(s, e, w);
    MoveScalars(w, Dot(s, s), Dot(s, e), Norm(e));
  }

  lemma MoveSquared(s: real, e: real, w: real)
    ensures (w * s - e) * (w * s - e) == w * (w * (s * s)) - w * (2.0 * (s * e)) + e * e
  {
  }

  lemma NormOfMove(s: Vec, e: Vec, w: real)
    ensures Norm(Minus(Scale(w, s), e)) == w * (w * Dot(s, s)) - w * (2.0 * Dot(s, e)) + Norm(e)
  {
    hide *;
    NormOfMoveIs(s, e, w);
    NormIs(e);
    DotIs(s, s);
    DotIs(s, e);
    MoveSquared(s.a, e.a, w);
    MoveSquared(s.b, e.b, w);
    SumOfMoves(w, s.a * s.a, s.b * s.b, s.a * e.a, s.b * e.b);
  }

  lemma NormIs(e: Vec)
    ensures Norm(e) == e.a * e.a + e.b * e.b
  {
  }

  lemma NormOfMoveIs(s: Vec, e: Vec, w: real)
    ensures Norm(Minus(Scale(w, s), e)) == (w * s.a - e.a) * (w * s.a - e.a) + (w * s.b - e.b) * (w * s.b - e.b)
  {
  }

  lemma SumOfMoves(w: real, x: real, x': real, y: real, y': real)
    ensures w * (w * x) + w * (w * x') == w * (w * (x + x'))
    ensures w * (2.0 * y) + w * (2.0 * y') == w * (2.0 * (y + y'))
  {
  }

  lemma MoveScalars(w: real, x: real, y: real, z: real)
    requires w != 0.0
    ensures (w * (w * x) - w * (2.0 * y) + z) / w == w * x - 2.0 * y + z / w
  {
  }

  lemma PlusZero(u: Vec)
    ensures Plus(Vec(0.0, 0.0), u) == u
  {
  }

  lemma DotNothing(s: Vec)
    ensures Dot(s, Vec(0.0, 0.0)) == 0.0
  {
  }

  /** The squared distance of an image. */
  lemma ImagePenalty(m: Mat, s: Vec, d: Vec)
    requires m.ab == m.ba && Det(m) != 0.0 && d == MatVec(m, s)
    ensures Penalty(m, d) == Dot(s, d)
  {
    hide *;
    ImageForm(m, Vec(0.0, 0.0), s, d);
    PlusZero(d);
    PenaltyOfZero(m);
    DotNothing(s);
  }

  lemma Rearrange(u: Vec, s: Vec, e: Vec, a: Vec, d: Vec, w: real)
    requires d == Plus(u, Scale(w, s)) && a == Plus(e, u)
    ensures Minus(d, a) == Minus(Scale(w, s), e)
  {
  }

  /** Splitting a displacement `d` into a part `a` under `p` and a move: the excess over the best split. */
  lemma SplitCost(p: Mat, w: real, m: Mat, s: Vec, e: Vec, a: Vec, d: Vec)
    requires p.ab == p.ba && Det(p) != 0.0 && w != 0.0 && m == AddDiagonal(p, w) && m.ab == m.ba && Det(m) != 0.0
    requires d == MatVec(m, s) && a == Plus(e, MatVec(p, s))
    ensures Penalty(p, a) + Norm(Minus(d, a)) / w == Penalty(m, d) + (Penalty(p, e) + Norm(e) / w)
  {
    hide *;
    var u := MatVec(p, s);
    ImageForm(p, e, s, u);
    Shifted(p, w, s);
    Rearrange(u, s, e, a, d, w);
    MoveForm(s, e, w);
    ImagePenalty(m, s, d);
    DotPlus(s, u, w);
  }

  lemma MinusPlus(a: Vec, u: Vec)
    ensures Plus(Minus(a, u), u) == a
  {
  }

  lemma NormPositive(e: Vec)
    ensures Norm(e) >= 0.0
  {
    var x := Square(e.a);
    var y := Square(e.b);
    assert Norm(e) == e.a * e.a + e.b * e.b;
  }

  lemma PenaltyNonNegative(m: Mat, v: Vec)
    requires Minors(m)
    ensures Det(m) > 0.0 && Penalty(m, v) >= 0.0
  {
    hide Penalty;
    if v == Vec(0.0, 0.0) { PenaltyOfZero(m); } else { PenaltyPositive(m, v); }
  }

  lemma NonNegativeQuotient(x: real, w: real)
    requires x >= 0.0 && w > 0.0
    ensures x / w >= 0.0
  {
  }

  lemma Shape(p: Mat)
    requires Minors(p)
    ensures p.ab == p.ba && Det(p) > 0.0
  {
  }

  /** No split is cheaper than the distance under the widened matrix. */
  lemma SplitAtLeast(p: Mat, w: real, m: Mat, a: Vec, d: Vec)
    requires Minors(p) && w > 0.0 && m == AddDiagonal(p, w) && Minors(m)
    ensures Det(p) > 0.0 && Det(m) > 0.0
    ensures Penalty(p, a) + Norm(Minus(d, a)) / w >= Penalty(m, d)
  {
    hide *;
    Shape(p);
    Shape(m);
    var s := Solve(m, d);
    var e := Minus(a, MatVec(p, s));
    MinusPlus(a, MatVec(p, s));
    SplitCost(p, w, m, s, e, a, d);
    PenaltyNonNegative(p, e);
    NormPositive(e);
    NonNegativeQuotient(Norm(e), w);
  }

  /** And one split costs exactly that. */
  lemma SplitBest(p: Mat, w: real, m: Mat, d: Vec) returns (a: Vec)
    requires Minors(p) && w > 0.0 && m == AddDiagonal(p, w) && Minors(m)
    ensures Det(p) > 0.0 && Det(m) > 0.0
    ensures Penalty(p, a) + Norm(Minus(d, a)) / w == Penalty(m, d)
  {
    hide *;
    Shape(p);
    Shape(m);
    var s := Solve(m, d);
    a := MatVec(p, s);
    PlusZero(a);
    SplitCost(p, w, m, s, Vec(0.0, 0.0), a, d);
    PenaltyOfZero(p);
    DotNothing(Vec(0.0, 0.0));
    assert Norm(Vec(0.0, 0.0)) == 0.0 by { NormOfZero(); }
  }

  lemma NormOfZero()
    ensures Norm(Vec(0.0, 0.0)) == 0.0
  {
  }

  // ----- one bar -----

  lemma LegalParts(c: Params)
    requires Legal(c)
    ensures c.ve > 0.0 && 0.0 < c.delta < 1.0 && Drift(c) > 0.0
  {
    DriftPositive(c);
  }

  /** The least cost of a bar is paid at the filter's new state. */
  lemma FloorIsLeast(c: Params, f: Filter, bar: Bar)
    requires Legal(c) && Minors(f.p)
    ensures c.ve > 0.0 && Det(Predicted(c, f)) > 0.0 && Variance(c, f, bar) > c.ve
    ensures Cost(c, f, bar, Step(c, f, bar).x) == Floor(c, f, bar)
  {
    hide *;
    LegalParts(c);
    PredictedMinors(c, f);
    Shape(Predicted(c, f));
    VarianceAboveNoise(c, f, bar);
    CostSplits(c, f, bar, Vec(0.0, 0.0));
    PlusMinus(Step(c, f, bar).x, Step(c, f, bar).x);
    PenaltyOfZero(Predicted(c, f));
    DotZero(Regressor(bar), c.ve);
  }

  lemma PredictedIs(c: Params, f: Filter)
    requires c.delta != 1.0
    ensures Predicted(c, f) == AddDiagonal(f.p, Drift(c))
  {
  }

  lemma BarCostIs(c: Params, f: Filter, bar: Bar, u: Vec, z: Vec)
    requires Legal(c) && Drift(c) != 0.0 && Det(Predicted(c, f)) != 0.0
    ensures BarCost(c, bar, u, z) + Penalty(Predicted(c, f), Minus(z, f.x))
         == Norm(Minus(z, u)) / Drift(c) + Cost(c, f, bar, z)
  {
    hide Penalty, Predicted, Drift, Norm, Dot;
    DriftDivides(c, Norm(Minus(z, u)));
    assert Dot(Regressor(bar), z) == bar.price * z.a + z.b by { RegressorDot(bar, z); }
  }

  lemma RegressorDot(bar: Bar, z: Vec)
    ensures Dot(Regressor(bar), z) == bar.price * z.a + z.b
  {
  }

  lemma Displaced(z: Vec, u: Vec, x: Vec)
    ensures Minus(Minus(z, x), Minus(u, x)) == Minus(z, u)
  {
  }

  /** What a bar adds, from any state before it to any state after it. */
  lemma BarAtLeast(c: Params, f: Filter, bar: Bar, u: Vec, z: Vec)
    requires Legal(c) && Minors(f.p)
    ensures c.ve > 0.0 && c.delta > 0.0 && Det(f.p) > 0.0 && Minors(Step(c, f, bar).p) && Det(Step(c, f, bar).p) > 0.0
    ensures Variance(c, f, bar) > 0.0
    ensures Penalty(f.p, Minus(u, f.x)) + BarCost(c, bar, u, z)
         >= Floor(c, f, bar) + Penalty(Step(c, f, bar).p, Minus(z, Step(c, f, bar).x))
  {
    hide *;
    LegalParts(c);
    PredictedMinors(c, f);
    PredictedIs(c, f);
    SplitAtLeast(f.p, Drift(c), Predicted(c, f), Minus(u, f.x), Minus(z, f.x));
    Displaced(z, u, f.x);
    BarCostIs(c, f, bar, u, z);
    UpdateIsOptimal(c, f, bar, z);
    FloorIsLeast(c, f, bar);
    StepFacts(c, f, bar);
  }

  lemma BarBest(c: Params, f: Filter, bar: Bar, z: Vec) returns (u: Vec)
    requires Legal(c) && Minors(f.p)
    ensures c.ve > 0.0 && c.delta > 0.0 && Det(f.p) > 0.0 && Minors(Step(c, f, bar).p) && Det(Step(c, f, bar).p) > 0.0
    ensures Variance(c, f, bar) > 0.0
    ensures Penalty(f.p, Minus(u, f.x)) + BarCost(c, bar, u, z)
         == Floor(c, f, bar) + Penalty(Step(c, f, bar).p, Minus(z, Step(c, f, bar).x))
  {
    hide *;
    LegalParts(c);
    PredictedMinors(c, f);
    PredictedIs(c, f);
    var a := SplitBest(f.p, Drift(c), Predicted(c, f), Minus(z, f.x));
    u := Plus(f.x, a);
    PlusBack(f.x, a);
    Displaced(z, u, f.x);
    BarCostIs(c, f, bar, u, z);
    UpdateIsOptimal(c, f, bar, z);
    FloorIsLeast(c, f, bar);
    StepFacts(c, f, bar);
  }

  lemma PlusBack(x: Vec, a: Vec)
    ensures Minus(Plus(x, a), x) == a
  {
  }

  // ----- whole runs -----

  lemma StartCost(v: Vec)
    ensures Det(Initial().p) > 0.0 && Penalty(Initial().p, Minus(v, Initial().x)) == Norm(v)
  {
  }

  lemma RunLast(c: Params, bars: seq<Bar>)
    requires Legal(c) && bars != []
    ensures Run(c, bars) == Step(c, Run(c, bars[..|bars| - 1]), bars[|bars| - 1])
  {
  }

  lemma RunEmpty(c: Params)
    requires Legal(c)
    ensures Run(c, []) == Initial() && Least(c, []) == 0.0
  {
  }

  lemma LeastLast(c: Params, bars: seq<Bar>)
    requires Legal(c) && bars != []
    ensures var n := |bars| - 1;
            && Variance(c, Run(c, bars[..n]), bars[n]) > 0.0
            && Least(c, bars) == Least(c, bars[..n]) + Floor(c, Run(c, bars[..n]), bars[n])
  {
    hide Run, Floor, Variance, Minors, PositiveDefinite;
    RunStaysPositiveDefinite(c, bars[..|bars| - 1]);
  }

  /**
   Every explanation of a run costs at least the sum of its relative forecast errors, and more
   the further it ends from the filter's state.
   */
  lemma {:induction false} PathsPay(c: Params, bars: seq<Bar>, path: seq<Vec>)
    requires Legal(c) && |path| == |bars| + 1
    ensures c.ve > 0.0 && c.delta > 0.0 && Det(Run(c, bars).p) > 0.0
    ensures PathCost(c, bars, path) >= Least(c, bars) + Penalty(Run(c, bars).p, Minus(path[|bars|], Run(c, bars).x))
    decreases |bars|
  {
    hide Run, Least, Penalty, BarCost, Minors, PositiveDefinite, Legal, Floor, Step, Variance, Norm, Drift, Det;
    LegalParts(c);
    RunStaysPositiveDefinite(c, bars);
    Shape(Run(c, bars).p);
    if bars == [] {
      RunEmpty(c);
      StartCost(path[0]);
    } else {
      var n := |bars| - 1;
      RunStaysPositiveDefinite(c, bars[..n]);
      PathsPay(c, bars[..n], path[..n + 1]);
      RunLast(c, bars);
      LeastLast(c, bars);
      BarAtLeast(c, Run(c, bars[..n]), bars[n], path[n], path[n + 1]);
    }
  }

  /** For every end state there is an explanation that costs exactly that. */
  lemma {:induction false} CheapestPath(c: Params, bars: seq<Bar>, z: Vec) returns (path: seq<Vec>)
    requires Legal(c)
    ensures |path| == |bars| + 1 && path[|bars|] == z
    ensures c.ve > 0.0 && c.delta > 0.0 && Det(Run(c, bars).p) > 0.0
    ensures PathCost(c, bars, path) == Least(c, bars) + Penalty(Run(c, bars).p, Minus(z, Run(c, bars).x))
    decreases |bars|
  {
    hide Run, Least, Penalty, BarCost, Minors, PositiveDefinite, Legal, Floor, Step, Variance, Norm, Drift, Det;
    LegalParts(c);
    RunStaysPositiveDefinite(c, bars);
    Shape(Run(c, bars).p);
    if bars == [] {
      path := [z];
      RunEmpty(c);
      StartCost(z);
    } else {
      var n := |bars| - 1;
      RunStaysPositiveDefinite(c, bars[..n]);
      var u := BarBest(c, Run(c, bars[..n]), bars[n], z);
      var front := CheapestPath(c, bars[..n], u);
      path := front + [z];
      assert path[..n + 1] == front;
      RunLast(c, bars);
      LeastLast(c, bars);
    }
  }

  /**
   The filter's state after any run is the end of the cheapest explanation of all its bars: some
   explanation ends there at the least cost, and every explanation that ends elsewhere costs more.
   */
  lemma RunIsBestExplanation(c: Params, bars: seq<Bar>) returns (best: seq<Vec>)
    requires Legal(c)
    ensures c.ve > 0.0 && c.delta > 0.0
    ensures |best| == |bars| + 1 && best[|bars|] == Run(c, bars).x && PathCost(c, bars, best) == Least(c, bars)
    ensures forall path: seq<Vec> :: |path| == |bars| + 1 ==>
              && PathCost(c, bars, path) >= PathCost(c, bars, best)
              && (path[|bars|] != Run(c, bars).x ==> PathCost(c, bars, path) > PathCost(c, bars, best))
  {
    hide *;
    LegalParts(c);
    var f := Run(c, bars);
    best := CheapestPath(c, bars, f.x);
    PlusMinus(f.x, f.x);
    SelfDistance(f.x);
    PenaltyOfZero(f.p);
    RunStaysPositiveDefinite(c, bars);
    forall path: seq<Vec> | |path| == |bars| + 1
      ensures PathCost(c, bars, path) >= Least(c, bars)
      ensures path[|bars|] != f.x ==> PathCost(c, bars, path) > Least(c, bars)
    {
      PathsPay(c, bars, path);
      PenaltyNonNegative(f.p, Minus(path[|bars|], f.x));
      PlusMinus(f.x, path[|bars|]);
      if path[|bars|] != f.x { PenaltyPositive(f.p, Minus(path[|bars|], f.x)); }
    }
  }

  lemma SelfDistance(x: Vec)
    ensures Minus(x, x) == Vec(0.0, 0.0)
  {
  }
}
