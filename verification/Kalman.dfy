/**
 The Kalman hedge filter of `elliott_2005_kalman_pairs.py`, in exact real arithmetic.

 The state is a 2-vector (hedge ratio, intercept) and a full 2x2 covariance matrix, as in
 the source: symmetry is not built into the representation, it is proved of every run.
 */
module Kalman {

  datatype Vec = Vec(a: real, b: real)
  datatype Mat = Mat(aa: real, ab: real, ba: real, bb: real)

  function Dot(u: Vec, v: Vec): real { u.a * v.a + u.b * v.b }
  function Plus(u: Vec, v: Vec): Vec { Vec(u.a + v.a, u.b + v.b) }
  function Minus(u: Vec, v: Vec): Vec { Vec(u.a - v.a, u.b - v.b) }
  function Scale(s: real, v: Vec): Vec { Vec(s * v.a, s * v.b) }
  function AddDiagonal(m: Mat, w: real): Mat { Mat(m.aa + w, m.ab, m.ba, m.bb + w) }
  function MatVec(m: Mat, v: Vec): Vec { Vec(m.aa * v.a + m.ab * v.b, m.ba * v.a + m.bb * v.b) }
  function VecMat(v: Vec, m: Mat): Vec { Vec(v.a * m.aa + v.b * m.ba, v.a * m.ab + v.b * m.bb) }
  function MinusOuter(m: Mat, u: Vec, v: Vec): Mat {
    Mat(m.aa - u.a * v.a, m.ab - u.a * v.b, m.ba - u.b * v.a, m.bb - u.b * v.b)
  }
  function Det(m: Mat): real { m.aa * m.bb - m.ab * m.ba }

  ghost predicate Symmetric(m: Mat) { m.ab == m.ba }

  /** Symmetric positive definite, by its quadratic form. */
  ghost predicate PositiveDefinite(m: Mat) {
    Symmetric(m) && forall v: Vec :: v != Vec(0.0, 0.0) ==> Dot(v, MatVec(m, v)) > 0.0
  }

  /** Sylvester's criterion for a 2x2 symmetric matrix. */
  predicate Minors(m: Mat) { m.ab == m.ba && m.aa > 0.0 && Det(m) > 0.0 }

  lemma Product(x: real, y: real) returns (s: real)
    requires x > 0.0 && y > 0.0
    ensures s == x * y && s > 0.0
  {
    s := x * y;
  }

  lemma Square(x: real) returns (s: real)
    ensures s == x * x && s >= 0.0 && (x != 0.0 ==> s > 0.0)
  {
    if x > 0.0 { s := Product(x, x); } else if x < 0.0 { s := Product(-x, -x); } else { s := 0.0; }
  }

  lemma QuadraticForm(m: Mat, v: Vec)
    requires m.ab == m.ba
    ensures m.aa * Dot(v, MatVec(m, v))
         == (m.aa * v.a + m.ab * v.b) * (m.aa * v.a + m.ab * v.b) + Det(m) * (v.b * v.b)
  {
  }

  lemma QuotientPositive(x: real, y: real)
    requires x > 0.0 && x * y > 0.0
    ensures y > 0.0
  {
  }

  lemma MinorsGivePositive(m: Mat, v: Vec)
    requires Minors(m) && v != Vec(0.0, 0.0)
    ensures Dot(v, MatVec(m, v)) > 0.0
  {
    hide *;
    MinorsAre(m);
    var r := LeadingSquare(m, v);
    var s := Square(v.b);
    QuadraticForm(m, v);
    FormPositive(m.aa, r, Det(m), s, Dot(v, MatVec(m, v)));
  }

  lemma LeadingSquare(m: Mat, v: Vec) returns (s: real)
    requires m.aa > 0.0 && v != Vec(0.0, 0.0)
    ensures s == (m.aa * v.a + m.ab * v.b) * (m.aa * v.a + m.ab * v.b)
    ensures s >= 0.0 && (v.b == 0.0 ==> s > 0.0)
  {
    s := Square(m.aa * v.a + m.ab * v.b);
    if v.b == 0.0 {
      NonZeroProduct(m.aa, v.a);
    }
  }

  lemma MinorsAre(m: Mat)
    requires Minors(m)
    ensures m.ab == m.ba && m.aa > 0.0 && Det(m) > 0.0
  {
  }

  lemma NonZeroProduct(x: real, y: real)
    requires x != 0.0 && y != 0.0
    ensures x * y != 0.0
  {
  }

  lemma FormPositive(a: real, r: real, det: real, s: real, form: real)
    requires a > 0.0 && det > 0.0 && a * form == r + det * s
    requires r >= 0.0 && s >= 0.0 && (r > 0.0 || s > 0.0)
    ensures form > 0.0
  {
    if s > 0.0 { var t := Product(det, s); }
    QuotientPositive(a, form);
  }

  lemma PositiveDefiniteByMinors(m: Mat)
    requires Symmetric(m)
    ensures Minors(m) <==> PositiveDefinite(m)
  {
    if Minors(m) {
      forall v: Vec | v != Vec(0.0, 0.0) ensures Dot(v, MatVec(m, v)) > 0.0 {
        MinorsGivePositive(m, v);
      }
    }
    if PositiveDefinite(m) {
      var e, v := Vec(1.0, 0.0), Vec(-m.ab, m.aa);
      assert Dot(e, MatVec(m, e)) > 0.0;
      FirstEntry(m);
      assert Dot(v, MatVec(m, v)) > 0.0;
      DetFromForm(m, v);
    }
  }

  lemma FirstEntry(m: Mat)
    ensures Dot(Vec(1.0, 0.0), MatVec(m, Vec(1.0, 0.0))) == m.aa
  {
  }

  lemma DetFromForm(m: Mat, v: Vec)
    requires m.ab == m.ba && m.aa > 0.0 && v == Vec(-m.ab, m.aa) && Dot(v, MatVec(m, v)) > 0.0
    ensures Det(m) > 0.0
  {
    hide *;
    QuadraticForm(m, v);
    var f := Product(m.aa, Dot(v, MatVec(m, v)));
    var s := Product(m.aa, m.aa);
    assert m.aa * v.a + m.ab * v.b == 0.0;
    DetScalars(f, s, Det(m));
  }

  lemma DetScalars(f: real, s: real, det: real)
    requires f > 0.0 && s > 0.0 && f == det * s
    ensures det > 0.0
  {
  }

  // ----- one bar -----

  datatype Params = Params(delta: real, ve: real)

  ghost predicate Legal(c: Params) { 0.0 < c.delta < 1.0 && c.ve > 0.0 }

  datatype Filter = Filter(x: Vec, p: Mat, seen: nat)

  /** One observation: leg A's price, explained by leg B's price and a constant. */
  datatype Bar = Bar(y: real, price: real)

  function Regressor(bar: Bar): Vec { Vec(bar.price, 1.0) }

  function Initial(): Filter { Filter(Vec(0.0, 0.0), Mat(1.0, 0.0, 0.0, 1.0), 0) }

  function Drift(c: Params): real
    requires c.delta != 1.0
  {
    c.delta / (1.0 - c.delta)
  }

  function Predicted(c: Params, f: Filter): Mat
    requires c.delta != 1.0
  {
    AddDiagonal(f.p, Drift(c))
  }

  function Error(f: Filter, bar: Bar): real { bar.y - Dot(Regressor(bar), f.x) }

  function Variance(c: Params, f: Filter, bar: Bar): real
    requires c.delta != 1.0
  {
    Dot(VecMat(Regressor(bar), Predicted(c, f)), Regressor(bar)) + c.ve
  }

  function Gain(c: Params, f: Filter, bar: Bar): Vec
    requires c.delta != 1.0 && Variance(c, f, bar) != 0.0
  {
    Scale(1.0 / Variance(c, f, bar), MatVec(Predicted(c, f), Regressor(bar)))
  }

  function Step(c: Params, f: Filter, bar: Bar): Filter
    requires c.delta != 1.0
  {
    if Variance(c, f, bar) <= 0.0 then f
    else
      var k := Gain(c, f, bar);
      Filter(Plus(f.x, Scale(Error(f, bar), k)),
             MinusOuter(Predicted(c, f), k, VecMat(Regressor(bar), Predicted(c, f))),
             f.seen + 1)
  }

  lemma DriftPositive(c: Params)
    requires Legal(c)
    ensures Drift(c) > 0.0
  {
  }

  /** Dividing by the drift, in terms of `delta`. */
  lemma {:induction false} DriftDivides(c: Params, x: real)
    requires Legal(c)
    ensures Drift(c) > 0.0 && Drift(c) * (1.0 - c.delta) == c.delta
    ensures x / Drift(c) == x * (1.0 - c.delta) / c.delta
  {
    var w, r := Drift(c), 1.0 - c.delta;
    Quotient(c.delta, r);
    Quotient(x, w);
    Quotient(x * r, c.delta);
    assert c.delta * (x / w) == r * ((x / w) * w);
    Cancel(c.delta, x / w, x * r / c.delta);
  }

  lemma PredictedMinors(c: Params, f: Filter)
    requires Legal(c) && Minors(f.p)
    ensures Minors(Predicted(c, f))
    ensures Det(Predicted(c, f)) > Det(f.p)
  {
    DriftPositive(c);
    var w, p := Drift(c), f.p;
    var s := Square(p.ab);
    assert p.aa * p.bb == Det(p) + s;
    QuotientPositive(p.aa, p.bb);
    var t := Product(w, p.aa + p.bb);
    var r := Product(w, w);
    assert Det(Predicted(c, f)) == Det(p) + t + r;
  }

  /** The guard `q <= 0` is never taken on a positive definite covariance. */
  lemma VarianceAboveNoise(c: Params, f: Filter, bar: Bar)
    requires Legal(c) && Minors(f.p)
    ensures Variance(c, f, bar) > c.ve
  {
    PredictedMinors(c, f);
    var h := Regressor(bar);
    MinorsGivePositive(Predicted(c, f), h);
    assert Dot(VecMat(h, Predicted(c, f)), h) == Dot(h, MatVec(Predicted(c, f), h));
  }

  lemma EntryIdentities(a: real, b: real, d: real, t: real, ve: real)
    ensures var q, u, v := (t * a + b) * t + (t * b + d) + ve, a * t + b, b * t + d;
            && q * a - u * u == (a * d - b * b) + ve * a
            && q * b - u * v == ve * b - t * (a * d - b * b)
            && q * d - v * v == t * t * (a * d - b * b) + ve * d
  {
  }

  lemma ScaledEntry(q: real, x: real, u: real, v: real)
    requires q != 0.0
    ensures q * (x - ((1.0 / q) * u) * v) == q * x - u * v
  {
    assert q * (1.0 / q) == 1.0;
    assert q * (((1.0 / q) * u) * v) == (q * (1.0 / q)) * (u * v);
  }

  /** The updated covariance times `q`, entry by entry: `det(P)·[1,-h;-h,h²] + ve·P`. */
  lemma UpdatedEntries(p: Mat, h: Vec, ve: real, q: real, n: Mat)
    requires p.ab == p.ba && q != 0.0 && h.b == 1.0
    requires q == Dot(VecMat(h, p), h) + ve
    requires n == MinusOuter(p, Scale(1.0 / q, MatVec(p, h)), VecMat(h, p))
    ensures q * n.aa == Det(p) + ve * p.aa
    ensures q * n.ab == ve * p.ab - h.a * Det(p)
    ensures n.ba == n.ab
    ensures q * n.bb == h.a * h.a * Det(p) + ve * p.bb
  {
    hide *;
    var u := MatVec(p, h);
    EntriesUnfolded(p, h, ve, q, 1.0 / q, n, u);
    ScaledEntry(q, p.aa, u.a, u.a);
    ScaledEntry(q, p.ab, u.a, u.b);
    ScaledEntry(q, p.bb, u.b, u.b);
    EntryIdentities(p.aa, p.ab, p.bb, h.a, ve);
  }

  lemma Rearranged(r: real, x: real, y: real)
    ensures (r * x) * y == (r * y) * x
  {
  }

  /** A symmetric matrix acts the same from either side. */
  lemma SymmetricProduct(m: Mat, v: Vec)
    requires m.ab == m.ba
    ensures VecMat(v, m) == MatVec(m, v)
  {
    var l, r := VecMat(v, m), MatVec(m, v);
    assert l.a == r.a;
    assert l.b == r.b;
  }

  lemma EntriesUnfolded(p: Mat, h: Vec, ve: real, q: real, r: real, n: Mat, u: Vec)
    requires p.ab == p.ba && h.b == 1.0
    requires q == Dot(VecMat(h, p), h) + ve
    requires u == MatVec(p, h) && n == MinusOuter(p, Scale(r, u), VecMat(h, p))
    ensures q == (h.a * p.aa + p.ab) * h.a + (h.a * p.ab + p.bb) + ve
    ensures u.a == p.aa * h.a + p.ab && u.b == p.ab * h.a + p.bb
    ensures n.aa == p.aa - (r * u.a) * u.a
    ensures n.ab == p.ab - (r * u.a) * u.b
    ensures n.ba == n.ab
    ensures n.bb == p.bb - (r * u.b) * u.b
    ensures Det(p) == p.aa * p.bb - p.ab * p.ab
  {
    hide *;
    RegressorProducts(p, h.a);
    assert h == Vec(h.a, 1.0);
    CommuteEntries(p, h.a);
    Rearranged(r, u.a, u.b);
    ScaleIs(r, u);
    MinusOuterIs(p, Scale(r, u), u);
    DotIs(u, h);
    DetIs(p);
  }

  lemma DotIs(u: Vec, v: Vec)
    ensures Dot(u, v) == u.a * v.a + u.b * v.b
  {
  }

  lemma ScaleIs(s: real, v: Vec)
    ensures Scale(s, v).a == s * v.a && Scale(s, v).b == s * v.b
  {
  }

  lemma DetIs(m: Mat)
    ensures m.ab == m.ba ==> Det(m) == m.aa * m.bb - m.ab * m.ab
  {
  }

  lemma MinusOuterIs(p: Mat, k: Vec, u: Vec)
    ensures MinusOuter(p, k, u).aa == p.aa - k.a * u.a && MinusOuter(p, k, u).ab == p.ab - k.a * u.b
    ensures MinusOuter(p, k, u).ba == p.ba - k.b * u.a && MinusOuter(p, k, u).bb == p.bb - k.b * u.b
  {
  }

  lemma RegressorProducts(p: Mat, t: real)
    requires p.ab == p.ba
    ensures MatVec(p, Vec(t, 1.0)) == Vec(p.aa * t + p.ab, p.ab * t + p.bb)
    ensures VecMat(Vec(t, 1.0), p) == Vec(t * p.aa + p.ab, t * p.ab + p.bb)
  {
    var r, l := MatVec(p, Vec(t, 1.0)), VecMat(Vec(t, 1.0), p);
    assert r.a == p.aa * t + p.ab && r.b == p.ab * t + p.bb;
    assert l.a == t * p.aa + p.ab && l.b == t * p.ab + p.bb;
  }

  lemma CommuteEntries(p: Mat, t: real)
    ensures p.aa * t == t * p.aa && p.ab * t == t * p.ab
  {
  }

  lemma DeterminantIdentity(a: real, b: real, d: real, t: real, ve: real)
    ensures var q, det := (t * a + b) * t + (t * b + d) + ve, a * d - b * b;
            (det + ve * a) * (t * t * det + ve * d) - (ve * b - t * det) * (ve * b - t * det) == det * ve * q
  {
    var det := a * d - b * b;
    calc {
      (det + ve * a) * (t * t * det + ve * d) - (ve * b - t * det) * (ve * b - t * det);
      det * ve * d + ve * a * t * t * det + ve * ve * (a * d) - ve * ve * (b * b) + 2.0 * ve * b * t * det;
      det * ve * d + ve * a * t * t * det + ve * ve * det + 2.0 * ve * b * t * det;
      det * ve * (t * t * a + 2.0 * b * t + d + ve);
    }
  }

  lemma Cancel(q: real, x: real, y: real)
    requires q != 0.0 && q * x == q * y
    ensures x == y
  {
  }

  /** `det(P') = det(P_pred)·ve/q`. */
  lemma UpdatedDeterminant(p: Mat, h: Vec, ve: real, q: real, n: Mat)
    requires p.ab == p.ba && q != 0.0 && h.b == 1.0
    requires q == Dot(VecMat(h, p), h) + ve
    requires n == MinusOuter(p, Scale(1.0 / q, MatVec(p, h)), VecMat(h, p))
    ensures Det(n) == Det(p) * ve / q
  {
    hide *;
    UpdatedEntries(p, h, ve, q, n);
    EntriesUnfolded(p, h, ve, q, 1.0 / q, n, MatVec(p, h));
    DetIs(n);
    UpdatedDeterminantScalars(p.aa, p.ab, p.bb, h.a, ve, q, Det(p), n.aa, n.ab, n.bb, Det(n));
  }

  lemma UpdatedDeterminantScalars(a: real, b: real, d: real, t: real, ve: real, q: real, det: real,
                                  na: real, nb: real, nd: real, n: real)
    requires q != 0.0 && det == a * d - b * b && q == (t * a + b) * t + (t * b + d) + ve
    requires q * na == det + ve * a && q * nb == ve * b - t * det && q * nd == t * t * det + ve * d
    requires n == na * nd - nb * nb
    ensures n == det * ve / q
  {
    DeterminantIdentity(a, b, d, t, ve);
    ProductScaled(q, na, nd);
    ProductScaled(q, nb, nb);
    assert q * (q * n) == q * (q * (na * nd)) - q * (q * (nb * nb));
    assert q * (q * n) == det * ve * q;
    Cancel(q, q * n, det * ve);
  }

  lemma ProductScaled(q: real, x: real, y: real)
    ensures q * (q * (x * y)) == (q * x) * (q * y)
  {
  }

  /**
   What one bar does to a positive definite filter. The forecast variance exceeds the noise,
   the covariance stays positive definite, its determinant shrinks by exactly `ve/q`, and the
   residual at the new state is exactly `e·ve/q`: same sign, strictly smaller.
   */
  lemma StepFacts(c: Params, f: Filter, bar: Bar)
    requires Legal(c) && Minors(f.p)
    ensures var q, g := Variance(c, f, bar), Step(c, f, bar);
            && q > c.ve
            && Minors(g.p)
            && Det(g.p) == Det(Predicted(c, f)) * c.ve / q
            && Error(g, bar) == Error(f, bar) * c.ve / q
            && g.seen == f.seen + 1
  {
    VarianceAboveNoise(c, f, bar);
    PredictedMinors(c, f);
    var p, h, q, g := Predicted(c, f), Regressor(bar), Variance(c, f, bar), Step(c, f, bar);
    UpdatedEntries(p, h, c.ve, q, g.p);
    UpdatedDeterminant(p, h, c.ve, q, g.p);
    var s := Product(c.ve, p.aa);
    QuotientPositive(q, g.p.aa);
    var t := Product(Det(p), c.ve);
    assert q * Det(g.p) == t;
    QuotientPositive(q, Det(g.p));
    StepResidual(c, f, bar);
  }

  lemma StepResidual(c: Params, f: Filter, bar: Bar)
    requires c.delta != 1.0 && Variance(c, f, bar) > 0.0 && Symmetric(f.p)
    ensures Error(Step(c, f, bar), bar) == Error(f, bar) * c.ve / Variance(c, f, bar)
  {
    hide MatVec, VecMat;
    var p, h, q, e := Predicted(c, f), Regressor(bar), Variance(c, f, bar), Error(f, bar);
    var u := MatVec(p, h);
    SymmetricProduct(p, h);
    ResidualScalars(bar.y, h.a, f.x.a, f.x.b, u.a, u.b, q, c.ve, e);
  }

  lemma ResidualScalars(y: real, t: real, x: real, x': real, u: real, u': real, q: real, ve: real, e: real)
    requires q != 0.0 && q == u * t + u' * 1.0 + ve && e == y - (t * x + 1.0 * x')
    ensures y - (t * (x + e * ((1.0 / q) * u)) + 1.0 * (x' + e * ((1.0 / q) * u'))) == e * ve / q
  {
    var r := 1.0 / q;
    assert q * r == 1.0;
    var l := y - (t * (x + e * (r * u)) + 1.0 * (x' + e * (r * u')));
    assert l == e - e * (r * (t * u + u'));
    assert l == e - e * (r * (q - ve));
    assert l == e - e * (q * r) + e * (r * ve);
    assert e * (r * ve) == e * ve / q;
  }

  // ----- the update is the best compromise -----

  /** `det(m)` times the quadratic form of the inverse of a symmetric `m`. */
  function AdjugateForm(m: Mat, v: Vec): real {
    m.bb * (v.a * v.a) - 2.0 * m.ab * (v.a * v.b) + m.aa * (v.b * v.b)
  }

  /** The squared distance of `v` under the precision matrix `m^-1`. */
  function Penalty(m: Mat, v: Vec): real
    requires Det(m) != 0.0
  {
    AdjugateForm(m, v) / Det(m)
  }

  /** How badly a candidate state explains the prior together with the new observation. */
  function Cost(c: Params, f: Filter, bar: Bar, z: Vec): real
    requires c.delta != 1.0 && c.ve != 0.0 && Det(Predicted(c, f)) != 0.0
  {
    var miss := bar.y - Dot(Regressor(bar), z);
    Penalty(Predicted(c, f), Minus(z, f.x)) + miss * miss / c.ve
  }

  lemma AdjugateShift(p: Mat, h: Vec, u: Vec, v: Vec, s: real)
    requires p.ab == p.ba && u == MatVec(p, h)
    ensures AdjugateForm(p, Plus(v, Scale(s, u)))
         == AdjugateForm(p, v) + 2.0 * s * (Det(p) * Dot(h, v)) + s * s * (Det(p) * Dot(h, u))
  {
    hide *;
    AdjugateOfImage(p, h, u, v);
    AdjugateOfImage(p, h, u, u);
    AdjugateDiagonal(p, u);
    AdjugateBilinear(p, u, v, s);
  }

  /** The adjugate sends `m·h` back to `det(m)·h`. */
  lemma AdjugateOfImage(p: Mat, h: Vec, u: Vec, v: Vec)
    requires p.ab == p.ba && u == MatVec(p, h)
    ensures AdjugateCross(p, u, v) == Det(p) * Dot(h, v)
  {
  }

  lemma AdjugateDiagonal(p: Mat, u: Vec)
    ensures AdjugateCross(p, u, u) == AdjugateForm(p, u)
  {
  }

  function AdjugateCross(p: Mat, u: Vec, v: Vec): real {
    p.bb * (u.a * v.a) - p.ab * (u.a * v.b + u.b * v.a) + p.aa * (u.b * v.b)
  }

  lemma AdjugateBilinear(p: Mat, u: Vec, v: Vec, s: real)
    ensures AdjugateForm(p, Plus(v, Scale(s, u)))
         == AdjugateForm(p, v) + 2.0 * s * AdjugateCross(p, u, v) + s * s * AdjugateForm(p, u)
  {
  }

  /** The information form of the update: precision gained is `h·h'/ve`. */
  lemma UpdatedPenalty(p: Mat, h: Vec, ve: real, q: real, n: Mat, v: Vec)
    requires p.ab == p.ba && q != 0.0 && h.b == 1.0 && ve != 0.0 && Det(p) != 0.0
    requires q == Dot(VecMat(h, p), h) + ve
    requires n == MinusOuter(p, Scale(1.0 / q, MatVec(p, h)), VecMat(h, p))
    ensures Det(n) != 0.0
    ensures Penalty(n, v) == Penalty(p, v) + Dot(h, v) * Dot(h, v) / ve
  {
    hide *;
    UpdatedEntries(p, h, ve, q, n);
    UpdatedDeterminant(p, h, ve, q, n);
    AdjugateUpdated(p, h, ve, q, n, v);
    Quotient(Det(p) * ve, q);
    PenaltyQuotient(Det(p), ve, q, Det(n), AdjugateForm(n, v), AdjugateForm(p, v), Dot(h, v) * Dot(h, v));
    PenaltyIs(n, v);
    PenaltyIs(p, v);
  }

  lemma PenaltyIs(m: Mat, v: Vec)
    requires Det(m) != 0.0
    ensures Penalty(m, v) == AdjugateForm(m, v) / Det(m)
  {
  }

  lemma AdjugateUpdated(p: Mat, h: Vec, ve: real, q: real, n: Mat, v: Vec)
    requires h.b == 1.0
    requires q * n.aa == Det(p) + ve * p.aa
    requires q * n.ab == ve * p.ab - h.a * Det(p)
    requires q * n.bb == h.a * h.a * Det(p) + ve * p.bb
    ensures q * AdjugateForm(n, v) == Det(p) * (Dot(h, v) * Dot(h, v)) + ve * AdjugateForm(p, v)
  {
    hide *;
    var x, y, z := Squares(n, p, h, v);
    UpdatedForm(Det(p), ve, h.a, p.aa, p.ab, p.bb, q, n.aa, n.ab, n.bb, x, y, z,
                AdjugateForm(n, v), AdjugateForm(p, v), Dot(h, v) * Dot(h, v));
  }

  /** The three products all forms of `v` are made of. */
  lemma Squares(n: Mat, p: Mat, h: Vec, v: Vec) returns (x: real, y: real, z: real)
    requires h.b == 1.0
    ensures AdjugateForm(n, v) == n.bb * x - 2.0 * n.ab * y + n.aa * z
    ensures AdjugateForm(p, v) == p.bb * x - 2.0 * p.ab * y + p.aa * z
    ensures Dot(h, v) * Dot(h, v) == h.a * h.a * x + 2.0 * h.a * y + z
  {
    hide Dot;
    x, y, z := v.a * v.a, v.a * v.b, v.b * v.b;
    DotSquared(h, v);
  }

  lemma UpdatedForm(det: real, ve: real, t: real, a: real, b: real, d: real, q: real, na: real, nb: real, nd: real,
                    x: real, y: real, z: real, form': real, form: real, square: real)
    requires q * na == det + ve * a && q * nb == ve * b - t * det && q * nd == t * t * det + ve * d
    requires form' == nd * x - 2.0 * nb * y + na * z && form == d * x - 2.0 * b * y + a * z
    requires square == t * t * x + 2.0 * t * y + z
    ensures q * form' == det * square + ve * form
  {
    FormScaled(q, nd, nb, na, x, y, z);
    FormRegrouped(det, ve, t, d, b, a, x, y, z, q * nd, q * nb, q * na);
  }

  lemma DotSquared(h: Vec, v: Vec)
    requires h.b == 1.0
    ensures Dot(h, v) * Dot(h, v) == h.a * h.a * (v.a * v.a) + 2.0 * h.a * (v.a * v.b) + v.b * v.b
  {
  }

  lemma FormScaled(q: real, f: real, g: real, k: real, x: real, y: real, z: real)
    ensures q * (f * x - 2.0 * g * y + k * z) == (q * f) * x - 2.0 * (q * g) * y + (q * k) * z
  {
  }

  lemma FormRegrouped(det: real, ve: real, t: real, d: real, b: real, a: real,
                      x: real, y: real, z: real, f: real, g: real, k: real)
    requires f == t * t * det + ve * d && g == ve * b - t * det && k == det + ve * a
    ensures f * x - 2.0 * g * y + k * z
         == det * (t * t * x + 2.0 * t * y + z) + ve * (d * x - 2.0 * b * y + a * z)
  {
  }

  lemma PenaltyQuotient(d: real, ve: real, q: real, d': real, a': real, a: real, s: real)
    requires d != 0.0 && ve != 0.0 && q != 0.0
    requires q * d' == d * ve && q * a' == d * s + ve * a
    ensures d' != 0.0
    ensures a' / d' == a / d + s / ve
  {
    assert d * ve != 0.0;
    assert d' != 0.0;
    Quotient(a', d');
    Quotient(a, d);
    Quotient(s, ve);
    var r, x, y := a' / d', a / d, s / ve;
    CombineQuotients(d, ve, q, d', a', a, s, r, x, y);
  }

  lemma Quotient(x: real, y: real)
    requires y != 0.0
    ensures (x / y) * y == x
  {
  }

  lemma CombineQuotients(d: real, ve: real, q: real, d': real, a': real, a: real, s: real, r: real, x: real, y: real)
    requires d * ve != 0.0 && q * d' == d * ve && q * a' == d * s + ve * a
    requires r * d' == a' && x * d == a && y * ve == s
    ensures r == x + y
  {
    assert (d * ve) * r == q * (r * d');
    assert (d * ve) * (x + y) == ve * (x * d) + d * (y * ve);
    Cancel(d * ve, r, x + y);
  }

  /**
   Completing the square: the filter's new state minimises the cost of one bar, and every
   other candidate pays exactly its distance under the new precision matrix.
   */
  lemma UpdateIsOptimal(c: Params, f: Filter, bar: Bar, z: Vec)
    requires Legal(c) && Minors(f.p)
    ensures Det(Predicted(c, f)) > 0.0 && Det(Step(c, f, bar).p) > 0.0
    ensures var g := Step(c, f, bar);
            Cost(c, f, bar, z) == Cost(c, f, bar, g.x) + Penalty(g.p, Minus(z, g.x))
    ensures z != Step(c, f, bar).x ==> Cost(c, f, bar, z) > Cost(c, f, bar, Step(c, f, bar).x)
  {
    hide *;
    PredictedMinors(c, f);
    StepFacts(c, f, bar);
    UpdateShape(c, f, bar);
    var p, h, q, g := Predicted(c, f), Regressor(bar), Variance(c, f, bar), Step(c, f, bar);
    var v, zero := Minus(z, g.x), Vec(0.0, 0.0);
    UpdatedPenalty(p, h, c.ve, q, g.p, v);
    CostSplits(c, f, bar, v);
    CostSplits(c, f, bar, zero);
    PlusMinus(g.x, z);
    PenaltyOfZero(p);
    DotZero(h, c.ve);
    if z != g.x {
      PenaltyPositive(g.p, v);
    }
  }

  lemma UpdateShape(c: Params, f: Filter, bar: Bar)
    requires Legal(c) && Minors(f.p) && Minors(Step(c, f, bar).p) && Minors(Predicted(c, f))
    requires Variance(c, f, bar) > c.ve
    ensures c.ve > 0.0 && c.delta != 1.0
    ensures Predicted(c, f).ab == Predicted(c, f).ba && Regressor(bar).b == 1.0
    ensures Det(Predicted(c, f)) > 0.0 && Det(Step(c, f, bar).p) > 0.0
    ensures var p, h, q := Predicted(c, f), Regressor(bar), Variance(c, f, bar);
            q == Dot(VecMat(h, p), h) + c.ve
            && Step(c, f, bar).p == MinusOuter(p, Scale(1.0 / q, MatVec(p, h)), VecMat(h, p))
  {
    hide Dot, MatVec, VecMat, Det, MinusOuter;
  }

  lemma PlusMinus(x: Vec, z: Vec)
    ensures Plus(x, Minus(z, x)) == z && Plus(x, Vec(0.0, 0.0)) == x
    ensures z != x ==> Minus(z, x) != Vec(0.0, 0.0)
  {
  }

  lemma DotZero(h: Vec, ve: real)
    requires ve != 0.0
    ensures Dot(h, Vec(0.0, 0.0)) * Dot(h, Vec(0.0, 0.0)) / ve == 0.0
  {
    assert Dot(h, Vec(0.0, 0.0)) == 0.0;
  }

  lemma PenaltyOfZero(m: Mat)
    requires Det(m) != 0.0
    ensures Penalty(m, Vec(0.0, 0.0)) == 0.0
  {
  }

  lemma PenaltyPositive(m: Mat, v: Vec)
    requires Minors(m) && v != Vec(0.0, 0.0)
    ensures Penalty(m, v) > 0.0
  {
    var flipped := Vec(-v.b, v.a);
    MinorsGivePositive(m, flipped);
    assert AdjugateForm(m, v) == Dot(flipped, MatVec(m, flipped));
  }

  /** The cost around the new state has no linear term. */
  lemma CostSplits(c: Params, f: Filter, bar: Bar, v: Vec)
    requires Legal(c) && Minors(f.p) && Det(Predicted(c, f)) > 0.0 && Variance(c, f, bar) > 0.0
    ensures Cost(c, f, bar, Plus(Step(c, f, bar).x, v))
         == Penalty(Predicted(c, f), v) + Dot(Regressor(bar), v) * Dot(Regressor(bar), v) / c.ve + Floor(c, f, bar)
  {
    hide Cost, Penalty, AdjugateForm, Predicted, Step, MatVec, Variance, Error, Det, Minors;
    var p, h, q, e, g := Predicted(c, f), Regressor(bar), Variance(c, f, bar), Error(f, bar), Step(c, f, bar);
    var u, s, d, ve, t := MatVec(p, h), e / q, Det(p), c.ve, Dot(h, v);
    var z := Plus(g.x, v);
    StepMovesAlong(c, f, bar);
    assert Minus(z, f.x) == Plus(v, Scale(s, u));
    PredictedSymmetric(c, f);
    AdjugateShift(p, h, u, v, s);
    MissAround(c, f, bar, v);
    CostAlgebra(AdjugateForm(p, v), d, s, t, ve, q);
    CostIs(c, f, bar, z);
    PenaltyIs(p, Plus(v, Scale(s, u)));
    PenaltyIs(p, v);
  }

  /** The least cost a bar allows. */
  function Floor(c: Params, f: Filter, bar: Bar): real
    requires c.delta != 1.0 && Variance(c, f, bar) != 0.0
  {
    var s := Error(f, bar) / Variance(c, f, bar);
    s * s * Variance(c, f, bar)
  }

  lemma PredictedSymmetric(c: Params, f: Filter)
    requires Legal(c) && Minors(f.p)
    ensures Predicted(c, f).ab == Predicted(c, f).ba
  {
  }

  lemma CostIs(c: Params, f: Filter, bar: Bar, z: Vec)
    requires c.delta != 1.0 && c.ve != 0.0 && Det(Predicted(c, f)) != 0.0
    ensures var miss := bar.y - Dot(Regressor(bar), z);
            Cost(c, f, bar, z) == Penalty(Predicted(c, f), Minus(z, f.x)) + miss * miss / c.ve
  {
  }

  /** What is missed at `v` away from the new state, and the variance along the regressor. */
  lemma MissAround(c: Params, f: Filter, bar: Bar, v: Vec)
    requires Legal(c) && Minors(f.p) && Variance(c, f, bar) > 0.0
    ensures bar.y - Dot(Regressor(bar), Plus(Step(c, f, bar).x, v))
         == Error(f, bar) / Variance(c, f, bar) * c.ve - Dot(Regressor(bar), v)
    ensures Dot(Regressor(bar), MatVec(Predicted(c, f), Regressor(bar))) == Variance(c, f, bar) - c.ve
  {
    hide Variance, Step, MatVec, Predicted;
    StepResidual(c, f, bar);
    var g, e, q := Step(c, f, bar), Error(f, bar), Variance(c, f, bar);
    assert e * c.ve / q == e / q * c.ve;
    assert Dot(Regressor(bar), Plus(g.x, v)) == Dot(Regressor(bar), g.x) + Dot(Regressor(bar), v);
    VarianceAlong(c, f, bar);
  }

  lemma VarianceAlong(c: Params, f: Filter, bar: Bar)
    requires Legal(c) && Minors(f.p)
    ensures Dot(Regressor(bar), MatVec(Predicted(c, f), Regressor(bar))) == Variance(c, f, bar) - c.ve
  {
  }

  lemma StepMovesAlong(c: Params, f: Filter, bar: Bar)
    requires c.delta != 1.0 && Variance(c, f, bar) > 0.0
    ensures Step(c, f, bar).x
         == Plus(f.x, Scale(Error(f, bar) / Variance(c, f, bar), MatVec(Predicted(c, f), Regressor(bar))))
  {
    var u, q, e := MatVec(Predicted(c, f), Regressor(bar)), Variance(c, f, bar), Error(f, bar);
    assert e * ((1.0 / q) * u.a) == (e / q) * u.a;
    assert e * ((1.0 / q) * u.b) == (e / q) * u.b;
  }

  lemma CostAlgebra(a: real, d: real, s: real, t: real, ve: real, q: real)
    requires d != 0.0 && ve != 0.0
    ensures (a + 2.0 * s * (d * t) + s * s * (d * (q - ve))) / d + (s * ve - t) * (s * ve - t) / ve
         == a / d + t * t / ve + s * s * q
  {
    assert (a + 2.0 * s * (d * t) + s * s * (d * (q - ve))) / d == a / d + 2.0 * s * t + s * s * (q - ve);
    assert (s * ve - t) * (s * ve - t) == s * s * ve * ve - 2.0 * s * t * ve + t * t;
    assert (s * s * ve * ve - 2.0 * s * t * ve + t * t) / ve == s * s * ve - 2.0 * s * t + t * t / ve;
  }

  // ----- whole runs -----

  /** The filter after a run of bars. */
  function Run(c: Params, bars: seq<Bar>): Filter
    requires c.delta != 1.0
  {
    if bars == [] then Initial() else Step(c, Run(c, bars[..|bars| - 1]), bars[|bars| - 1])
  }

  /**
   Every run from the identity prior: the covariance is symmetric positive definite, every
   bar was counted (so the early return was never taken), and the next bar, whatever its
   prices, has a forecast variance above the noise.
   */
  lemma {:induction false} RunStaysPositiveDefinite(c: Params, bars: seq<Bar>)
    requires Legal(c)
    ensures Minors(Run(c, bars).p) && PositiveDefinite(Run(c, bars).p)
    ensures Run(c, bars).seen == |bars|
    ensures forall bar :: Variance(c, Run(c, bars), bar) > c.ve
    decreases |bars|
  {
    var f := Run(c, bars);
    if bars != [] {
      RunStaysPositiveDefinite(c, bars[..|bars| - 1]);
      StepFacts(c, Run(c, bars[..|bars| - 1]), bars[|bars| - 1]);
    }
    PositiveDefiniteByMinors(f.p);
    forall bar ensures Variance(c, f, bar) > c.ve {
      VarianceAboveNoise(c, f, bar);
    }
  }

  /** The variance a price is forecast with: the covariance and the drift `delta/(1-delta)` along `[price, 1]`. */
  ghost function ForecastVariance(c: Params, p: Mat, price: real): real
    requires c.delta != 1.0
  {
    var w := c.delta / (1.0 - c.delta);
    (p.aa + w) * (price * price) + (p.ab + p.ba) * price + (p.bb + w) + c.ve
  }

  /** The forecast error and variance of a bar, in the prices and the parameters. */
  lemma {:induction false} ForecastIs(c: Params, f: Filter, bar: Bar)
    requires c.delta != 1.0
    ensures Error(f, bar) == bar.y - (bar.price * f.x.a + f.x.b)
    ensures Variance(c, f, bar) == ForecastVariance(c, f.p, bar.price)
  {
    var w := c.delta / (1.0 - c.delta);
    ForecastScalars(f.p.aa + w, f.p.ab, f.p.ba, f.p.bb + w, bar.price);
  }

  lemma ForecastScalars(a: real, b: real, b': real, d: real, t: real)
    ensures (t * a + 1.0 * b') * t + (t * b + 1.0 * d) * 1.0 == a * (t * t) + (b + b') * t + d
  {
  }

  /** The first bar of any run is forecast from the identity prior, widened by the drift. */
  lemma {:induction false} FirstForecast(c: Params, bar: Bar)
    requires c.delta != 1.0
    ensures Error(Run(c, []), bar) == bar.y
    ensures Variance(c, Run(c, []), bar)
         == (1.0 + c.delta / (1.0 - c.delta)) * (bar.price * bar.price + 1.0) + c.ve
  {
    hide Error, Variance;
    ForecastIs(c, Run(c, []), bar);
    FirstScalars(c.delta / (1.0 - c.delta), bar.price * bar.price);
  }

  lemma FirstScalars(w: real, t: real)
    ensures (1.0 + w) * t + (1.0 + w) == (1.0 + w) * (t + 1.0)
  {
  }

  /** After every run, the exact determinant and residual the next bar leaves behind. */
  lemma NextBarIsExact(c: Params, bars: seq<Bar>, bar: Bar)
    requires Legal(c)
    ensures var f, g := Run(c, bars), Run(c, bars + [bar]);
            && Variance(c, f, bar) > c.ve
            && Det(g.p) == Det(Predicted(c, f)) * c.ve / Variance(c, f, bar)
            && Error(g, bar) == Error(f, bar) * c.ve / Variance(c, f, bar)
            && g.seen == f.seen + 1
  {
    hide Error, Variance, Step, Minors, PositiveDefinite, Det, Predicted;
    RunStaysPositiveDefinite(c, bars);
    assert (bars + [bar])[..|bars|] == bars;
    StepFacts(c, Run(c, bars), bar);
  }

  /** Over every run, each update shrinks the residual without changing its sign. */
  lemma ResidualShrinks(c: Params, bars: seq<Bar>, bar: Bar)
    requires Legal(c)
    ensures Variance(c, Run(c, bars), bar) > c.ve
    ensures Error(Run(c, bars + [bar]), bar) == Error(Run(c, bars), bar) * c.ve / Variance(c, Run(c, bars), bar)
    ensures var e, e' := Error(Run(c, bars), bar), Error(Run(c, bars + [bar]), bar);
            && (e > 0.0 ==> 0.0 < e' < e)
            && (e < 0.0 ==> e < e' < 0.0)
            && (e == 0.0 ==> e' == 0.0)
  {
    hide Error, Variance, Step, Minors, PositiveDefinite;
    RunStaysPositiveDefinite(c, bars);
    assert (bars + [bar])[..|bars|] == bars;
    var f := Run(c, bars);
    StepFacts(c, f, bar);
    Shrinks(Error(f, bar), c.ve, Variance(c, f, bar));
  }

  lemma Shrinks(e: real, ve: real, q: real)
    requires 0.0 < ve < q
    ensures e > 0.0 ==> 0.0 < e * ve / q < e
    ensures e < 0.0 ==> e < e * ve / q < 0.0
  {
    var r := e * ve / q;
    assert r * q == e * ve;
    if e > 0.0 {
      var s := Product(e, ve);
      var t := Product(e, q - ve);
      QuotientPositive(q, r);
      assert q * (e - r) == e * (q - ve);
      QuotientPositive(q, e - r);
    } else if e < 0.0 {
      var s := Product(-e, ve);
      var t := Product(-e, q - ve);
      QuotientPositive(q, -r);
      assert q * (r - e) == (-e) * (q - ve);
      QuotientPositive(q, r - e);
    }
  }

  // ----- the strategy object -----

  class Strategy {
    const params: Params
    var x: Vec
    var p: Mat
    var seen: nat
    const w: real

    ghost function State(): Filter
      reads this
    {
      Filter(x, p, seen)
    }

    ghost predicate Valid()
      reads this
    {
      Legal(params) && w == Drift(params) && Minors(p)
    }

    constructor (c: Params)
      requires Legal(c)
      ensures Valid() && params == c && State() == Run(c, [])
      ensures x == Vec(0.0, 0.0) && p == Mat(1.0, 0.0, 0.0, 1.0) && seen == 0
      ensures w * (1.0 - c.delta) == c.delta
    {
      params := c;
      x := Vec(0.0, 0.0);
      p := Mat(1.0, 0.0, 0.0, 1.0);
      w := c.delta / (1.0 - c.delta);
      seen := 0;
    }

    /** The predict/update half of `next`; the forecast error and variance are what it trades on. */
    method Update(bar: Bar, ghost past: seq<Bar>) returns (e: real, q: real)
      requires Valid() && State() == Run(params, past)
      modifies this
      ensures Valid() && State() == Run(params, past + [bar])
      ensures e == Error(Run(params, past), bar) && q == Variance(params, Run(params, past), bar)
      ensures e == bar.y - (bar.price * old(x).a + old(x).b)
      ensures q == ForecastVariance(params, old(p), bar.price)
      ensures q > params.ve && seen == old(seen) + 1
      ensures Error(State(), bar) == e * params.ve / q
      ensures Det(p) == Det(AddDiagonal(old(p), w)) * params.ve / q
    {
      hide *;
      ghost var before := State();
      StateIs();
      RunSnoc(params, past, bar);
      StepFacts(params, before, bar);
      var h := Vec(bar.price, 1.0);
      var pPred := AddDiagonal(p, w);
      e := bar.y - Dot(h, x);
      q := Dot(VecMat(h, pPred), h) + params.ve;
      StepIs(params, before, bar, e, q, pPred);
      ForecastIs(params, before, bar);
      if q <= 0.0 {
        assert false; // the guard never fires
        return;
      }
      var k := Scale(1.0 / q, MatVec(pPred, h));
      x := Plus(x, Scale(e, k));
      p := MinusOuter(pPred, k, VecMat(h, pPred));
      seen := seen + 1;
      StateIs();
    }

    lemma StateIs()
      ensures State() == Filter(x, p, seen)
      ensures Valid() <==> Legal(params) && w == Drift(params) && Minors(p)
      ensures Legal(params) ==> params.delta != 1.0 && params.ve > 0.0
    {
    }
  }

  lemma RunSnoc(c: Params, past: seq<Bar>, bar: Bar)
    requires c.delta != 1.0
    ensures Run(c, past + [bar]) == Step(c, Run(c, past), bar)
  {
    assert (past + [bar])[..|past|] == past;
  }

  lemma StepIs(c: Params, f: Filter, bar: Bar, e: real, q: real, p: Mat)
    requires c.delta != 1.0 && p == AddDiagonal(f.p, Drift(c))
    requires e == bar.y - Dot(Vec(bar.price, 1.0), f.x)
    requires q == Dot(VecMat(Vec(bar.price, 1.0), p), Vec(bar.price, 1.0)) + c.ve
    ensures e == Error(f, bar) && q == Variance(c, f, bar) && p == Predicted(c, f)
    ensures q > 0.0 ==>
              var k := Scale(1.0 / q, MatVec(p, Vec(bar.price, 1.0)));
              Step(c, f, bar)
              == Filter(Plus(f.x, Scale(e, k)), MinusOuter(p, k, VecMat(Vec(bar.price, 1.0), p)), f.seen + 1)
  {
  }
}
