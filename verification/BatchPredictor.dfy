/**
 The latency predictor of rfsn_v10/adaptive_batch.py, in exact arithmetic: a least-squares
 line through the recent observations.
 */
module BatchPredictor {
  import opened Arithmetic

  datatype Observation = Observation(batch: int, latency: real)

  type History = seq<Observation>

  // ---------------------------------------------------------------------------
  // Sums over a history
  // ---------------------------------------------------------------------------

  function Total(f: Observation -> real, h: History): real
    decreases |h|
  {
    if h == [] then 0.0 else f(h[0]) + Total(f, h[1..])
  }

  /** At o, f is g with multiples of p and q added. */
  ghost predicate CombinesAt(f: Observation -> real, g: Observation -> real, p: Observation -> real, a: real,
                             q: Observation -> real, b: real, o: Observation)
  {
    f(o) == g(o) + a * p(o) + b * q(o)
  }

  ghost predicate Combines(f: Observation -> real, g: Observation -> real, p: Observation -> real, a: real,
                           q: Observation -> real, b: real)
  {
    forall o :: CombinesAt(f, g, p, a, q, b, o)
  }

  /** Sums are linear. */
  lemma {:induction false} TotalCombine(f: Observation -> real, g: Observation -> real, p: Observation -> real, a: real,
                                        q: Observation -> real, b: real, h: History)
    requires Combines(f, g, p, a, q, b)
    ensures Total(f, h) == Total(g, h) + a * Total(p, h) + b * Total(q, h)
    decreases |h|
  {
    if h != [] {
      TotalCombine(f, g, p, a, q, b, h[1..]);
      assert CombinesAt(f, g, p, a, q, b, h[0]);
      Distribute(a, p(h[0]), Total(p, h[1..]));
      Distribute(b, q(h[0]), Total(q, h[1..]));
    }
  }

  lemma {:induction false} TotalOne(h: History)
    ensures Total(One, h) == |h| as real
    decreases |h|
  {
    if h != [] {
      TotalOne(h[1..]);
    }
  }

  lemma {:induction false} TotalNonNegative(f: Observation -> real, h: History)
    requires forall o :: f(o) >= 0.0
    ensures Total(f, h) >= 0.0
    ensures Total(f, h) == 0.0 <==> forall i :: 0 <= i < |h| ==> f(h[i]) == 0.0
    decreases |h|
  {
    if h != [] {
      TotalNonNegative(f, h[1..]);
      assert forall i :: 1 <= i < |h| ==> h[i] == h[1..][i - 1];
    }
  }

  function One(o: Observation): real { 1.0 }
  function X(o: Observation): real { o.batch as real }
  function Y(o: Observation): real { o.latency }
  function XY(o: Observation): real { o.batch as real * o.latency }
  function XX(o: Observation): real { o.batch as real * o.batch as real }

  // ---------------------------------------------------------------------------
  // The denominator
  // ---------------------------------------------------------------------------

  function SpreadOf(n: real, sx: real, sxx: real): real {
    n * sxx - sx * sx
  }

  /** n times the sum of squares minus the square of the sum: what the slope is divided by. */
  function Spread(h: History): real {
    SpreadOf(|h| as real, Total(X, h), Total(XX, h))
  }

  function DistanceTo(b: real): Observation -> real {
    o => (X(o) - b) * (X(o) - b)
  }

  lemma RealSquare(x: real)
    ensures x * x >= 0.0
    ensures x != 0.0 ==> x * x > 0.0
  {
    if x > 0.0 {
      RealPositive(x, x);
    } else if x < 0.0 {
      RealPositive(-x, -x);
      assert (-x) * (-x) == x * x;
    }
  }

  lemma SquareOfDifference(r: real, d: real)
    ensures (r - d) * (r - d) == r * r - 2.0 * d * r + d * d
  {
  }

  lemma DistancePoint(x: real, b: real)
    ensures (x - b) * (x - b) == x * x + (-2.0 * b) * x + (b * b) * 1.0
  {
  }

  lemma DistancePoints(b: real)
    ensures Combines(DistanceTo(b), XX, X, -2.0 * b, One, b * b)
  {
    var f, k, l := DistanceTo(b), -2.0 * b, b * b;
    forall o
      ensures CombinesAt(f, XX, X, k, One, l, o)
    {
      DistancePoint(X(o), b);
    }
  }

  /** Squared distances of the batch sizes to b, by the sums. */
  lemma DistanceSums(h: History, b: real)
    ensures Total(DistanceTo(b), h) == Total(XX, h) + (-2.0 * b) * Total(X, h) + (b * b) * Total(One, h)
  {
    DistancePoints(b);
    TotalCombine(DistanceTo(b), XX, X, -2.0 * b, One, b * b, h);
  }

  lemma SpreadAlgebra(n: real, s: real, q: real, b: real)
    ensures (n + 1.0) * (b * b + q) - (b + s) * (b + s) == (n * q - s * s) + (q + (-2.0 * b) * s + (b * b) * n)
  {
    assert (n + 1.0) * (b * b + q) == n * (b * b) + n * q + b * b + q;
    assert (b + s) * (b + s) == b * b + 2.0 * b * s + s * s;
  }

  lemma SpreadOfStep(n: real, s: real, q: real, b: real, n': real, s': real, q': real, d: real)
    requires n' == n + 1.0 && s' == b + s && q' == b * b + q && d == q + (-2.0 * b) * s + (b * b) * n
    ensures SpreadOf(n', s', q') == SpreadOf(n, s, q) + d
  {
    SpreadAlgebra(n, s, q, b);
  }

  lemma SumsOf(h: History, t: History)
    requires h != [] && t == h[1..]
    ensures Total(X, h) == X(h[0]) + Total(X, t) && Total(XX, h) == XX(h[0]) + Total(XX, t)
    ensures |h| as real == |t| as real + 1.0
  {
  }

  lemma SquareAt(o: Observation, b: real)
    requires b == X(o)
    ensures XX(o) == b * b
  {
  }

  lemma SpreadStep(h: History)
    requires h != []
    ensures Spread(h) == Spread(h[1..]) + Total(DistanceTo(X(h[0])), h[1..])
  {
    var t, b := h[1..], X(h[0]);
    DistanceSums(t, b);
    TotalOne(t);
    SumsOf(h, t);
    SquareAt(h[0], b);
    SpreadOfStep(|t| as real, Total(X, t), Total(XX, t), b, |h| as real, Total(X, h), Total(XX, h), Total(DistanceTo(b), t));
  }

  ghost predicate AllEqual(h: History) {
    forall i, j :: 0 <= i < |h| && 0 <= j < |h| ==> h[i].batch == h[j].batch
  }

  lemma DistancesSign(h: History, b: int)
    ensures Total(DistanceTo(b as real), h) >= 0.0
    ensures Total(DistanceTo(b as real), h) == 0.0 <==> forall i :: 0 <= i < |h| ==> h[i].batch == b
  {
    forall o: Observation
      ensures DistanceTo(b as real)(o) >= 0.0 && (DistanceTo(b as real)(o) == 0.0 <==> o.batch == b)
    {
      RealSquare(X(o) - b as real);
    }
    TotalNonNegative(DistanceTo(b as real), h);
  }

  /** The denominator is never negative, and zero exactly when all batch sizes are equal. */
  lemma {:induction false} SpreadSign(h: History)
    ensures Spread(h) >= 0.0
    ensures Spread(h) == 0.0 <==> AllEqual(h)
    decreases |h|
  {
    if h != [] {
      var t := h[1..];
      SpreadStep(h);
      SpreadSign(t);
      DistancesSign(t, h[0].batch);
      assert forall i :: 1 <= i < |h| ==> h[i] == t[i - 1];
      assert forall i :: 0 <= i < |t| ==> t[i] == h[i + 1];
    }
  }

  // ---------------------------------------------------------------------------
  // The least-squares line
  // ---------------------------------------------------------------------------

  function SlopeOf(n: real, sx: real, sy: real, sxy: real, sxx: real): real
    requires SpreadOf(n, sx, sxx) != 0.0
  {
    (n * sxy - sx * sy) / SpreadOf(n, sx, sxx)
  }

  function InterceptOf(n: real, sx: real, sy: real, slope: real): real
    requires n != 0.0
  {
    (sy - slope * sx) / n
  }

  function Slope(h: History): real
    requires Spread(h) != 0.0
  {
    SlopeOf(|h| as real, Total(X, h), Total(Y, h), Total(XY, h), Total(XX, h))
  }

  function Intercept(h: History): real
    requires h != [] && Spread(h) != 0.0
  {
    InterceptOf(|h| as real, Total(X, h), Total(Y, h), Slope(h))
  }

  /** The error of the line y = m * x + c at an observation. */
  function Residual(m: real, c: real): Observation -> real {
    o => Y(o) - m * X(o) - c
  }

  function ResidualX(m: real, c: real): Observation -> real {
    o => Residual(m, c)(o) * X(o)
  }

  function ResidualSquared(m: real, c: real): Observation -> real {
    o => Residual(m, c)(o) * Residual(m, c)(o)
  }

  function SquaredError(h: History, m: real, c: real): real {
    Total(ResidualSquared(m, c), h)
  }

  /** By how much a change of the line moves its value, squared. */
  function Tilt(dm: real, dc: real): Observation -> real {
    o => (dm * X(o) + dc) * (dm * X(o) + dc)
  }

  lemma {:induction false} TotalAdd(f: Observation -> real, g: Observation -> real, p: Observation -> real, h: History)
    requires forall o :: f(o) == g(o) + p(o)
    ensures Total(f, h) == Total(g, h) + Total(p, h)
    decreases |h|
  {
    if h != [] {
      TotalAdd(f, g, p, h[1..]);
    }
  }

  lemma TiltAlgebra(y: real, m: real, c: real, x: real, dm: real, dc: real)
    ensures var r := y - m * x - c;
            (y - (m + dm) * x - (c + dc)) * (y - (m + dm) * x - (c + dc)) ==
            (r * r + (dm * x + dc) * (dm * x + dc)) + (-2.0 * dm) * (r * x) + (-2.0 * dc) * r
  {
    var r := y - m * x - c;
    assert (m + dm) * x == m * x + dm * x;
    assert y - (m + dm) * x - (c + dc) == r - (dm * x + dc);
    var d := dm * x + dc;
    SquareOfDifference(r, d);
    assert 2.0 * d * r == 2.0 * dm * (r * x) + 2.0 * dc * r;
  }

  function ErrorPlusTilt(m: real, c: real, dm: real, dc: real): Observation -> real {
    o => ResidualSquared(m, c)(o) + Tilt(dm, dc)(o)
  }

  lemma TiltPoint(m: real, c: real, dm: real, dc: real, o: Observation)
    ensures CombinesAt(ResidualSquared(m + dm, c + dc), ErrorPlusTilt(m, c, dm, dc), ResidualX(m, c), -2.0 * dm,
                       Residual(m, c), -2.0 * dc, o)
  {
    TiltAlgebra(Y(o), m, c, X(o), dm, dc);
    var r := Residual(m, c)(o);
    assert ResidualSquared(m, c)(o) == r * r && ResidualX(m, c)(o) == r * X(o);
    assert Residual(m + dm, c + dc)(o) == Y(o) - (m + dm) * X(o) - (c + dc);
  }

  lemma TiltPoints(m: real, c: real, dm: real, dc: real)
    ensures Combines(ResidualSquared(m + dm, c + dc), ErrorPlusTilt(m, c, dm, dc), ResidualX(m, c), -2.0 * dm,
                     Residual(m, c), -2.0 * dc)
  {
    var f, g, p, q := ResidualSquared(m + dm, c + dc), ErrorPlusTilt(m, c, dm, dc), ResidualX(m, c), Residual(m, c);
    var k, l := -2.0 * dm, -2.0 * dc;
    forall o
      ensures CombinesAt(f, g, p, k, q, l, o)
    {
      TiltPoint(m, c, dm, dc, o);
    }
  }

  lemma TiltedCombine(h: History, m: real, c: real, dm: real, dc: real)
    ensures SquaredError(h, m + dm, c + dc) ==
            Total(ErrorPlusTilt(m, c, dm, dc), h)
            + (-2.0 * dm) * Total(ResidualX(m, c), h) + (-2.0 * dc) * Total(Residual(m, c), h)
  {
    TiltPoints(m, c, dm, dc);
    TotalCombine(ResidualSquared(m + dm, c + dc), ErrorPlusTilt(m, c, dm, dc), ResidualX(m, c), -2.0 * dm, Residual(m, c), -2.0 * dc, h);
  }

  /** The error of any line in terms of the error of another. */
  lemma ErrorOfTilted(h: History, m: real, c: real, dm: real, dc: real)
    ensures SquaredError(h, m + dm, c + dc) ==
            SquaredError(h, m, c) + Total(Tilt(dm, dc), h)
            + (-2.0 * dm) * Total(ResidualX(m, c), h) + (-2.0 * dc) * Total(Residual(m, c), h)
  {
    TiltedCombine(h, m, c, dm, dc);
    TotalAdd(ErrorPlusTilt(m, c, dm, dc), ResidualSquared(m, c), Tilt(dm, dc), h);
  }

  lemma ResidualPoint(r: real, y: real, m: real, x: real, c: real)
    requires r == y - m * x - c
    ensures r == y + (-m) * x + (-c) * 1.0
    ensures r * x == x * y + (-m) * (x * x) + (-c) * x
  {
    assert (-m) * x == -(m * x);
    assert (y - m * x - c) * x == x * y - m * (x * x) - c * x;
  }

  lemma ResidualPoints(m: real, c: real)
    ensures Combines(Residual(m, c), Y, X, -m, One, -c)
  {
    var f, k, l := Residual(m, c), -m, -c;
    forall o
      ensures CombinesAt(f, Y, X, k, One, l, o)
    {
      ResidualPoint(f(o), Y(o), m, X(o), c);
    }
  }

  lemma ResidualXPoints(m: real, c: real)
    ensures Combines(ResidualX(m, c), XY, XX, -m, X, -c)
  {
    var f, k, l := ResidualX(m, c), -m, -c;
    forall o
      ensures CombinesAt(f, XY, XX, k, X, l, o)
    {
      var r := Residual(m, c)(o);
      ResidualPoint(r, Y(o), m, X(o), c);
      assert f(o) == r * X(o);
    }
  }

  lemma ResidualSum(h: History, m: real, c: real)
    ensures Total(Residual(m, c), h) == Total(Y, h) + (-m) * Total(X, h) + (-c) * Total(One, h)
  {
    ResidualPoints(m, c);
    TotalCombine(Residual(m, c), Y, X, -m, One, -c, h);
  }

  lemma ResidualXSum(h: History, m: real, c: real)
    ensures Total(ResidualX(m, c), h) == Total(XY, h) + (-m) * Total(XX, h) + (-c) * Total(X, h)
  {
    ResidualXPoints(m, c);
    TotalCombine(ResidualX(m, c), XY, XX, -m, X, -c, h);
  }

  lemma SolveNormal(n: real, sx: real, sy: real, sxy: real, sxx: real, m: real, c: real)
    requires n != 0.0 && SpreadOf(n, sx, sxx) != 0.0
    requires m == SlopeOf(n, sx, sy, sxy, sxx) && c == InterceptOf(n, sx, sy, m)
    ensures sy + (-m) * sx + (-c) * n == 0.0
    ensures sxy + (-m) * sxx + (-c) * sx == 0.0
  {
    DivideBack(n * sxy - sx * sy, n * sxx - sx * sx);
    DivideBack(sy - m * sx, n);
    NormalAlgebra(n, sx, sy, sxy, sxx, m, c);
  }

  lemma DivideBack(x: real, z: real)
    requires z != 0.0
    ensures (x / z) * z == x
  {
  }

  lemma NormalAlgebra(n: real, sx: real, sy: real, sxy: real, sxx: real, m: real, c: real)
    requires n != 0.0 && m * (n * sxx - sx * sx) == n * sxy - sx * sy && c * n == sy - m * sx
    ensures sxy + (-m) * sxx + (-c) * sx == 0.0
  {
    var r := sxy - m * sxx - c * sx;
    assert n * r == n * sxy - n * (m * sxx) - (c * n) * sx;
    assert (c * n) * sx == sy * sx - m * sx * sx;
    assert m * (n * sxx - sx * sx) == n * (m * sxx) - m * sx * sx;
    assert n * r == 0.0;
    assert r == 0.0;
  }

  lemma LineSolves(h: History)
    requires h != [] && Spread(h) != 0.0
    ensures Total(Y, h) + (-Slope(h)) * Total(X, h) + (-Intercept(h)) * |h| as real == 0.0
    ensures Total(XY, h) + (-Slope(h)) * Total(XX, h) + (-Intercept(h)) * Total(X, h) == 0.0
  {
    SolveNormal(|h| as real, Total(X, h), Total(Y, h), Total(XY, h), Total(XX, h), Slope(h), Intercept(h));
  }

  /** The two formulas solve the normal equations: the residuals sum to zero, weighted by the
      batch sizes or not. */
  lemma NormalEquations(h: History)
    requires h != [] && Spread(h) != 0.0
    ensures Total(Residual(Slope(h), Intercept(h)), h) == 0.0
    ensures Total(ResidualX(Slope(h), Intercept(h)), h) == 0.0
  {
    LineSolves(h);
    ResidualsVanish(h, Slope(h), Intercept(h));
  }

  lemma ResidualsVanish(h: History, m: real, c: real)
    requires Total(Y, h) + (-m) * Total(X, h) + (-c) * |h| as real == 0.0
    requires Total(XY, h) + (-m) * Total(XX, h) + (-c) * Total(X, h) == 0.0
    ensures Total(Residual(m, c), h) == 0.0
    ensures Total(ResidualX(m, c), h) == 0.0
  {
    TotalOne(h);
    ResidualSum(h, m, c);
    ResidualXSum(h, m, c);
  }

  lemma TiltPointsNonNegative(dm: real, dc: real)
    ensures forall o: Observation :: Tilt(dm, dc)(o) >= 0.0
  {
    forall o: Observation
      ensures Tilt(dm, dc)(o) >= 0.0
    {
      RealSquare(dm * X(o) + dc);
    }
  }

  lemma TiltNonNegative(h: History, dm: real, dc: real)
    ensures Total(Tilt(dm, dc), h) >= 0.0
  {
    TiltPointsNonNegative(dm, dc);
    TotalNonNegative(Tilt(dm, dc), h);
  }

  lemma NormalIsOptimal(h: History, m: real, c: real, dm: real, dc: real)
    requires Total(Residual(m, c), h) == 0.0 && Total(ResidualX(m, c), h) == 0.0
    ensures SquaredError(h, m, c) <= SquaredError(h, m + dm, c + dc)
  {
    ErrorOfTilted(h, m, c, dm, dc);
    TiltNonNegative(h, dm, dc);
  }

  /** Slope and intercept minimise the squared error over all lines. */
  lemma LeastSquares(h: History, slope: real, intercept: real)
    requires h != [] && Spread(h) != 0.0
    ensures SquaredError(h, Slope(h), Intercept(h)) <= SquaredError(h, slope, intercept)
  {
    var m, c := Slope(h), Intercept(h);
    NormalEquations(h);
    NormalIsOptimal(h, m, c, slope - m, intercept - c);
    assert m + (slope - m) == slope && c + (intercept - c) == intercept;
  }
}
