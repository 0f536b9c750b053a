/** Sums over a window of points, and the line that fits them best, over the reals. */
module LeastSquares {
  datatype Point = Point(x: real, y: real)

  function X(p: Point): real { p.x }
  function Y(p: Point): real { p.y }
  function XX(p: Point): real { p.x * p.x }
  function XY(p: Point): real { p.x * p.y }
  function One(p: Point): real { 1.0 }

  ghost function Sum(w: seq<Point>, f: Point -> real): real {
    if w == [] then 0.0 else Sum(w[..|w| - 1], f) + f(w[|w| - 1])
  }

  ghost function Det(w: seq<Point>): real {
    Sum(w, One) * Sum(w, XX) - Sum(w, X) * Sum(w, X)
  }

  /** The slope and the intercept of the regression line; 0 when there is none. */
  ghost function Slope(w: seq<Point>): real {
    if Det(w) == 0.0 then 0.0 else (Sum(w, One) * Sum(w, XY) - Sum(w, X) * Sum(w, Y)) / Det(w)
  }

  ghost function Intercept(w: seq<Point>): real {
    if Det(w) == 0.0 then 0.0 else (Sum(w, XX) * Sum(w, Y) - Sum(w, X) * Sum(w, XY)) / Det(w)
  }

  /** The squared distance of a point from the line a * x + b. */
  function Miss(p: Point, a: real, b: real): real {
    (a * p.x + b - p.y) * (a * p.x + b - p.y)
  }

  ghost function Residual(w: seq<Point>, a: real, b: real): real {
    if w == [] then 0.0 else Residual(w[..|w| - 1], a, b) + Miss(w[|w| - 1], a, b)
  }

  /** The square of u * x + v. */
  function Square(p: Point, u: real, v: real): real {
    (u * p.x + v) * (u * p.x + v)
  }

  ghost function Quad(w: seq<Point>, u: real, v: real): real {
    if w == [] then 0.0 else Quad(w[..|w| - 1], u, v) + Square(w[|w| - 1], u, v)
  }

  ghost predicate SameX(w: seq<Point>) {
    forall i, j :: 0 <= i < |w| && 0 <= j < |w| ==> w[i].x == w[j].x
  }

  // ---- sums -------------------------------------------------------------------------------

  lemma {:induction false} SumFirst(w: seq<Point>, f: Point -> real)
    requires w != []
    ensures Sum(w, f) == f(w[0]) + Sum(w[1..], f)
  {
    if |w| > 1 {
      assert w[..|w| - 1][1..] == w[1..][..|w[1..]| - 1];
      SumFirst(w[..|w| - 1], f);
    }
  }

  lemma SumMore(w: seq<Point>, p: Point, f: Point -> real)
    ensures Sum(w + [p], f) == Sum(w, f) + f(p)
  {
    assert (w + [p])[..|w|] == w;
  }

  lemma {:induction false} Count(w: seq<Point>)
    ensures Sum(w, One) == |w| as real
  {
    if w != [] {
      Count(w[..|w| - 1]);
    }
  }

  // ---- algebra ------------------------------------------------------------------------------

  lemma Sign(a: real, b: real, c: real)
    requires c == a * b
    ensures a > 0.0 && b > 0.0 ==> c > 0.0
    ensures a < 0.0 && b < 0.0 ==> c > 0.0
    ensures a == 0.0 || b == 0.0 ==> c == 0.0
  {
    if a < 0.0 && b < 0.0 {
      assert c == -a * -b;
    }
  }

  lemma Squared(a: real, c: real)
    requires c == a * a
    ensures c >= 0.0
    ensures c == 0.0 <==> a == 0.0
  {
    Sign(a, a, c);
  }

  /** (u x + v)^2, multiplied out. */
  lemma QuadTerm(u: real, v: real, x: real)
    ensures (u * x + v) * (u * x + v) == u * u * (x * x) + 2.0 * (u * v) * x + v * v
  {
    var p := u * x;
    assert (p + v) * (p + v) == p * p + 2.0 * p * v + v * v;
    assert p * p == u * u * (x * x);
    assert p * v == u * v * x;
  }

  /** (a x + b - y)^2, multiplied out. */
  lemma ResidualTerm(a: real, b: real, x: real, y: real)
    ensures (a * x + b - y) * (a * x + b - y)
         == a * a * (x * x) + 2.0 * (a * b) * x + b * b - 2.0 * a * (x * y) - 2.0 * b * y + y * y
  {
    var q := a * x + b;
    assert (q - y) * (q - y) == q * q - 2.0 * q * y + y * y;
    QuadTerm(a, b, x);
    assert q * y == a * (x * y) + b * y;
  }

  /** The sum of the squares of u * x + v, in terms of the sums. */
  ghost function QForm(n: real, sx: real, sxx: real, u: real, v: real): real {
    u * u * sxx + 2.0 * (u * v) * sx + n * (v * v)
  }

  lemma QuadStep(n: real, sx: real, sxx: real, u: real, v: real, p: Point)
    ensures QForm(n, sx, sxx, u, v) + Square(p, u, v) == QForm(n + 1.0, sx + p.x, sxx + p.x * p.x, u, v)
    ensures Square(p, u, v) >= 0.0
  {
    Squared(u * p.x + v, Square(p, u, v));
    QuadTerm(u, v, p.x);
    var (uu, uv, vv, x) := (u * u, 2.0 * (u * v), v * v, p.x);
    assert uu * (sxx + x * x) == uu * sxx + uu * (x * x);
    assert uv * (sx + x) == uv * sx + uv * x;
    assert (n + 1.0) * vv == n * vv + vv;
  }

  lemma {:induction false} QuadSums(w: seq<Point>, u: real, v: real)
    ensures Quad(w, u, v) == QForm(Sum(w, One), Sum(w, X), Sum(w, XX), u, v)
    ensures Quad(w, u, v) >= 0.0
  {
    hide Sum, QForm, Square;
    if w != [] {
      var (c, p) := (w[..|w| - 1], w[|w| - 1]);
      QuadSums(c, u, v);
      QuadStep(Sum(c, One), Sum(c, X), Sum(c, XX), u, v, p);
      LastOf(w);
      assert Sum(w, One) == Sum(c, One) + 1.0;
      assert Sum(w, X) == Sum(c, X) + p.x;
      assert Sum(w, XX) == Sum(c, XX) + p.x * p.x;
      assert QForm(Sum(c, One) + 1.0, Sum(c, X) + p.x, Sum(c, XX) + p.x * p.x, u, v)
          == QForm(Sum(w, One), Sum(w, X), Sum(w, XX), u, v);
    } else {
      QFormZero(u, v);
    }
  }

  lemma QFormZero(u: real, v: real)
    ensures QForm(Sum([], One), Sum([], X), Sum([], XX), u, v) == 0.0
  {
  }

  /** The sums, one point at the end. */
  lemma LastOf(w: seq<Point>)
    requires w != []
    ensures var (c, p) := (w[..|w| - 1], w[|w| - 1]);
            && Sum(w, One) == Sum(c, One) + 1.0 && Sum(w, X) == Sum(c, X) + p.x && Sum(w, Y) == Sum(c, Y) + p.y
            && Sum(w, XX) == Sum(c, XX) + p.x * p.x && Sum(w, XY) == Sum(c, XY) + p.x * p.y
  {
    hide Sum;
    LastSums(w);
    LastProducts(w);
  }

  lemma LastSums(w: seq<Point>)
    requires w != []
    ensures var (c, p) := (w[..|w| - 1], w[|w| - 1]);
            Sum(w, One) == Sum(c, One) + 1.0 && Sum(w, X) == Sum(c, X) + p.x && Sum(w, Y) == Sum(c, Y) + p.y
  {
  }

  lemma LastProducts(w: seq<Point>)
    requires w != []
    ensures var (c, p) := (w[..|w| - 1], w[|w| - 1]);
            Sum(w, XX) == Sum(c, XX) + XX(p) && Sum(w, XY) == Sum(c, XY) + XY(p)
  {
    hide XX, XY;
  }

  ghost function YY(w: seq<Point>): real {
    if w == [] then 0.0 else YY(w[..|w| - 1]) + w[|w| - 1].y * w[|w| - 1].y
  }

  /** The squared residual in terms of the sums. */
  ghost function Form(n: real, sx: real, sy: real, sxx: real, sxy: real, a: real, b: real): real {
    a * a * sxx + 2.0 * (a * b) * sx + n * (b * b) - 2.0 * a * sxy - 2.0 * b * sy
  }

  lemma FormStep(n: real, sx: real, sy: real, sxx: real, sxy: real, a: real, b: real, p: Point)
    ensures Form(n, sx, sy, sxx, sxy, a, b) + Miss(p, a, b)
         == Form(n + 1.0, sx + p.x, sy + p.y, sxx + p.x * p.x, sxy + p.x * p.y, a, b) + p.y * p.y
  {
    var (x, y) := (p.x, p.y);
    ResidualTerm(a, b, x, y);
    var (aa, ab, bb, a2, b2) := (a * a, 2.0 * (a * b), b * b, 2.0 * a, 2.0 * b);
    assert aa * (sxx + x * x) == aa * sxx + aa * (x * x);
    assert ab * (sx + x) == ab * sx + ab * x;
    assert (n + 1.0) * bb == n * bb + bb;
    assert a2 * (sxy + x * y) == a2 * sxy + a2 * (x * y);
    assert b2 * (sy + y) == b2 * sy + b2 * y;
  }

  lemma {:induction false} ResidualSums(w: seq<Point>, a: real, b: real)
    ensures Residual(w, a, b) == Form(Sum(w, One), Sum(w, X), Sum(w, Y), Sum(w, XX), Sum(w, XY), a, b) + YY(w)
  {
    hide Sum, Form, Miss;
    if w != [] {
      var (c, p) := (w[..|w| - 1], w[|w| - 1]);
      ResidualSums(c, a, b);
      FormStep(Sum(c, One), Sum(c, X), Sum(c, Y), Sum(c, XX), Sum(c, XY), a, b, p);
      LastOf(w);
      assert Sum(w, One) == Sum(c, One) + 1.0;
      assert Sum(w, X) == Sum(c, X) + p.x && Sum(w, Y) == Sum(c, Y) + p.y;
      assert Sum(w, XX) == Sum(c, XX) + p.x * p.x && Sum(w, XY) == Sum(c, XY) + p.x * p.y;
      assert Form(Sum(c, One) + 1.0, Sum(c, X) + p.x, Sum(c, Y) + p.y, Sum(c, XX) + p.x * p.x, Sum(c, XY) + p.x * p.y, a, b)
          == Form(Sum(w, One), Sum(w, X), Sum(w, Y), Sum(w, XX), Sum(w, XY), a, b);
    } else {
      FormZero(a, b);
    }
  }

  lemma FormZero(a: real, b: real)
    ensures Form(Sum([], One), Sum([], X), Sum([], Y), Sum([], XX), Sum([], XY), a, b) == 0.0
  {
  }

  // ---- when there is a line --------------------------------------------------------------------

  lemma DetStep(n: real, sx: real, sxx: real, x: real)
    ensures (n + 1.0) * (sxx + x * x) - (sx + x) * (sx + x)
         == n * sxx - sx * sx + QForm(n, sx, sxx, -1.0, x)
  {
    assert (n + 1.0) * (sxx + x * x) == n * sxx + n * (x * x) + sxx + x * x;
    assert (sx + x) * (sx + x) == sx * sx + 2.0 * sx * x + x * x;
  }

  lemma DetMore(w: seq<Point>, p: Point)
    ensures Det(w + [p]) == Det(w) + Quad(w, -1.0, p.x)
  {
    hide Sum, Quad, QForm;
    SumMore(w, p, One);
    SumMore(w, p, XX);
    SumMore(w, p, X);
    QuadSums(w, -1.0, p.x);
    DetStep(Sum(w, One), Sum(w, X), Sum(w, XX), p.x);
  }

  lemma SquareZero(p: Point, x: real)
    ensures Square(p, -1.0, x) >= 0.0
    ensures Square(p, -1.0, x) == 0.0 <==> p.x == x
  {
    var d := x - p.x;
    SameProduct(-1.0 * p.x + x, d);
    Squared(d, Square(p, -1.0, x));
  }

  lemma SameProduct(a: real, b: real)
    requires a == b
    ensures a * a == b * b
  {
  }

  lemma {:induction false} QuadZero(w: seq<Point>, x: real)
    ensures Quad(w, -1.0, x) == 0.0 <==> forall i :: 0 <= i < |w| ==> w[i].x == x
  {
    if w != [] {
      var (c, p) := (w[..|w| - 1], w[|w| - 1]);
      QuadZero(c, x);
      QuadSums(c, -1.0, x);
      SquareZero(p, x);
      assert Quad(w, -1.0, x) == 0.0 <==> Quad(c, -1.0, x) == 0.0 && p.x == x;
      hide Quad, Square;
      assert forall i :: 0 <= i < |w| - 1 ==> w[i] == c[i];
    }
  }

  /** The determinant is never negative, and it is zero exactly when all x are the same. */
  lemma {:induction false} DetZeroIff(w: seq<Point>)
    ensures Det(w) >= 0.0
    ensures Det(w) == 0.0 <==> SameX(w)
  {
    if w != [] {
      var (c, p) := (w[..|w| - 1], w[|w| - 1]);
      assert w == c + [p];
      DetZeroIff(c);
      DetMore(c, p);
      QuadZero(c, p.x);
      QuadSums(c, -1.0, p.x);
      if SameX(w) {
        assert forall i :: 0 <= i < |c| ==> c[i].x == w[i].x == w[|w| - 1].x;
      }
    }
  }

  // ---- the best line ---------------------------------------------------------------------------

  lemma Quotients(d: real, a: real, b: real, p: real, q: real, c: real)
    requires d != 0.0 && a * p + b * q == d * c
    ensures a / d * p + b / d * q == c
  {
    assert a / d * p == a * p / d;
    assert b / d * q == b * q / d;
    assert a * p / d + b * q / d == (a * p + b * q) / d;
    assert d * c / d == c;
  }

  /** The fitted line solves the normal equations. */
  lemma NormalEquations(w: seq<Point>)
    requires Det(w) != 0.0
    ensures Slope(w) * Sum(w, XX) + Intercept(w) * Sum(w, X) == Sum(w, XY)
    ensures Slope(w) * Sum(w, X) + Intercept(w) * Sum(w, One) == Sum(w, Y)
  {
    hide Sum;
    var (n, sx, sy, sxx, sxy) := (Sum(w, One), Sum(w, X), Sum(w, Y), Sum(w, XX), Sum(w, XY));
    var (d, a, b) := (Det(w), n * sxy - sx * sy, sxx * sy - sx * sxy);
    Normal(n, sx, sy, sxx, sxy);
    Quotients(d, a, b, sxx, sx, sxy);
    Quotients(d, a, b, sx, n, sy);
  }

  lemma Normal(n: real, sx: real, sy: real, sxx: real, sxy: real)
    ensures (n * sxy - sx * sy) * sxx + (sxx * sy - sx * sxy) * sx == (n * sxx - sx * sx) * sxy
    ensures (n * sxy - sx * sy) * sx + (sxx * sy - sx * sxy) * n == (n * sxx - sx * sx) * sy
  {
    assert (n * sxy - sx * sy) * sxx == n * sxy * sxx - sx * sy * sxx;
    assert (sxx * sy - sx * sxy) * sx == sxx * sy * sx - sx * sxy * sx;
    assert (n * sxx - sx * sx) * sxy == n * sxx * sxy - sx * sx * sxy;
    assert (n * sxy - sx * sy) * sx == n * sxy * sx - sx * sy * sx;
    assert (sxx * sy - sx * sxy) * n == sxx * sy * n - sx * sxy * n;
    assert (n * sxx - sx * sx) * sy == n * sxx * sy - sx * sx * sy;
  }

  /** How much worse another line is than the fitted one. */
  lemma Excess(w: seq<Point>, a: real, b: real)
    requires Det(w) != 0.0
    ensures Residual(w, a, b) == Residual(w, Slope(w), Intercept(w)) + Quad(w, a - Slope(w), b - Intercept(w))
  {
    hide Sum, Residual, Quad, Slope, Intercept, Form, QForm;
    var (n, sx, sy, sxx, sxy) := (Sum(w, One), Sum(w, X), Sum(w, Y), Sum(w, XX), Sum(w, XY));
    var (s, t) := (Slope(w), Intercept(w));
    NormalEquations(w);
    ResidualSums(w, a, b);
    ResidualSums(w, s, t);
    QuadSums(w, a - s, b - t);
    FormExcess(n, sx, sy, sxx, sxy, s, t, a - s, b - t);
    assert s + (a - s) == a && t + (b - t) == b;
  }

  lemma FormExcess(n: real, sx: real, sy: real, sxx: real, sxy: real, s: real, t: real, u: real, v: real)
    requires s * sxx + t * sx == sxy && s * sx + t * n == sy
    ensures Form(n, sx, sy, sxx, sxy, s + u, t + v)
         == Form(n, sx, sy, sxx, sxy, s, t) + QForm(n, sx, sxx, u, v)
  {
    assert (s + u) * (s + u) * sxx == s * s * sxx + 2.0 * (u * (s * sxx)) + u * u * sxx;
    assert (s + u) * (t + v) * sx == s * t * sx + u * (t * sx) + v * (s * sx) + u * v * sx;
    assert n * ((t + v) * (t + v)) == n * (t * t) + 2.0 * (v * (t * n)) + n * (v * v);
    assert u * sxy == u * (s * sxx) + u * (t * sx);
    assert v * sy == v * (s * sx) + v * (t * n);
  }

  /** The fitted line has the least squared residual of all lines, and is the only one that has. */
  lemma BestLine(w: seq<Point>, a: real, b: real)
    requires !SameX(w)
    ensures Residual(w, Slope(w), Intercept(w)) <= Residual(w, a, b)
    ensures Residual(w, Slope(w), Intercept(w)) == Residual(w, a, b) ==> a == Slope(w) && b == Intercept(w)
  {
    DetZeroIff(w);
    Excess(w, a, b);
    var (u, v) := (a - Slope(w), b - Intercept(w));
    QuadSums(w, u, v);
    Count(w);
    hide Sum, Residual, Quad, Slope, Intercept, QForm;
    if u != 0.0 || v != 0.0 {
      Definite(Sum(w, One), Sum(w, X), Sum(w, XX), u, v);
      if Quad(w, u, v) == 0.0 {
        TimesZero(Sum(w, One), Quad(w, u, v));
      }
    }
  }

  /** The form has no zero but the origin. */
  lemma Definite(n: real, sx: real, sxx: real, u: real, v: real)
    requires n > 0.0 && n * sxx - sx * sx > 0.0
    requires u != 0.0 || v != 0.0
    ensures n * QForm(n, sx, sxx, u, v) > 0.0
  {
    hide QForm;
    Complete(n, sx, sxx, u, v);
    var (q, d) := (n * v + u * sx, n * sxx - sx * sx);
    if u == 0.0 {
      TimesZero(sx, u);
    }
    Sign(n, v, n * v);
    Sign(n, -v, n * -v);
    PositiveSum(q, u, d, q * q, u * u, u * u * d);
  }

  lemma PositiveSum(q: real, u: real, d: real, qq: real, uu: real, ud: real)
    requires d > 0.0 && (q != 0.0 || u != 0.0)
    requires qq == q * q && uu == u * u && ud == uu * d
    ensures qq + ud > 0.0
  {
    Squared(q, qq);
    Squared(u, uu);
    Sign(uu, d, ud);
  }

  lemma TimesZero(a: real, b: real)
    requires b == 0.0
    ensures a * b == 0.0 && b * a == 0.0
  {
  }

  /** Completing the square. */
  lemma Complete(n: real, sx: real, sxx: real, u: real, v: real)
    ensures (n * v + u * sx) * (n * v + u * sx) + u * u * (n * sxx - sx * sx) == n * QForm(n, sx, sxx, u, v)
  {
    var (p, r) := (n * v, u * sx);
    assert (p + r) * (p + r) == p * p + 2.0 * (p * r) + r * r;
    assert r * r == u * u * (sx * sx);
    assert p * r == n * ((u * v) * sx);
    assert p * p == n * (n * (v * v));
    assert u * u * (n * sxx - sx * sx) == n * (u * u * sxx) - u * u * (sx * sx);
  }

  ghost predicate OnLine(w: seq<Point>, a: real, b: real) {
    forall i :: 0 <= i < |w| ==> w[i].y == a * w[i].x + b
  }

  lemma {:induction false} ResidualOnLine(w: seq<Point>, a: real, b: real)
    requires OnLine(w, a, b)
    ensures Residual(w, a, b) == 0.0
  {
    if w != [] {
      ResidualOnLine(w[..|w| - 1], a, b);
      assert w[|w| - 1].y == a * w[|w| - 1].x + b;
    }
  }

  lemma MissNonNegative(p: Point, a: real, b: real)
    ensures Miss(p, a, b) >= 0.0
  {
    Squared(a * p.x + b - p.y, Miss(p, a, b));
  }

  lemma {:induction false} ResidualNonNegative(w: seq<Point>, a: real, b: real)
    ensures Residual(w, a, b) >= 0.0
  {
    if w != [] {
      ResidualNonNegative(w[..|w| - 1], a, b);
      MissNonNegative(w[|w| - 1], a, b);
      hide Miss;
    }
  }

  /** Points on a line give back that line. */
  lemma LineRecovered(w: seq<Point>, a: real, b: real)
    requires !SameX(w) && OnLine(w, a, b)
    ensures Slope(w) == a && Intercept(w) == b
  {
    ResidualOnLine(w, a, b);
    ResidualNonNegative(w, Slope(w), Intercept(w));
    BestLine(w, a, b);
  }

  /** Without two different x there is no line, and slope and intercept are 0. */
  lemma NoLine(w: seq<Point>)
    requires SameX(w)
    ensures Slope(w) == 0.0 && Intercept(w) == 0.0
  {
    hide Sum;
    DetZeroIff(w);
  }
}
