/**
 The ellipse clamp of a look bend. Square roots are taken by a parameter that is one; the bearing of a point of the
 plane is its cosine and sine, which is all the clamp uses of the angle.
 */
module LookClamp {
  import opened Wrappers
  import opened Matrix
  import opened Reals

  datatype LookAtLimit = LookAtLimit(xLimit: real, yLimit: real, scale: real)

  const LIMIT_GUARD: real := 0.001
  const BEHIND_PROJECTION_FACTOR: real := 100.0
  const BASIS_UP_HINT := Vec3(0.0, 1.0, 0.0)

  type Root = real -> real

  ghost predicate IsSqrt(sqrt: Root) {
    forall x: real :: x >= 0.0 ==> sqrt(x) >= 0.0 && sqrt(x) * sqrt(x) == x
  }

  function Dot3(a: Vec3, b: Vec3): real { a.x * b.x + a.y * b.y + a.z * b.z }

  function Cross(a: Vec3, b: Vec3): Vec3 {
    Vec3(a.y * b.z - a.z * b.y, a.z * b.x - a.x * b.z, a.x * b.y - a.y * b.x)
  }

  function Scaled(v: Vec3, k: real): Vec3 { Vec3(v.x * k, v.y * k, v.z * k) }

  lemma DotPositive(v: Vec3)
    requires v != ZERO
    ensures Dot3(v, v) > 0.0
  {
    assert v == Vec3(v.x, v.y, v.z);
    SumPositive(v.x, v.y, v.z, v.x * v.x, v.y * v.y, v.z * v.z);
  }

  lemma SumPositive(x: real, y: real, z: real, xx: real, yy: real, zz: real)
    requires xx == x * x && yy == y * y && zz == z * z && (x != 0.0 || y != 0.0 || z != 0.0)
    ensures xx + yy + zz > 0.0
  {
    SquareNotNegative(x);
    SquareNotNegative(y);
    SquareNotNegative(z);
    if x != 0.0 {
      SquarePositive(x, xx);
    } else if y != 0.0 {
      SquarePositive(y, yy);
    } else {
      SquarePositive(z, zz);
    }
  }

  lemma DotZero()
    ensures Dot3(ZERO, ZERO) == 0.0
  {
  }

  lemma Length2NotNegative(v: Vec3)
    ensures Dot3(v, v) >= 0.0
    ensures Dot3(v, v) == 0.0 <==> v == ZERO
  {
    hide Dot3;
    DotZero();
    if v != ZERO {
      DotPositive(v);
    }
  }

  /** No direction for the zero vector. */
  function TryNormalize(v: Vec3, sqrt: Root): Option<Vec3> {
    var length := sqrt(Dot3(v, v));
    if length == 0.0 then None else Some(Scaled(v, 1.0 / length))
  }

  lemma DotSymmetric(a: Vec3, b: Vec3)
    ensures Dot3(a, b) == Dot3(b, a)
  {
  }

  lemma ScaledDot(a: Vec3, b: Vec3, k: real)
    ensures Dot3(Scaled(a, k), b) == Dot3(a, b) * k
  {
  }

  lemma DotScaled(a: Vec3, b: Vec3, k: real)
    ensures Dot3(Scaled(a, k), b) == Dot3(a, b) * k
    ensures Dot3(b, Scaled(a, k)) == Dot3(a, b) * k
  {
    hide Dot3, Scaled;
    ScaledDot(a, b, k);
    DotSymmetric(b, Scaled(a, k));
  }

  lemma NormalizedIsUnit(v: Vec3, sqrt: Root)
    requires IsSqrt(sqrt)
    ensures TryNormalize(v, sqrt).None? <==> v == ZERO
    ensures v != ZERO ==> sqrt(Dot3(v, v)) > 0.0
    ensures v != ZERO ==> var n := TryNormalize(v, sqrt).value; Dot3(n, n) == 1.0
  {
    hide Dot3, Scaled;
    Length2NotNegative(v);
    var length := sqrt(Dot3(v, v));
    if v != ZERO {
      var k := 1.0 / length;
      DotScaled(v, Scaled(v, k), k);
      DotScaled(v, v, k);
      InverseSquare(length, Dot3(v, v));
    } else {
      SquareNotNegative(length);
    }
  }

  lemma InverseSquare(length: real, square: real)
    requires length * length == square && length > 0.0
    ensures square * (1.0 / length) * (1.0 / length) == 1.0
  {
    var k := 1.0 / length;
    assert length * k == 1.0;
    assert square * k * k == (length * k) * (length * k);
  }

  datatype LookAtBasis = LookAtBasis(side: Vec3, up: Vec3, d: Vec3)

  function NewBasis(at: Vec3, sqrt: Root): Option<LookAtBasis> {
    match TryNormalize(at, sqrt)
    case None => None
    case Some(d) =>
      match TryNormalize(Cross(BASIS_UP_HINT, d), sqrt)
      case None => None
      case Some(side) => Some(LookAtBasis(side, Cross(d, side), d))
  }

  function Project(b: LookAtBasis, v: Vec3): Vec3 { Vec3(Dot3(b.side, v), Dot3(b.up, v), Dot3(b.d, v)) }

  function Unproject(b: LookAtBasis, v: Vec3): Vec3 {
    Add(Add(Scaled(b.side, v.x), Scaled(b.up, v.y)), Scaled(b.d, v.z))
  }

  predicate Orthonormal(b: LookAtBasis) {
    && Dot3(b.side, b.side) == 1.0 && Dot3(b.up, b.up) == 1.0 && Dot3(b.d, b.d) == 1.0
    && Dot3(b.side, b.up) == 0.0 && Dot3(b.side, b.d) == 0.0 && Dot3(b.up, b.d) == 0.0
  }

  lemma CrossDots(a: Vec3, b: Vec3)
    ensures Dot3(Cross(a, b), a) == 0.0 && Dot3(Cross(a, b), b) == 0.0
  {
  }

  lemma CrossLength(a: Vec3, b: Vec3)
    ensures Dot3(Cross(a, b), Cross(a, b)) == Dot3(a, a) * Dot3(b, b) - Dot3(a, b) * Dot3(a, b)
  {
  }

  lemma AcrossIsZero(v: Vec3, k: real)
    requires k != 0.0
    ensures Cross(BASIS_UP_HINT, Scaled(v, k)) == ZERO <==> v.x == 0.0 && v.z == 0.0
  {
    if v.x != 0.0 && v.x * k == 0.0 {
      MulCancel(v.x, 0.0, k);
    }
    if v.z != 0.0 && v.z * k == 0.0 {
      MulCancel(v.z, 0.0, k);
    }
  }

  lemma BasisExistsWhen(at: Vec3, sqrt: Root)
    requires IsSqrt(sqrt)
    ensures NewBasis(at, sqrt).Some? <==> at.x != 0.0 || at.z != 0.0
  {
    hide Dot3, Cross, Scaled;
    NormalizedIsUnit(at, sqrt);
    if at != ZERO {
      var d := TryNormalize(at, sqrt).value;
      AcrossIsZero(at, 1.0 / sqrt(Dot3(at, at)));
      NormalizedIsUnit(Cross(BASIS_UP_HINT, d), sqrt);
    }
  }

  /** A basis exists exactly for axes off the up hint, and is orthonormal. */
  lemma BasisIsOrthonormal(at: Vec3, sqrt: Root)
    requires IsSqrt(sqrt)
    ensures var b := NewBasis(at, sqrt);
            && (b.Some? <==> at.x != 0.0 || at.z != 0.0)
            && (b.Some? ==> Orthonormal(b.value))
  {
    BasisExistsWhen(at, sqrt);
    hide Dot3, Cross, Scaled;
    NormalizedIsUnit(at, sqrt);
    if NewBasis(at, sqrt).Some? {
      var d := TryNormalize(at, sqrt).value;
      var across := Cross(BASIS_UP_HINT, d);
      NormalizedIsUnit(across, sqrt);
      var side := TryNormalize(across, sqrt).value;
      CrossDots(BASIS_UP_HINT, d);
      DotScaled(across, d, 1.0 / sqrt(Dot3(across, across)));
      CrossDots(d, side);
      CrossLength(d, side);
      DotSymmetric(side, d);
      DotSymmetric(side, Cross(d, side));
    }
  }

  lemma DotSpread(a: Vec3, p: Vec3, q: Vec3, r: Vec3, x: real, y: real, z: real)
    ensures Dot3(a, Add(Add(Scaled(p, x), Scaled(q, y)), Scaled(r, z)))
            == Dot3(a, p) * x + Dot3(a, q) * y + Dot3(a, r) * z
  {
  }

  /** Going out of an orthonormal basis and back in changes nothing. */
  lemma ProjectUnproject(b: LookAtBasis, v: Vec3)
    requires Orthonormal(b)
    ensures Project(b, Unproject(b, v)) == v
    ensures Dot3(Unproject(b, v), Unproject(b, v)) == Dot3(v, v)
  {
    hide Add, Scaled;
    var out := Unproject(b, v);
    assert Dot3(b.side, out) == v.x && Dot3(b.up, out) == v.y && Dot3(b.d, out) == v.z by {
      hide Dot3;
      DotSpread(b.side, b.side, b.up, b.d, v.x, v.y, v.z);
      DotSpread(b.up, b.side, b.up, b.d, v.x, v.y, v.z);
      DotSpread(b.d, b.side, b.up, b.d, v.x, v.y, v.z);
      DotSymmetric(b.side, b.up);
      DotSymmetric(b.side, b.d);
      DotSymmetric(b.up, b.d);
    }
    assert Dot3(out, out) == Dot3(v, v) by {
      DotSpread(out, b.side, b.up, b.d, v.x, v.y, v.z);
      DotSymmetric(out, b.side);
      DotSymmetric(out, b.up);
      DotSymmetric(out, b.d);
    }
  }

  // ---- the clamp --------------------------------------------------------------------------------------------------

  function Guarded(limit: real): (guarded: real)
    ensures guarded != 0.0
  {
    if limit == 0.0 then LIMIT_GUARD else limit
  }

  function Wider(x: real, y: real): real { if x > y then x else y }

  lemma RatioNotZero(x: real, y: real)
    requires x != 0.0 && y != 0.0
    ensures x / y != 0.0
  {
    DivMul(x, y);
  }

  /** The narrower semi-axis stretched up to the wider one, which turns the ellipse into a circle. */
  function Stretch(v: Vec3, x: real, y: real): Vec3
    requires x != 0.0 && y != 0.0
  {
    if x > y then v.(y := v.y * (x / y)) else v.(x := v.x * (y / x))
  }

  function Unstretch(v: Vec3, x: real, y: real): Vec3
    requires x != 0.0 && y != 0.0
  {
    RatioNotZero(x, y);
    RatioNotZero(y, x);
    if x > y then v.(y := v.y / (x / y)) else v.(x := v.x / (y / x))
  }

  datatype Point = Point(u: real, w: real)

  function Square(p: Point): real { p.u * p.u + p.w * p.w }

  /** Where a point falls in the plane: divided by its depth ahead, driven outward at or behind it. */
  function InPlane(v: Vec3, scale: real): Point {
    if v.z > 0.0 then
      var perDepth := scale / v.z;
      Point(v.x * perDepth, v.y * perDepth)
    else
      var push := scale * BEHIND_PROJECTION_FACTOR;
      Point(v.x * push, v.y * push)
  }

  /** Cosine and sine of the bearing `atan2(w, u)`. */
  function Bearing(at: Point, sqrt: Root): Point {
    var h := sqrt(Square(at));
    if h == 0.0 then Point(1.0, 0.0) else Point(at.u / h, at.w / h)
  }

  /** The rim of the circle at a bearing, the stretch undone, at the record's depth. */
  function Rim(b: Point, x: real, y: real, scale: real): Vec3
    requires x != 0.0 && y != 0.0
  {
    Unstretch(Vec3(b.u * Wider(x, y), b.w * Wider(x, y), scale), x, y)
  }

  function Measured(basis: LookAtBasis, look: Vec3, x: real, y: real, scale: real): Point
    requires x != 0.0 && y != 0.0
  {
    InPlane(Stretch(Scaled(Project(basis, look), 2.0), x, y), scale)
  }

  function ClampIn(basis: LookAtBasis, look: Vec3, x: real, y: real, scale: real, sqrt: Root): Option<(Vec3, bool)>
    requires x != 0.0 && y != 0.0
  {
    var at := Measured(basis, look, x, y, scale);
    if sqrt(Square(at)) <= Wider(x, y) then Some((look, false))
    else
      match TryNormalize(Unproject(basis, Rim(Bearing(at, sqrt), x, y, scale)), sqrt)
      case None => None
      case Some(out) => Some((out, true))
  }

  /** The bounded direction and whether the rim was reached. */
  function ClampBendAxis(forward: Vec3, look: Vec3, r: LookAtLimit, sqrt: Root): Option<(Vec3, bool)> {
    match NewBasis(forward, sqrt)
    case None => None
    case Some(basis) => ClampIn(basis, look, Guarded(r.xLimit), Guarded(r.yLimit), r.scale, sqrt)
  }

  // ---- rims and circles -------------------------------------------------------------------------------------------

  /** Scaling a point of the plane scales its square twice over. */
  lemma CircleRadius(p: Point, k: real, q: Point)
    requires q.u == p.u * k && q.w == p.w * k
    ensures Square(q) == Square(p) * (k * k)
  {
    MulSame(q.u, p.u * k, q.u, p.u * k);
    MulSame(q.w, p.w * k, q.w, p.w * k);
    SumOfSquares(p.u, p.w, k);
    MulSame(Square(p), p.u * p.u + p.w * p.w, k * k, k * k);
  }

  lemma SumOfSquares(c: real, s: real, k: real)
    ensures (c * k) * (c * k) + (s * k) * (s * k) == (c * c + s * s) * (k * k)
  {
  }

  lemma SquareNonNegative(p: Point)
    ensures Square(p) >= 0.0
  {
    SquareNotNegative(p.u);
    SquareNotNegative(p.w);
  }

  lemma EastOnCircle()
    ensures Square(Point(1.0, 0.0)) == 1.0
  {
  }

  /** A bearing is a point of the unit circle. */
  lemma BearingOnCircle(at: Point, sqrt: Root)
    requires IsSqrt(sqrt)
    ensures Square(Bearing(at, sqrt)) == 1.0
  {
    hide Square;
    SquareNonNegative(at);
    var h := sqrt(Square(at));
    if h != 0.0 {
      assert h * h == Square(at);
      SquarePositive(h, Square(at));
      QuotientsOnCircle(Bearing(at, sqrt), h, Square(at), at);
    } else {
      EastOnCircle();
    }
  }

  lemma QuotientsOnCircle(b: Point, h: real, square: real, at: Point)
    requires h != 0.0 && h * h == square && square == Square(at) && square > 0.0 && b == Point(at.u / h, at.w / h)
    ensures Square(b) == 1.0
  {
    hide Square;
    DivMul(at.u, h);
    DivMul(at.w, h);
    CircleRadius(b, h, at);
    MulSame(Square(b), Square(b), h * h, square);
    MulCancel(Square(b), 1.0, square);
  }

  /** The rim point of bearing `b` on the authored ellipse. */
  function OnEllipse(b: Point, x: real, y: real, scale: real): Vec3 { Vec3(b.u * x, b.w * y, scale) }

  lemma WideRim(b: Point, x: real, y: real, scale: real)
    requires x != 0.0 && y != 0.0 && x > y
    ensures Rim(b, x, y, scale) == OnEllipse(b, x, y, scale)
  {
    UndoRatio(b.w, x, y);
  }

  lemma TallRim(b: Point, x: real, y: real, scale: real)
    requires x != 0.0 && y != 0.0 && x <= y
    ensures Rim(b, x, y, scale) == OnEllipse(b, x, y, scale)
  {
    UndoRatio(b.u, y, x);
  }

  /** Undoing the stretch puts the rim on the authored ellipse. */
  lemma RimShape(b: Point, x: real, y: real, scale: real)
    requires x != 0.0 && y != 0.0
    ensures Rim(b, x, y, scale) == OnEllipse(b, x, y, scale)
  {
    hide Rim, OnEllipse;
    if x > y {
      WideRim(b, x, y, scale);
    } else {
      TallRim(b, x, y, scale);
    }
  }

  lemma UndoRatio(s: real, x: real, y: real)
    requires x != 0.0 && y != 0.0
    ensures x / y != 0.0 && s * x / (x / y) == s * y
  {
    var ratio := x / y;
    DivMul(x, y);
    assert ratio != 0.0;
    DivMul(s * x, ratio);
    MulSame(s, s, ratio * y, x);
    MulCancel(s * x / ratio, s * y, ratio);
  }

  /** A rim point, shrunk by any positive factor, measures back to its own bearing on the circle. */
  lemma RimMeasures(b: Point, k: real, x: real, y: real, z: real)
    requires k > 0.0 && z > 0.0 && x != 0.0 && y != 0.0
    ensures InPlane(Stretch(Scaled(Scaled(OnEllipse(b, x, y, z), k), 2.0), x, y), z)
            == Point(b.u * Wider(x, y), b.w * Wider(x, y))
  {
    var v := Scaled(Scaled(OnEllipse(b, x, y, z), k), 2.0);
    ShrunkRim(b, k, x, y, z);
    hide OnEllipse, Scaled;
    if x > y {
      WideMeasures(b.u, b.w, k, x, y, z, v);
    } else {
      TallMeasures(b.u, b.w, k, x, y, z, v);
    }
  }

  lemma ShrunkRim(b: Point, k: real, x: real, y: real, z: real)
    ensures var v := Scaled(Scaled(OnEllipse(b, x, y, z), k), 2.0);
            v.x == b.u * x * k * 2.0 && v.y == b.w * y * k * 2.0 && v.z == z * k * 2.0
  {
    var e := OnEllipse(b, x, y, z);
    MulSame(e.x, b.u * x, k, k);
    MulSame(e.y, b.w * y, k, k);
  }

  lemma WideMeasures(c: real, s: real, k: real, x: real, y: real, z: real, v: Vec3)
    requires k > 0.0 && z > 0.0 && x != 0.0 && y != 0.0 && x > y
    requires v.x == c * x * k * 2.0 && v.y == s * y * k * 2.0 && v.z == z * k * 2.0
    ensures InPlane(Stretch(v, x, y), z) == Point(c * x, s * x)
  {
    var wide := Stretch(v, x, y);
    StraightMeasure(c * x, k, z, wide.x, wide.z);
    StretchedMeasure(s, x, y, k, z, v.y, wide.y, wide.z);
  }

  lemma TallMeasures(c: real, s: real, k: real, x: real, y: real, z: real, v: Vec3)
    requires k > 0.0 && z > 0.0 && x != 0.0 && y != 0.0 && x <= y
    requires v.x == c * x * k * 2.0 && v.y == s * y * k * 2.0 && v.z == z * k * 2.0
    ensures InPlane(Stretch(v, x, y), z) == Point(c * y, s * y)
  {
    var tall := Stretch(v, x, y);
    StraightMeasure(s * y, k, z, tall.y, tall.z);
    StretchedMeasure(c, y, x, k, z, v.x, tall.x, tall.z);
  }

  lemma StraightMeasure(p: real, k: real, z: real, vp: real, vz: real)
    requires k > 0.0 && z > 0.0 && vp == p * k * 2.0 && vz == z * k * 2.0
    ensures vz > 0.0 && vp * (z / vz) == p
  {
    MulPositive(z, k);
    var d := z / vz;
    DivMul(z, vz);
    MulSame(d, d, vz, z * k * 2.0);
    MulSame(vp, p * k * 2.0, d, d);
    MulSame(p, p, d * vz, d * (z * k * 2.0));
    MulSame(p, p, d * vz, z);
    assert (p * k * 2.0 * d) * z == p * (d * (z * k * 2.0));
    MulCancel(p * k * 2.0 * d, p, z);
  }

  lemma StretchedMeasure(s: real, x: real, y: real, k: real, z: real, vp: real, wp: real, vz: real)
    requires k > 0.0 && z > 0.0 && y != 0.0 && vp == s * y * k * 2.0 && wp == vp * (x / y) && vz == z * k * 2.0
    ensures vz > 0.0 && wp * (z / vz) == s * x
  {
    DivMul(x, y);
    MulSame(s * k * 2.0, s * k * 2.0, (x / y) * y, x);
    MulSame(vp, s * y * k * 2.0, x / y, x / y);
    StraightMeasure(s * x, k, z, wp, vz);
  }

  lemma SquareRootOfSquare(radius: real, square: real, sqrt: Root)
    requires IsSqrt(sqrt) && square == radius * radius
    ensures sqrt(square) <= radius <==> radius >= 0.0
  {
    SquareNotNegative(radius);
    if radius >= 0.0 {
      RootUnique(sqrt(square), radius);
    }
  }

  // ---- what the clamp hands back ----------------------------------------------------------------------------------

  /** `p`, in the clamp's basis, lies ahead of the plane and on the cone through the record's ellipse. */
  predicate OnAuthoredRim(p: Vec3, x: real, y: real, scale: real)
    requires x != 0.0 && y != 0.0 && scale != 0.0
  {
    p.z > 0.0 && Square(Point(p.x / x, p.y / y)) == (p.z / scale) * (p.z / scale)
  }

  lemma EllipsePoint(b: Point, k: real, x: real, y: real, scale: real)
    requires Square(b) == 1.0 && k > 0.0 && x != 0.0 && y != 0.0 && scale > 0.0
    ensures OnAuthoredRim(Scaled(OnEllipse(b, x, y, scale), k), x, y, scale)
  {
    hide Square;
    var p := Scaled(OnEllipse(b, x, y, scale), k);
    MulPositive(scale, k);
    QuotientOf(b.u, x, k, p.x);
    QuotientOf(b.w, y, k, p.y);
    QuotientOf(1.0, scale, k, p.z);
    CircleRadius(b, k, Point(p.x / x, p.y / y));
    MulSame(p.z / scale, k, p.z / scale, k);
    MulSame(Square(b), 1.0, k * k, k * k);
  }

  lemma QuotientOf(c: real, x: real, k: real, p: real)
    requires x != 0.0 && p == c * x * k
    ensures p / x == c * k
  {
    DivMul(p, x);
    MulCancel(p / x, c * k, x);
  }

  lemma ProjectScaled(basis: LookAtBasis, v: Vec3, k: real)
    ensures Project(basis, Scaled(v, k)) == Scaled(Project(basis, v), k)
  {
    hide Dot3;
    DotScaled(v, basis.side, k);
    DotScaled(v, basis.up, k);
    DotScaled(v, basis.d, k);
    DotSymmetric(v, basis.side);
    DotSymmetric(v, basis.up);
    DotSymmetric(v, basis.d);
  }

  lemma RimIsNotZero(b: Point, x: real, y: real, scale: real)
    requires x != 0.0 && y != 0.0 && Square(b) == 1.0
    ensures OnEllipse(b, x, y, scale) != ZERO
  {
    if b.u * x == 0.0 && b.w * y == 0.0 {
      MulCancel(b.u, 0.0, x);
      MulCancel(b.w, 0.0, y);
    }
  }

  /** A rim point goes out of the basis as a unit vector, which seen from the basis is the same point shrunk. */
  lemma NormalizedRim(basis: LookAtBasis, b: Point, x: real, y: real, scale: real, sqrt: Root) returns (k: real)
    requires IsSqrt(sqrt) && Orthonormal(basis) && x != 0.0 && y != 0.0 && Square(b) == 1.0
    ensures var out := TryNormalize(Unproject(basis, Rim(b, x, y, scale)), sqrt);
            && k > 0.0 && out.Some? && Dot3(out.value, out.value) == 1.0
            && Project(basis, out.value) == Scaled(OnEllipse(b, x, y, scale), k)
  {
    hide Unproject, Dot3, Scaled, Rim;
    var rim := Rim(b, x, y, scale);
    var there := Unproject(basis, rim);
    RimShape(b, x, y, scale);
    RimIsNotZero(b, x, y, scale);
    ProjectUnproject(basis, rim);
    Length2NotNegative(rim);
    Length2NotNegative(there);
    NormalizedIsUnit(there, sqrt);
    k := 1.0 / sqrt(Dot3(there, there));
    assert k > 0.0;
    ProjectScaled(basis, there, k);
  }

  /** What a clamp that reaches the rim hands back, seen from the basis. */
  lemma SaturatedForm(basis: LookAtBasis, look: Vec3, x: real, y: real, scale: real, sqrt: Root)
    returns (b: Point, k: real)
    requires IsSqrt(sqrt) && Orthonormal(basis) && x != 0.0 && y != 0.0
    ensures var clamped := ClampIn(basis, look, x, y, scale, sqrt);
            && clamped.Some?
            && (clamped.value.1 <==> sqrt(Square(Measured(basis, look, x, y, scale))) > Wider(x, y))
            && (!clamped.value.1 ==> clamped.value.0 == look)
            && b == Bearing(Measured(basis, look, x, y, scale), sqrt)
            && (clamped.value.1 ==>
                  var out := clamped.value.0;
                  && Dot3(out, out) == 1.0 && k > 0.0 && Square(b) == 1.0
                  && Project(basis, out) == Scaled(OnEllipse(b, x, y, scale), k))
  {
    hide Measured, Unproject, TryNormalize, Square, Orthonormal, Rim, Bearing, Dot3, OnEllipse, Scaled;
    var at := Measured(basis, look, x, y, scale);
    b := Bearing(at, sqrt);
    BearingOnCircle(at, sqrt);
    k := NormalizedRim(basis, b, x, y, scale, sqrt);
  }

  /** Clamping a saturated result again: it measures exactly on the circle. */
  lemma RimIsClampedOnce(basis: LookAtBasis, out: Vec3, b: Point, k: real, x: real, y: real, scale: real, sqrt: Root)
    requires IsSqrt(sqrt) && Orthonormal(basis) && x != 0.0 && y != 0.0 && scale > 0.0
    requires Square(b) == 1.0 && k > 0.0 && Project(basis, out) == Scaled(OnEllipse(b, x, y, scale), k)
    ensures ClampIn(basis, out, x, y, scale, sqrt) == Some((out, false)) <==> x > 0.0 || y > 0.0
    ensures ClampIn(basis, out, x, y, scale, sqrt).Some?
  {
    var at := Measured(basis, out, x, y, scale);
    RimMeasures(b, k, x, y, scale);
    hide Measured, Unproject, TryNormalize, Orthonormal, Rim, Bearing, Dot3, OnEllipse, Scaled, ClampIn, Square;
    CircleRadius(b, Wider(x, y), at);
    SquareRootOfSquare(Wider(x, y), Square(at), sqrt);
    var b', k' := SaturatedForm(basis, out, x, y, scale, sqrt);
  }

  /**
   A saturated result is a unit vector ahead of the plane and on the authored ellipse. Clamped again it comes back
   unchanged and unsaturated exactly when the wider semi-axis is positive; two negative limits saturate everything.
   */
  lemma ClampAgain(forward: Vec3, look: Vec3, r: LookAtLimit, sqrt: Root)
    requires IsSqrt(sqrt) && r.scale > 0.0
    requires var first := ClampBendAxis(forward, look, r, sqrt); first.Some? && first.value.1
    ensures var x := Guarded(r.xLimit);
            var y := Guarded(r.yLimit);
            var out := ClampBendAxis(forward, look, r, sqrt).value.0;
            && Dot3(out, out) == 1.0
            && OnAuthoredRim(Project(NewBasis(forward, sqrt).value, out), x, y, r.scale)
            && (ClampBendAxis(forward, out, r, sqrt) == Some((out, false)) <==> x > 0.0 || y > 0.0)
            && ClampBendAxis(forward, out, r, sqrt).Some?
  {
    hide Guarded, Dot3, Scaled, Project, NewBasis, ClampIn, Orthonormal, OnAuthoredRim, OnEllipse, Square;
    var basis := NewBasis(forward, sqrt).value;
    BasisIsOrthonormal(forward, sqrt);
    var x, y := Guarded(r.xLimit), Guarded(r.yLimit);
    var b, k := SaturatedForm(basis, look, x, y, r.scale, sqrt);
    EllipsePoint(b, k, x, y, r.scale);
    RimIsClampedOnce(basis, ClampBendAxis(forward, look, r, sqrt).value.0, b, k, x, y, r.scale, sqrt);
  }

  /** `p` leans off the depth axis by no more than `radius` over `scale` in tangent. */
  predicate LeansWithin(p: Vec3, radius: real, scale: real)
    requires scale != 0.0
  {
    var bound := radius / scale * p.z;
    p.x * p.x + p.y * p.y <= bound * bound
  }

  /** With limits that are not negative, a saturated turn never passes the wider limit over the scale in tangent. */
  lemma SaturatedTurnBound(forward: Vec3, look: Vec3, r: LookAtLimit, sqrt: Root)
    requires IsSqrt(sqrt) && r.scale > 0.0 && r.xLimit >= 0.0 && r.yLimit >= 0.0
    requires var first := ClampBendAxis(forward, look, r, sqrt); first.Some? && first.value.1
    ensures var p := Project(NewBasis(forward, sqrt).value, ClampBendAxis(forward, look, r, sqrt).value.0);
            LeansWithin(p, Wider(Guarded(r.xLimit), Guarded(r.yLimit)), r.scale)
  {
    hide Dot3, Project, NewBasis, ClampIn, Orthonormal, Square, LeansWithin, OnEllipse, Scaled;
    var basis := NewBasis(forward, sqrt).value;
    BasisIsOrthonormal(forward, sqrt);
    var x, y := Guarded(r.xLimit), Guarded(r.yLimit);
    var b, k := SaturatedForm(basis, look, x, y, r.scale, sqrt);
    WithinEllipse(b, k, x, y, Wider(x, y), r.scale, Project(basis, ClampBendAxis(forward, look, r, sqrt).value.0));
  }

  lemma ShrunkEllipse(b: Point, k: real, x: real, y: real, z: real, p: Vec3)
    requires p == Scaled(OnEllipse(b, x, y, z), k)
    ensures p.x == b.u * x * k && p.y == b.w * y * k && p.z == z * k
  {
    var e := OnEllipse(b, x, y, z);
    MulSame(e.x, b.u * x, k, k);
    MulSame(e.y, b.w * y, k, k);
  }

  lemma WithinEllipse(b: Point, k: real, x: real, y: real, radius: real, z: real, p: Vec3)
    requires Square(b) == 1.0 && 0.0 <= x <= radius && 0.0 <= y <= radius && z > 0.0
    requires p == Scaled(OnEllipse(b, x, y, z), k)
    ensures LeansWithin(p, radius, z)
  {
    ShrunkEllipse(b, k, x, y, z, p);
    hide Square, Scaled, OnEllipse;
    var reach := radius * k;
    var q := Point(b.u * reach, b.w * reach);
    RimReach(radius, z, k, p.z, reach);
    CircleRadius(b, reach, q);
    MulSame(Square(b), 1.0, reach * reach, reach * reach);
    Within(b.u, x, radius, k, reach, p.x, q.u);
    Within(b.w, y, radius, k, reach, p.y, q.w);
    SquareIs(q);
    MulSame(radius / z * p.z, reach, radius / z * p.z, reach);
  }

  lemma SquareIs(q: Point)
    ensures Square(q) == q.u * q.u + q.w * q.w
  {
  }

  lemma RimReach(radius: real, z: real, k: real, pz: real, reach: real)
    requires z > 0.0 && pz == z * k && reach == radius * k
    ensures radius / z * pz == reach
  {
    DivMul(radius, z);
    MulSame(radius / z, radius / z, pz, z * k);
    MulSame(radius / z * z, radius, k, k);
  }

  lemma Within(c: real, x: real, radius: real, k: real, reach: real, p: real, q: real)
    requires 0.0 <= x <= radius && reach == radius * k && p == c * x * k && q == c * reach
    ensures p * p <= q * q
  {
    MulSame(c, c, reach, radius * k);
    SmallerSquare(c * k, x, radius, p, q);
  }

  lemma SmallerSquare(c: real, x: real, radius: real, p: real, q: real)
    requires 0.0 <= x <= radius && p == c * x && q == c * radius
    ensures p * p <= q * q
  {
    SquareNotNegative(c);
    MulMonotone(x, radius, x);
    MulMonotone(x, radius, radius);
    MulMonotone(x * x, radius * radius, c * c);
    MulSame(p, c * x, p, c * x);
    MulSame(q, c * radius, q, c * radius);
    assert (c * x) * (c * x) == (x * x) * (c * c);
    assert (c * radius) * (c * radius) == (radius * radius) * (c * c);
  }

  /** Inside the ellipse the caller's own vector comes back; two limits authored zero are not negative. */
  lemma UnsaturatedIsLook(forward: Vec3, look: Vec3, r: LookAtLimit, sqrt: Root)
    requires IsSqrt(sqrt)
    ensures var clamped := ClampBendAxis(forward, look, r, sqrt);
            && (clamped.Some? <==> forward.x != 0.0 || forward.z != 0.0)
            && (clamped.Some? && !clamped.value.1 ==> clamped.value.0 == look)
  {
    hide NewBasis, ClampIn, Orthonormal;
    BasisIsOrthonormal(forward, sqrt);
    if NewBasis(forward, sqrt).Some? {
      var b, k := SaturatedForm(NewBasis(forward, sqrt).value, look, Guarded(r.xLimit), Guarded(r.yLimit), r.scale,
                                sqrt);
    }
  }
}
