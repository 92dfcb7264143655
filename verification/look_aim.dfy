/**
 Where a clamped look goes: when a target is out of the record's reach, and that the turn is then still toward it. The
 clamp measures a target doubled, stretched and driven outward behind the plane; here it is the target's own place.
 */
module LookAim {
  import opened Wrappers
  import opened Matrix
  import opened Reals
  import opened LookClamp

  /** An authored semi-axis; a thousandth stands for zero. */
  function SemiAxis(limit: real): (axis: real)
    ensures axis != 0.0
  {
    if limit == 0.0 then 0.001 else limit
  }

  /** What brings a target to the record's depth: ahead its own depth, at or behind the plane a two-hundredth. */
  function Reach(p: Vec3, scale: real): real { if p.z > 0.0 then scale / p.z else 200.0 * scale }

  /** A target at the record's depth, measured in semi-axes. */
  function InAxes(p: Vec3, x: real, y: real, reach: real): Point
    requires x != 0.0 && y != 0.0
  {
    Point(p.x * reach / x, p.y * reach / y)
  }

  // ---- what the clamp measures ------------------------------------------------------------------------------------

  lemma AheadReach(v: real, z: real, scale: real)
    requires z > 0.0
    ensures v * 2.0 * (scale / (z * 2.0)) == v * (scale / z)
  {
    var reach := scale / z;
    DivMul(scale, z);
    DivMul(scale, z * 2.0);
    HalfReach(scale / (z * 2.0), reach, z);
  }

  lemma HalfReach(half: real, reach: real, z: real)
    requires z > 0.0 && half * (z * 2.0) == reach * z
    ensures half * 2.0 == reach
  {
    MulCancel(half * 2.0, reach, z);
  }

  lemma Doubled(v: real, reach: real, scale: real)
    requires reach == 200.0 * scale
    ensures v * 2.0 * (scale * 100.0) == v * reach
  {
    MulSame(v, v, reach, 200.0 * scale);
  }

  /** The doubling cancels ahead of the plane and is half of the drive outward behind it. */
  lemma InPlaneIs(v: Vec3, scale: real)
    ensures var reach := Reach(v, scale);
            InPlane(Scaled(v, 2.0), scale) == Point(v.x * reach, v.y * reach)
  {
    if v.z > 0.0 {
      AheadReach(v.x, v.z, scale);
      AheadReach(v.y, v.z, scale);
    } else {
      Doubled(v.x, Reach(v, scale), scale);
      Doubled(v.y, Reach(v, scale), scale);
    }
  }

  lemma StretchDoubled(p: Vec3, x: real, y: real)
    requires x != 0.0 && y != 0.0
    ensures Stretch(Scaled(p, 2.0), x, y) == Scaled(Stretch(p, x, y), 2.0)
  {
  }

  lemma SameReach(p: Vec3, v: Vec3, scale: real)
    requires p.z == v.z
    ensures Reach(v, scale) == Reach(p, scale)
  {
  }

  /** Measuring in semi-axes is undone by the semi-axis. */
  lemma InAxesBack(p: Vec3, x: real, y: real, reach: real)
    requires x != 0.0 && y != 0.0
    ensures var e := InAxes(p, x, y, reach); e.u * x == p.x * reach && e.w * y == p.y * reach
  {
    DivMul(p.x * reach, x);
    DivMul(p.y * reach, y);
  }

  lemma InSemiAxes(v: real, reach: real, x: real, w: real, e: real)
    requires x != 0.0 && e * x == v * reach
    ensures v * (w / x) * reach == e * w
  {
    DivMul(w, x);
    MulSame(e, e, w / x * x, w);
    MulSame(e * x, v * reach, w / x, w / x);
  }

  lemma WideStretch(p: Vec3, x: real, y: real)
    requires x != 0.0 && y != 0.0 && x > y
    ensures var v := Stretch(p, x, y); v.x == p.x && v.y == p.y * (x / y) && v.z == p.z
  {
  }

  lemma TallStretch(p: Vec3, x: real, y: real)
    requires x != 0.0 && y != 0.0 && x <= y
    ensures var v := Stretch(p, x, y); v.x == p.x * (y / x) && v.y == p.y && v.z == p.z
  {
  }

  lemma WiderIs(x: real, y: real)
    ensures Wider(x, y) == if x > y then x else y
  {
  }

  lemma StretchedInAxes(p: Vec3, x: real, y: real, reach: real)
    requires x != 0.0 && y != 0.0
    ensures var (v, e, w) := (Stretch(p, x, y), InAxes(p, x, y, reach), Wider(x, y));
            v.x * reach == e.u * w && v.y * reach == e.w * w && v.z == p.z
  {
    hide Stretch, InAxes, Wider;
    var e := InAxes(p, x, y, reach);
    InAxesBack(p, x, y, reach);
    WiderIs(x, y);
    if x > y {
      WideStretch(p, x, y);
      InSemiAxes(p.y, reach, y, x, e.w);
    } else {
      TallStretch(p, x, y);
      InSemiAxes(p.x, reach, x, y, e.u);
    }
  }

  /** The point the clamp measures is the target in semi-axes, times the wider of them. */
  lemma MeasuredInAxes(p: Vec3, x: real, y: real, scale: real)
    requires x != 0.0 && y != 0.0
    ensures var (e, w) := (InAxes(p, x, y, Reach(p, scale)), Wider(x, y));
            InPlane(Stretch(Scaled(p, 2.0), x, y), scale) == Point(e.u * w, e.w * w)
  {
    hide Scaled, InPlane, InAxes, Stretch, Reach, Wider;
    var v := Stretch(p, x, y);
    StretchDoubled(p, x, y);
    InPlaneIs(v, scale);
    StretchedInAxes(p, x, y, Reach(p, scale));
    SameReach(p, v, scale);
  }

  // ---- when a target is out of reach ------------------------------------------------------------------------------

  lemma RootPasses(radius: real, square: real, root: real, radiusSquare: real)
    requires root >= 0.0 && root * root == square && radiusSquare == radius * radius
    ensures root > radius <==> radius < 0.0 || square > radiusSquare
  {
    if radius >= 0.0 {
      DifferenceOfSquares(root, radius, root - radius, root + radius);
      if root > radius {
        ProductPositive(root - radius, root + radius, square - radiusSquare);
      } else {
        ProductNotNegative(radius - root, root + radius, radiusSquare - square);
      }
    }
  }

  lemma DifferenceOfSquares(a: real, b: real, less: real, more: real)
    requires less == a - b && more == a + b
    ensures less * more == a * a - b * b && -less * more == b * b - a * a
  {
  }

  lemma OutsideUnit(e: Point, w: real, at: Point)
    requires at == Point(e.u * w, e.w * w) && w > 0.0
    ensures Square(at) > w * w <==> Square(e) > 1.0
  {
    CircleRadius(e, w, at);
    hide Square;
    ProductPositive(w, w, w * w);
    if Square(e) > 1.0 {
      MulStrict(1.0, Square(e), w * w);
    } else {
      MulMonotone(Square(e), 1.0, w * w);
    }
  }

  lemma WiderIsNegative(x: real, y: real)
    requires x != 0.0 && y != 0.0
    ensures Wider(x, y) < 0.0 <==> x < 0.0 && y < 0.0
    ensures Wider(x, y) != 0.0
  {
  }

  lemma MeasuredAt(basis: LookAtBasis, look: Vec3, x: real, y: real, scale: real) returns (e: Point, at: Point)
    requires x != 0.0 && y != 0.0
    ensures var p := Project(basis, look);
            e == InAxes(p, x, y, Reach(p, scale)) && at == Measured(basis, look, x, y, scale)
    ensures at == Point(e.u * Wider(x, y), e.w * Wider(x, y))
  {
    hide Project, InAxes, Reach, Wider, Stretch, Scaled, InPlane;
    var p := Project(basis, look);
    MeasuredInAxes(p, x, y, scale);
    e, at := InAxes(p, x, y, Reach(p, scale)), Measured(basis, look, x, y, scale);
  }

  /** A target saturates exactly when, brought to the record's depth, it lies outside the authored ellipse. */
  lemma SaturatesIn(basis: LookAtBasis, look: Vec3, x: real, y: real, scale: real, sqrt: Root)
    requires IsSqrt(sqrt) && Orthonormal(basis) && x != 0.0 && y != 0.0
    ensures var (p, clamped) := (Project(basis, look), ClampIn(basis, look, x, y, scale, sqrt));
            clamped.Some?
            && (clamped.value.1 <==> (x < 0.0 && y < 0.0) || Square(InAxes(p, x, y, Reach(p, scale))) > 1.0)
  {
    hide Measured, Project, InAxes, Reach, Orthonormal, Square, Wider, ClampIn, Bearing;
    var e, at := MeasuredAt(basis, look, x, y, scale);
    var b, k := SaturatedForm(basis, look, x, y, scale, sqrt);
    SquareNonNegative(at);
    RootPasses(Wider(x, y), Square(at), sqrt(Square(at)), Wider(x, y) * Wider(x, y));
    WiderIsNegative(x, y);
    if Wider(x, y) > 0.0 {
      OutsideUnit(e, Wider(x, y), at);
    }
  }

  /**
   When the rim is reached: the target lies outside the authored ellipse at the record's depth, `scale` ahead of the
   plane; targets at or behind the plane are measured 200 times as far out as they lie. Two negative limits take in
   nothing.
   */
  lemma SaturatesIff(forward: Vec3, look: Vec3, r: LookAtLimit, sqrt: Root)
    requires IsSqrt(sqrt) && (forward.x != 0.0 || forward.z != 0.0)
    ensures var clamped := ClampBendAxis(forward, look, r, sqrt);
            && NewBasis(forward, sqrt).Some? && clamped.Some?
            && var p := Project(NewBasis(forward, sqrt).value, look);
               clamped.value.1
               <==> (r.xLimit < 0.0 && r.yLimit < 0.0)
                    || Square(InAxes(p, SemiAxis(r.xLimit), SemiAxis(r.yLimit), Reach(p, r.scale))) > 1.0
  {
    hide NewBasis, ClampIn, Orthonormal, Project, InAxes, Reach, Square;
    BasisIsOrthonormal(forward, sqrt);
    SaturatesIn(NewBasis(forward, sqrt).value, look, SemiAxis(r.xLimit), SemiAxis(r.yLimit), r.scale, sqrt);
  }

  // ---- a saturated turn is toward its target ----------------------------------------------------------------------

  lemma BearingBack(at: Point, h: real, sqrt: Root)
    requires h == sqrt(Square(at)) && h != 0.0
    ensures Bearing(at, sqrt).u * h == at.u && Bearing(at, sqrt).w * h == at.w
  {
    DivMul(at.u, h);
    DivMul(at.w, h);
  }

  /** One component of the rim: a multiple of the target's, the same for both. */
  lemma RimComponent(v: real, reach: real, x: real, e: real, w: real, h: real, k: real, c: real, q: real, share: real)
    requires h != 0.0 && e * x == v * reach && c * h == e * w && q == c * x * k && share * h == w * reach * k
    ensures q == share * v
  {
    MulSame(q, c * x * k, h, h);
    MulSame(c * h, e * w, x * k, x * k);
    MulSame(e * x, v * reach, w * k, w * k);
    MulSame(share * h, w * reach * k, v, v);
    Regrouped(c, x, k, h, e, w, v, reach);
    MulCancel(q, share * v, h);
  }

  lemma Regrouped(c: real, x: real, k: real, h: real, e: real, w: real, v: real, reach: real)
    ensures c * x * k * h == c * h * (x * k)
    ensures e * w * (x * k) == e * x * (w * k)
    ensures v * reach * (w * k) == w * reach * k * v
  {
  }

  lemma ReachPositive(p: Vec3, scale: real)
    requires scale > 0.0
    ensures Reach(p, scale) > 0.0
  {
    if p.z > 0.0 {
      DivMul(scale, p.z);
      if scale / p.z <= 0.0 {
        MulMonotone(scale / p.z, 0.0, p.z);
      }
    }
  }

  lemma ShareOf(w: real, reach: real, k: real, h: real) returns (share: real)
    requires w != 0.0 && reach > 0.0 && k > 0.0 && h > 0.0
    ensures share * h == w * reach * k && (share > 0.0 <==> w > 0.0)
  {
    share := w * reach * k / h;
    DivMul(w * reach * k, h);
    MulPositive(reach, k);
    SameSign(share, h, w, reach * k);
  }

  lemma SameSign(a: real, b: real, c: real, d: real)
    requires b > 0.0 && d > 0.0 && a * b == c * d && c != 0.0
    ensures a > 0.0 <==> c > 0.0
  {
    if c > 0.0 {
      MulPositive(c, d);
      if a <= 0.0 {
        MulMonotone(a, 0.0, b);
      }
    } else {
      MulPositive(-c, d);
      if a > 0.0 {
        MulPositive(a, b);
      }
    }
  }

  /** Across the axis `q` is a share of `p`. */
  predicate ShareAcross(p: Vec3, q: Vec3, share: real) { q.x == share * p.x && q.y == share * p.y }

  predicate OffAxis(p: Vec3) { p.x != 0.0 || p.y != 0.0 }

  lemma MeasuresSomething(p: Vec3, x: real, y: real, reach: real, e: Point, w: real, at: Point)
    requires x != 0.0 && y != 0.0 && reach != 0.0 && w != 0.0 && OffAxis(p)
    requires e == InAxes(p, x, y, reach) && at == Point(e.u * w, e.w * w)
    ensures at.u != 0.0 || at.w != 0.0
  {
    hide InAxes;
    InAxesBack(p, x, y, reach);
    if at.u == 0.0 && at.w == 0.0 {
      MulCancel(e.u, 0.0, w);
      MulCancel(e.w, 0.0, w);
      MulCancel(p.x, 0.0, reach);
      MulCancel(p.y, 0.0, reach);
    }
  }

  lemma RootOfSquare(at: Point, sqrt: Root)
    requires IsSqrt(sqrt) && (at.u != 0.0 || at.w != 0.0)
    ensures sqrt(Square(at)) > 0.0
  {
    SumPositive(at.u, at.w, 0.0, at.u * at.u, at.w * at.w, 0.0 * 0.0);
  }

  /** Across the axis a saturated turn is a share of its target, a positive one exactly off two negative limits. */
  lemma RimShare(basis: LookAtBasis, look: Vec3, x: real, y: real, scale: real, sqrt: Root) returns (share: real)
    requires IsSqrt(sqrt) && Orthonormal(basis) && x != 0.0 && y != 0.0 && scale > 0.0
    requires x > 0.0 || y > 0.0 || OffAxis(Project(basis, look))
    requires var clamped := ClampIn(basis, look, x, y, scale, sqrt); clamped.Some? && clamped.value.1
    ensures share > 0.0 <==> x > 0.0 || y > 0.0
    ensures ShareAcross(Project(basis, look), Project(basis, ClampIn(basis, look, x, y, scale, sqrt).value.0), share)
  {
    hide Measured, Project, InAxes, Reach, Orthonormal, Square, ClampIn, Bearing, OnEllipse, Scaled, Wider, OffAxis;
    var p, w := Project(basis, look), Wider(x, y);
    var reach := Reach(p, scale);
    var e, at := MeasuredAt(basis, look, x, y, scale);
    WiderIsNegative(x, y);
    var b, k := SaturatedForm(basis, look, x, y, scale, sqrt);
    var h := sqrt(Square(at));
    ReachPositive(p, scale);
    if w < 0.0 {
      MeasuresSomething(p, x, y, reach, e, w, at);
      RootOfSquare(at, sqrt);
    }
    BearingBack(at, h, sqrt);
    share := ShareOf(w, reach, k, h);
    var q := Project(basis, ClampIn(basis, look, x, y, scale, sqrt).value.0);
    ShrunkEllipse(b, k, x, y, scale, q);
    InAxesBack(p, x, y, reach);
    RimComponent(p.x, reach, x, e.u, w, h, k, b.u, q.x, share);
    RimComponent(p.y, reach, y, e.w, w, h, k, b.w, q.y, share);
  }

  lemma OneSign(p: Vec3, q: Vec3, share: real, other: real)
    requires OffAxis(p) && ShareAcross(p, q, share) && ShareAcross(p, q, other)
    ensures share == other
  {
    if p.x != 0.0 {
      MulCancel(share, other, p.x);
    } else {
      MulCancel(share, other, p.y);
    }
  }

  /**
   A saturated turn toward a target off the axis stays on the target's side, whether the target is ahead, level or
   behind, exactly when the limits are not both negative.
   */
  lemma TowardIff(forward: Vec3, look: Vec3, r: LookAtLimit, sqrt: Root)
    requires IsSqrt(sqrt) && r.scale > 0.0
    requires var clamped := ClampBendAxis(forward, look, r, sqrt); clamped.Some? && clamped.value.1
    requires OffAxis(Project(NewBasis(forward, sqrt).value, look))
    ensures var basis := NewBasis(forward, sqrt).value;
            var (p, q) := (Project(basis, look), Project(basis, ClampBendAxis(forward, look, r, sqrt).value.0));
            (exists share :: share > 0.0 && ShareAcross(p, q, share)) <==> r.xLimit >= 0.0 || r.yLimit >= 0.0
  {
    hide NewBasis, ClampIn, Orthonormal, Project, ShareAcross, OffAxis;
    BasisIsOrthonormal(forward, sqrt);
    var basis := NewBasis(forward, sqrt).value;
    var (p, q) := (Project(basis, look), Project(basis, ClampBendAxis(forward, look, r, sqrt).value.0));
    var share := RimShare(basis, look, SemiAxis(r.xLimit), SemiAxis(r.yLimit), r.scale, sqrt);
    if other :| other > 0.0 && ShareAcross(p, q, other) {
      OneSign(p, q, share, other);
    }
  }

  // ---- the same in the space the vectors live in ------------------------------------------------------------------

  /** The basis' depth runs along the forward axis, its side axis is level and its up axis points up. */
  lemma BasisFaces(forward: Vec3, sqrt: Root) returns (k: real)
    requires IsSqrt(sqrt) && NewBasis(forward, sqrt).Some?
    ensures var b := NewBasis(forward, sqrt).value;
            k > 0.0 && b.d == Scaled(forward, k) && b.up == Cross(b.d, b.side) && b.side.y == 0.0 && b.up.y > 0.0
  {
    BasisIsOrthonormal(forward, sqrt);
    hide Dot3, Scaled, Orthonormal;
    NormalizedIsUnit(forward, sqrt);
    k := 1.0 / sqrt(Dot3(forward, forward));
    var b := NewBasis(forward, sqrt).value;
    var across := Cross(BASIS_UP_HINT, b.d);
    NormalizedIsUnit(across, sqrt);
    LevelSide(b, across, 1.0 / sqrt(Dot3(across, across)));
  }

  lemma LevelSide(b: LookAtBasis, across: Vec3, k: real)
    requires across == Cross(BASIS_UP_HINT, b.d) && across != ZERO && b.side == Scaled(across, k) && k > 0.0
    requires b.up == Cross(b.d, b.side)
    ensures b.side.y == 0.0 && b.up.y > 0.0
  {
    AcrossUp(b.d);
    UpComponent(b.d, b.side, k);
    SumPositive(b.d.x, 0.0, b.d.z, b.d.x * b.d.x, 0.0 * 0.0, b.d.z * b.d.z);
    ProductPositive(b.d.x * b.d.x + 0.0 * 0.0 + b.d.z * b.d.z, k, b.up.y);
  }

  lemma AcrossUp(d: Vec3)
    ensures Cross(BASIS_UP_HINT, d) == Vec3(d.z, 0.0, -d.x)
  {
  }

  lemma UpComponent(d: Vec3, side: Vec3, k: real)
    requires side == Scaled(Vec3(d.z, 0.0, -d.x), k)
    ensures side.y == 0.0 && Cross(d, side).y == (d.x * d.x + 0.0 * 0.0 + d.z * d.z) * k
  {
  }

  /** One component of a triple product whose first factor is across the other two. */
  lemma AcrossTerm(u: real, v: real, w: real, a: real, b: real, c: real, p: real, q: real, r: real)
    requires u * a + v * b + w * c == 0.0 && u * p + v * q + w * r == 0.0
    ensures v * (a * q - b * p) - w * (c * p - a * r) == 0.0
  {
    assert v * (a * q - b * p) - w * (c * p - a * r) == a * (u * p + v * q + w * r) - p * (u * a + v * b + w * c);
  }

  lemma TripleProductX(u: Vec3, a: Vec3, b: Vec3, c: Vec3)
    requires Dot3(u, a) == 0.0 && Dot3(u, b) == 0.0 && c == Cross(a, b)
    ensures Cross(u, c).x == 0.0
  {
    AcrossTerm(u.x, u.y, u.z, a.x, a.y, a.z, b.x, b.y, b.z);
    MulSame(u.y, u.y, c.z, a.x * b.y - a.y * b.x);
    MulSame(u.z, u.z, c.y, a.z * b.x - a.x * b.z);
  }

  lemma TripleProductY(u: Vec3, a: Vec3, b: Vec3, c: Vec3)
    requires Dot3(u, a) == 0.0 && Dot3(u, b) == 0.0 && c == Cross(a, b)
    ensures Cross(u, c).y == 0.0
  {
    AcrossTerm(u.y, u.z, u.x, a.y, a.z, a.x, b.y, b.z, b.x);
    MulSame(u.z, u.z, c.x, a.y * b.z - a.z * b.y);
    MulSame(u.x, u.x, c.z, a.x * b.y - a.y * b.x);
  }

  lemma TripleProductZ(u: Vec3, a: Vec3, b: Vec3, c: Vec3)
    requires Dot3(u, a) == 0.0 && Dot3(u, b) == 0.0 && c == Cross(a, b)
    ensures Cross(u, c).z == 0.0
  {
    AcrossTerm(u.z, u.x, u.y, a.z, a.x, a.y, b.z, b.x, b.y);
    MulSame(u.x, u.x, c.y, a.z * b.x - a.x * b.z);
    MulSame(u.y, u.y, c.x, a.y * b.z - a.z * b.y);
  }

  lemma TripleProduct(u: Vec3, a: Vec3, b: Vec3)
    requires Dot3(u, a) == 0.0 && Dot3(u, b) == 0.0
    ensures Cross(u, Cross(a, b)) == ZERO
  {
    hide Cross, Dot3;
    TripleProductX(u, a, b, Cross(a, b));
    TripleProductY(u, a, b, Cross(a, b));
    TripleProductZ(u, a, b, Cross(a, b));
  }

  /** A vector across all three axes is none. */
  lemma NothingElse(b: LookAtBasis, u: Vec3)
    requires Orthonormal(b) && b.up == Cross(b.d, b.side) && Project(b, u) == ZERO
    ensures u == ZERO
  {
    hide Dot3, Cross;
    DotSymmetric(u, b.side);
    DotSymmetric(u, b.d);
    DotSymmetric(u, b.up);
    TripleProduct(u, b.d, b.side);
    CrossLength(u, b.up);
    Length2NotNegative(u);
    DotZero();
  }

  lemma ProjectAdd(b: LookAtBasis, v: Vec3, w: Vec3, k: real, l: real)
    ensures Project(b, Add(Scaled(v, k), Scaled(w, l)))
            == Add(Scaled(Project(b, v), k), Scaled(Project(b, w), l))
  {
    hide Dot3;
    DotCombined(b.side, v, w, k, l);
    DotCombined(b.up, v, w, k, l);
    DotCombined(b.d, v, w, k, l);
  }

  lemma DotCombined(a: Vec3, v: Vec3, w: Vec3, k: real, l: real)
    ensures Dot3(a, Add(Scaled(v, k), Scaled(w, l))) == Dot3(a, v) * k + Dot3(a, w) * l
  {
  }

  lemma ProjectDepth(b: LookAtBasis, forward: Vec3, k: real)
    requires Orthonormal(b) && k > 0.0 && b.d == Scaled(forward, k)
    ensures var f := Project(b, forward); f.x == 0.0 && f.y == 0.0 && f.z * k == 1.0
  {
    hide Dot3, Scaled;
    DotScaled(forward, b.side, k);
    DotScaled(forward, b.up, k);
    DotScaled(forward, b.d, k);
    DotSymmetric(forward, b.side);
    DotSymmetric(forward, b.up);
    DotSymmetric(forward, b.d);
    MulCancel(Dot3(b.side, forward), 0.0, k);
    MulCancel(Dot3(b.up, forward), 0.0, k);
  }

  /** What stands across the axis as a share of a target is that share of it and something along the axis. */
  lemma ShareIsLean(b: LookAtBasis, forward: Vec3, k: real, look: Vec3, out: Vec3, share: real) returns (along: real)
    requires Orthonormal(b) && b.up == Cross(b.d, b.side) && k > 0.0 && b.d == Scaled(forward, k)
    requires ShareAcross(Project(b, look), Project(b, out), share)
    ensures out == Add(Scaled(look, share), Scaled(forward, along))
  {
    ProjectDepth(b, forward, k);
    var (p, q, f) := (Project(b, look), Project(b, out), Project(b, forward));
    along := (q.z - p.z * share) * k;
    AlongDepth(f.z, k, q.z - p.z * share, along);
    hide Dot3, Project, Cross, Orthonormal;
    var lean := Add(Scaled(look, share), Scaled(forward, along));
    ProjectAdd(b, look, forward, share, along);
    assert Project(b, lean) == q;
    ProjectAdd(b, out, lean, 1.0, -1.0);
    Nothing(q);
    NothingElse(b, Add(Scaled(out, 1.0), Scaled(lean, -1.0)));
  }

  lemma AlongDepth(fz: real, k: real, rest: real, along: real)
    requires fz * k == 1.0 && along == rest * k
    ensures fz * along == rest
  {
    assert fz * (rest * k) == rest * (fz * k);
  }

  lemma Nothing(q: Vec3)
    ensures Add(Scaled(q, 1.0), Scaled(q, -1.0)) == ZERO
  {
  }

  /**
   What a saturated clamp hands back is a positive share of the target and something along the forward axis, and no
   more: the turn is in the plane of the two and on the target's side.
   */
  lemma SaturatedLeansToTarget(forward: Vec3, look: Vec3, r: LookAtLimit, sqrt: Root)
    returns (share: real, along: real)
    requires IsSqrt(sqrt) && r.scale > 0.0 && (r.xLimit >= 0.0 || r.yLimit >= 0.0)
    requires var clamped := ClampBendAxis(forward, look, r, sqrt); clamped.Some? && clamped.value.1
    ensures share > 0.0
    ensures ClampBendAxis(forward, look, r, sqrt).value.0 == Add(Scaled(look, share), Scaled(forward, along))
  {
    hide NewBasis, ClampIn, Orthonormal, Project, ShareAcross, Scaled, Add, Cross;
    BasisIsOrthonormal(forward, sqrt);
    var basis := NewBasis(forward, sqrt).value;
    share := RimShare(basis, look, SemiAxis(r.xLimit), SemiAxis(r.yLimit), r.scale, sqrt);
    var k := BasisFaces(forward, sqrt);
    along := ShareIsLean(basis, forward, k, look, ClampBendAxis(forward, look, r, sqrt).value.0, share);
  }
}
