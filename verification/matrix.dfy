/**
 Quaternions and 4x4 matrices over the reals, row by row as `bone.rs` writes them.

 A polynomial identity is proved through its written-out middle: both sides are shown equal to one explicit
 polynomial. Quaternion products associate because multiplying by one from the left is a matrix; that the rotation of a
 product is the product of the rotations goes through what both do to a point.
 */
module Matrix {
  datatype Vec3 = Vec3(x: real, y: real, z: real)

  datatype Quat = Quat(x: real, y: real, z: real, w: real)

  datatype Row = Row(x: real, y: real, z: real, w: real)

  datatype Mat4 = Mat4(r0: Row, r1: Row, r2: Row, r3: Row)

  const ZERO := Vec3(0.0, 0.0, 0.0)
  const UNIT_SCALE := Vec3(1.0, 1.0, 1.0)
  const IDENTITY_QUAT := Quat(0.0, 0.0, 0.0, 1.0)
  const LAST_ROW := Row(0.0, 0.0, 0.0, 1.0)
  const IDENTITY := Mat4(Row(1.0, 0.0, 0.0, 0.0), Row(0.0, 1.0, 0.0, 0.0), Row(0.0, 0.0, 1.0, 0.0), LAST_ROW)

  function Norm2(q: Quat): real { q.x * q.x + q.y * q.y + q.z * q.z + q.w * q.w }

  predicate IsUnit(q: Quat) { Norm2(q) == 1.0 }

  function Length2(v: Vec3): real { v.x * v.x + v.y * v.y + v.z * v.z }

  function QuatMul(a: Quat, b: Quat): Quat {
    Quat(a.w * b.x + a.x * b.w + a.y * b.z - a.z * b.y,
         a.w * b.y - a.x * b.z + a.y * b.w + a.z * b.x,
         a.w * b.z + a.x * b.y - a.y * b.x + a.z * b.w,
         a.w * b.w - a.x * b.x - a.y * b.y - a.z * b.z)
  }

  function FromQuatTrans(q: Quat, t: Vec3): Mat4 {
    var (xx, yy, zz) := (q.x * q.x, q.y * q.y, q.z * q.z);
    var (xy, xz, yz) := (q.x * q.y, q.x * q.z, q.y * q.z);
    var (wx, wy, wz) := (q.w * q.x, q.w * q.y, q.w * q.z);
    Mat4(Row(1.0 - 2.0 * (yy + zz), 2.0 * (xy - wz), 2.0 * (xz + wy), t.x),
         Row(2.0 * (xy + wz), 1.0 - 2.0 * (xx + zz), 2.0 * (yz - wx), t.y),
         Row(2.0 * (xz - wy), 2.0 * (yz + wx), 1.0 - 2.0 * (xx + yy), t.z),
         LAST_ROW)
  }

  function ScaleRow(r: Row, s: Vec3): Row { Row(r.x * s.x, r.y * s.y, r.z * s.z, r.w) }

  function FromQuatTransScale(q: Quat, t: Vec3, s: Vec3): Mat4 {
    var m := FromQuatTrans(q, t);
    Mat4(ScaleRow(m.r0, s), ScaleRow(m.r1, s), ScaleRow(m.r2, s), m.r3)
  }

  function Dot(a: Row, b: Row): real { a.x * b.x + a.y * b.y + a.z * b.z + a.w * b.w }

  /** A row times a matrix. */
  function Times(v: Row, b: Mat4): Row {
    Row(v.x * b.r0.x + v.y * b.r1.x + v.z * b.r2.x + v.w * b.r3.x,
        v.x * b.r0.y + v.y * b.r1.y + v.z * b.r2.y + v.w * b.r3.y,
        v.x * b.r0.z + v.y * b.r1.z + v.z * b.r2.z + v.w * b.r3.z,
        v.x * b.r0.w + v.y * b.r1.w + v.z * b.r2.w + v.w * b.r3.w)
  }

  function Mul(a: Mat4, b: Mat4): Mat4 { Mat4(Times(a.r0, b), Times(a.r1, b), Times(a.r2, b), Times(a.r3, b)) }

  /** A row of the linear part, on a vector. */
  function DotDir(r: Row, v: Vec3): real { r.x * v.x + r.y * v.y + r.z * v.z }

  function TransformPoint(m: Mat4, p: Vec3): Vec3 {
    Vec3(DotDir(m.r0, p) + m.r0.w, DotDir(m.r1, p) + m.r1.w, DotDir(m.r2, p) + m.r2.w)
  }

  function TransformDir(m: Mat4, v: Vec3): Vec3 { Vec3(DotDir(m.r0, v), DotDir(m.r1, v), DotDir(m.r2, v)) }

  predicate IsAffine(m: Mat4) { m.r3 == LAST_ROW }

  function Origin(m: Mat4): Vec3 { Vec3(m.r0.w, m.r1.w, m.r2.w) }

  function Translation(t: Vec3): Mat4 {
    Mat4(Row(1.0, 0.0, 0.0, t.x), Row(0.0, 1.0, 0.0, t.y), Row(0.0, 0.0, 1.0, t.z), LAST_ROW)
  }

  function Add(a: Vec3, b: Vec3): Vec3 { Vec3(a.x + b.x, a.y + b.y, a.z + b.z) }

  // ---- matrices ------------------------------------------------------------------------------------------------

  function Column(m: Mat4, c: nat): Row
    requires c < 4
  {
    if c == 0 then Row(m.r0.x, m.r1.x, m.r2.x, m.r3.x)
    else if c == 1 then Row(m.r0.y, m.r1.y, m.r2.y, m.r3.y)
    else if c == 2 then Row(m.r0.z, m.r1.z, m.r2.z, m.r3.z)
    else Row(m.r0.w, m.r1.w, m.r2.w, m.r3.w)
  }

  lemma TimesByColumns(v: Row, b: Mat4)
    ensures Times(v, b) == Row(Dot(v, Column(b, 0)), Dot(v, Column(b, 1)), Dot(v, Column(b, 2)), Dot(v, Column(b, 3)))
  {
  }

  /** `v * b * k`, written out. */
  function RowMatColumn(v: Row, b: Mat4, k: Row): real {
    (v.x * b.r0.x + v.y * b.r1.x + v.z * b.r2.x + v.w * b.r3.x) * k.x
    + (v.x * b.r0.y + v.y * b.r1.y + v.z * b.r2.y + v.w * b.r3.y) * k.y
    + (v.x * b.r0.z + v.y * b.r1.z + v.z * b.r2.z + v.w * b.r3.z) * k.z
    + (v.x * b.r0.w + v.y * b.r1.w + v.z * b.r2.w + v.w * b.r3.w) * k.w
  }

  lemma FirstRow(v: Row, b: Mat4, k: Row)
    ensures Dot(Times(v, b), k) == RowMatColumn(v, b, k)
  {
  }

  lemma FirstColumn(v: Row, b: Mat4, k: Row)
    ensures Dot(v, Row(Dot(b.r0, k), Dot(b.r1, k), Dot(b.r2, k), Dot(b.r3, k))) == RowMatColumn(v, b, k)
  {
  }

  lemma TimesAssoc(v: Row, b: Mat4, c: Mat4)
    ensures Times(Times(v, b), c) == Times(v, Mul(b, c))
  {
    hide Times, Dot, Column, RowMatColumn;
    TimesByColumns(Times(v, b), c);
    TimesByColumns(v, Mul(b, c));
    MulColumns(b, c);
    forall i: nat | i < 4
      ensures Dot(Times(v, b), Column(c, i)) == Dot(v, Column(Mul(b, c), i))
    {
      FirstRow(v, b, Column(c, i));
      FirstColumn(v, b, Column(c, i));
    }
  }

  lemma MulColumns(b: Mat4, c: Mat4)
    ensures forall i: nat :: i < 4 ==>
              Column(Mul(b, c), i)
              == Row(Dot(b.r0, Column(c, i)), Dot(b.r1, Column(c, i)), Dot(b.r2, Column(c, i)), Dot(b.r3, Column(c, i)))
  {
    hide Times, Dot;
    TimesByColumns(b.r0, c);
    TimesByColumns(b.r1, c);
    TimesByColumns(b.r2, c);
    TimesByColumns(b.r3, c);
  }

  lemma MulAssoc(a: Mat4, b: Mat4, c: Mat4)
    ensures Mul(Mul(a, b), c) == Mul(a, Mul(b, c))
  {
    hide Times;
    TimesAssoc(a.r0, b, c);
    TimesAssoc(a.r1, b, c);
    TimesAssoc(a.r2, b, c);
    TimesAssoc(a.r3, b, c);
  }

  lemma MulIdentity(m: Mat4)
    ensures Mul(IDENTITY, m) == m && Mul(m, IDENTITY) == m
  {
  }

  lemma MulAffine(a: Mat4, b: Mat4)
    requires IsAffine(a) && IsAffine(b)
    ensures IsAffine(Mul(a, b)) && Origin(Mul(a, b)) == TransformPoint(a, Origin(b))
  {
  }

  /** Multiplying affine matrices composes their maps. */
  lemma TransformMul(a: Mat4, b: Mat4, p: Vec3)
    requires IsAffine(a) && IsAffine(b)
    ensures TransformPoint(Mul(a, b), p) == TransformPoint(a, TransformPoint(b, p))
  {
    hide Times, Dot, RowMatColumn;
    var k := Row(p.x, p.y, p.z, 1.0);
    PointIsColumn(b, p);
    PointIsColumn(Mul(a, b), p);
    PointIsColumn(a, TransformPoint(b, p));
    FirstRow(a.r0, b, k);
    FirstRow(a.r1, b, k);
    FirstRow(a.r2, b, k);
    FirstColumn(a.r0, b, k);
    FirstColumn(a.r1, b, k);
    FirstColumn(a.r2, b, k);
    LastIsOne(b, p);
  }

  lemma PointIsColumn(m: Mat4, p: Vec3)
    ensures var k := Row(p.x, p.y, p.z, 1.0);
            TransformPoint(m, p) == Vec3(Dot(m.r0, k), Dot(m.r1, k), Dot(m.r2, k))
  {
  }

  lemma LastIsOne(m: Mat4, p: Vec3)
    requires IsAffine(m)
    ensures Dot(m.r3, Row(p.x, p.y, p.z, 1.0)) == 1.0
  {
  }

  /** An affine matrix is what it does to points. */
  lemma AffineByAction(a: Mat4, b: Mat4)
    requires IsAffine(a) && IsAffine(b) && forall p :: TransformPoint(a, p) == TransformPoint(b, p)
    ensures a == b
  {
    assert TransformPoint(a, ZERO) == TransformPoint(b, ZERO);
    assert TransformPoint(a, Vec3(1.0, 0.0, 0.0)) == TransformPoint(b, Vec3(1.0, 0.0, 0.0));
    assert TransformPoint(a, Vec3(0.0, 1.0, 0.0)) == TransformPoint(b, Vec3(0.0, 1.0, 0.0));
    assert TransformPoint(a, Vec3(0.0, 0.0, 1.0)) == TransformPoint(b, Vec3(0.0, 0.0, 1.0));
  }

  // ---- quaternions -----------------------------------------------------------------------------------------------

  lemma NormOf(q: Quat, x: real, y: real, z: real, w: real)
    requires q == Quat(x, y, z, w)
    ensures Norm2(q) == x * x + y * y + z * z + w * w
  {
  }

  lemma NormsProduct(a: Quat, b: Quat)
    ensures Norm2(a) * Norm2(b)
            == (a.x * a.x + a.y * a.y + a.z * a.z + a.w * a.w) * (b.x * b.x + b.y * b.y + b.z * b.z + b.w * b.w)
  {
  }

  lemma ProductNorm(a: Quat, b: Quat)
    ensures Norm2(QuatMul(a, b))
            == (a.x * a.x + a.y * a.y + a.z * a.z + a.w * a.w) * (b.x * b.x + b.y * b.y + b.z * b.z + b.w * b.w)
  {
    NormOf(QuatMul(a, b),
           a.w * b.x + a.x * b.w + a.y * b.z - a.z * b.y,
           a.w * b.y - a.x * b.z + a.y * b.w + a.z * b.x,
           a.w * b.z + a.x * b.y - a.y * b.x + a.z * b.w,
           a.w * b.w - a.x * b.x - a.y * b.y - a.z * b.z);
    hide Norm2, QuatMul;
  }

  lemma NormMul(a: Quat, b: Quat)
    ensures Norm2(QuatMul(a, b)) == Norm2(a) * Norm2(b)
  {
    hide Norm2, QuatMul;
    NormsProduct(a, b);
    ProductNorm(a, b);
  }

  function AsRow(q: Quat): Row { Row(q.x, q.y, q.z, q.w) }

  /** The matrix that multiplies by `q` from the left. */
  function LeftFactor(q: Quat): Mat4 {
    Mat4(Row(q.w, q.z, -q.y, -q.x), Row(-q.z, q.w, q.x, -q.y), Row(q.y, -q.x, q.w, -q.z), AsRow(q))
  }

  /** A product by the components of its factors. */
  lemma MulOf(a: Quat, b: Quat, x: real, y: real, z: real, w: real, p: real, q: real, r: real, s: real)
    requires a == Quat(x, y, z, w) && b == Quat(p, q, r, s)
    ensures QuatMul(a, b) == Quat(w * p + x * s + y * r - z * q, w * q - x * r + y * s + z * p,
                                  w * r + x * q - y * p + z * s, w * s - x * p - y * q - z * r)
  {
  }

  lemma FactorRow(q: Quat, b: Quat)
    ensures Times(AsRow(b), LeftFactor(q)) == AsRow(QuatMul(q, b))
  {
  }

  lemma TurnedX(a: Quat, b: Quat)
    ensures AsRow(QuatMul(a, Quat(b.w, b.z, -b.y, -b.x))) == LeftFactor(QuatMul(a, b)).r0
  {
    MulOf(a, b, a.x, a.y, a.z, a.w, b.x, b.y, b.z, b.w);
    MulOf(a, Quat(b.w, b.z, -b.y, -b.x), a.x, a.y, a.z, a.w, b.w, b.z, -b.y, -b.x);
    hide QuatMul;
  }

  lemma TurnedY(a: Quat, b: Quat)
    ensures AsRow(QuatMul(a, Quat(-b.z, b.w, b.x, -b.y))) == LeftFactor(QuatMul(a, b)).r1
  {
    MulOf(a, b, a.x, a.y, a.z, a.w, b.x, b.y, b.z, b.w);
    MulOf(a, Quat(-b.z, b.w, b.x, -b.y), a.x, a.y, a.z, a.w, -b.z, b.w, b.x, -b.y);
    hide QuatMul;
  }

  lemma TurnedZ(a: Quat, b: Quat)
    ensures AsRow(QuatMul(a, Quat(b.y, -b.x, b.w, -b.z))) == LeftFactor(QuatMul(a, b)).r2
  {
    MulOf(a, b, a.x, a.y, a.z, a.w, b.x, b.y, b.z, b.w);
    MulOf(a, Quat(b.y, -b.x, b.w, -b.z), a.x, a.y, a.z, a.w, b.y, -b.x, b.w, -b.z);
    hide QuatMul;
  }

  lemma FactorMul(a: Quat, b: Quat)
    ensures LeftFactor(QuatMul(a, b)) == Mul(LeftFactor(b), LeftFactor(a))
  {
    hide QuatMul, Times;
    FactorRow(a, Quat(b.w, b.z, -b.y, -b.x));
    FactorRow(a, Quat(-b.z, b.w, b.x, -b.y));
    FactorRow(a, Quat(b.y, -b.x, b.w, -b.z));
    FactorRow(a, b);
    TurnedX(a, b);
    TurnedY(a, b);
    TurnedZ(a, b);
  }

  lemma QuatAssoc(a: Quat, b: Quat, c: Quat)
    ensures QuatMul(QuatMul(a, b), c) == QuatMul(a, QuatMul(b, c))
  {
    hide QuatMul, Times, Mul, LeftFactor;
    FactorRow(QuatMul(a, b), c);
    FactorRow(b, c);
    FactorRow(a, QuatMul(b, c));
    FactorMul(a, b);
    TimesAssoc(AsRow(c), LeftFactor(b), LeftFactor(a));
  }

  function Conjugate(q: Quat): Quat { Quat(-q.x, -q.y, -q.z, q.w) }

  function Pure(v: Vec3): Quat { Quat(v.x, v.y, v.z, 0.0) }

  lemma ConjugateMul(a: Quat, b: Quat)
    ensures Conjugate(QuatMul(a, b)) == QuatMul(Conjugate(b), Conjugate(a))
  {
    MulOf(a, b, a.x, a.y, a.z, a.w, b.x, b.y, b.z, b.w);
    MulOf(Conjugate(b), Conjugate(a), -b.x, -b.y, -b.z, b.w, -a.x, -a.y, -a.z, a.w);
    hide QuatMul;
  }

  /** What a quaternion of any length does to a vector. */
  function Spin(q: Quat, v: Vec3): Vec3 {
    Vec3((q.w * q.w + q.x * q.x - q.y * q.y - q.z * q.z) * v.x + 2.0 * (q.x * q.y - q.w * q.z) * v.y
         + 2.0 * (q.x * q.z + q.w * q.y) * v.z,
         2.0 * (q.x * q.y + q.w * q.z) * v.x + (q.w * q.w - q.x * q.x + q.y * q.y - q.z * q.z) * v.y
         + 2.0 * (q.y * q.z - q.w * q.x) * v.z,
         2.0 * (q.x * q.z - q.w * q.y) * v.x + 2.0 * (q.y * q.z + q.w * q.x) * v.y
         + (q.w * q.w - q.x * q.x - q.y * q.y + q.z * q.z) * v.z)
  }

  /** A quarter turn about the third axis takes the first to the second, and so on round. */
  lemma QuarterTurns(s: real)
    requires s * s == 0.5
    ensures Spin(Quat(0.0, 0.0, s, s), Vec3(1.0, 0.0, 0.0)) == Vec3(0.0, 1.0, 0.0)
    ensures Spin(Quat(s, 0.0, 0.0, s), Vec3(0.0, 1.0, 0.0)) == Vec3(0.0, 0.0, 1.0)
    ensures Spin(Quat(0.0, s, 0.0, s), Vec3(0.0, 0.0, 1.0)) == Vec3(1.0, 0.0, 0.0)
  {
  }

  lemma SandwichX(q: Quat, v: Vec3)
    ensures QuatMul(QuatMul(q, Pure(v)), Conjugate(q)).x == Spin(q, v).x
  {
  }

  lemma SandwichY(q: Quat, v: Vec3)
    ensures QuatMul(QuatMul(q, Pure(v)), Conjugate(q)).y == Spin(q, v).y
  {
  }

  lemma SandwichZ(q: Quat, v: Vec3)
    ensures QuatMul(QuatMul(q, Pure(v)), Conjugate(q)).z == Spin(q, v).z
  {
  }

  lemma SandwichW(q: Quat, v: Vec3)
    ensures QuatMul(QuatMul(q, Pure(v)), Conjugate(q)).w == 0.0
  {
  }

  lemma SpinIsSandwich(q: Quat, v: Vec3)
    ensures QuatMul(QuatMul(q, Pure(v)), Conjugate(q)) == Pure(Spin(q, v))
  {
    hide QuatMul, Spin;
    SandwichX(q, v);
    SandwichY(q, v);
    SandwichZ(q, v);
    SandwichW(q, v);
  }

  lemma SpinCompose(a: Quat, b: Quat, v: Vec3)
    ensures Spin(QuatMul(a, b), v) == Spin(a, Spin(b, v))
  {
    hide QuatMul, Spin;
    var (a', b', p) := (Conjugate(a), Conjugate(b), Pure(v));
    var inner := QuatMul(QuatMul(b, p), b');
    SpinIsSandwich(QuatMul(a, b), v);
    SpinIsSandwich(b, v);
    SpinIsSandwich(a, Spin(b, v));
    ConjugateMul(a, b);
    calc {
      QuatMul(QuatMul(QuatMul(a, b), p), QuatMul(b', a'));
      { QuatAssoc(a, b, p); }
      QuatMul(QuatMul(a, QuatMul(b, p)), QuatMul(b', a'));
      { QuatAssoc(QuatMul(a, QuatMul(b, p)), b', a'); }
      QuatMul(QuatMul(QuatMul(a, QuatMul(b, p)), b'), a');
      { QuatAssoc(a, QuatMul(b, p), b'); }
      QuatMul(QuatMul(a, inner), a');
    }
  }

  lemma UnitX(q: Quat, t: Vec3, v: Vec3)
    requires IsUnit(q)
    ensures DotDir(FromQuatTrans(q, t).r0, v) == Spin(q, v).x
  {
    UnitDiagonal(q.x, q.y, q.z, q.w);
  }

  lemma UnitY(q: Quat, t: Vec3, v: Vec3)
    requires IsUnit(q)
    ensures DotDir(FromQuatTrans(q, t).r1, v) == Spin(q, v).y
  {
    UnitDiagonal(q.x, q.y, q.z, q.w);
  }

  lemma UnitZ(q: Quat, t: Vec3, v: Vec3)
    requires IsUnit(q)
    ensures DotDir(FromQuatTrans(q, t).r2, v) == Spin(q, v).z
  {
    UnitDiagonal(q.x, q.y, q.z, q.w);
  }

  /** The matrix of a unit quaternion spins a point and moves it. */
  lemma UnitAction(q: Quat, t: Vec3, p: Vec3)
    requires IsUnit(q)
    ensures TransformPoint(FromQuatTrans(q, t), p) == Add(Spin(q, p), t)
    ensures TransformDir(FromQuatTrans(q, t), p) == Spin(q, p)
  {
    hide DotDir, Spin, IsUnit;
    UnitX(q, t, p);
    UnitY(q, t, p);
    UnitZ(q, t, p);
  }

  lemma UnitDiagonal(x: real, y: real, z: real, w: real)
    requires x * x + y * y + z * z + w * w == 1.0
    ensures 1.0 - 2.0 * (y * y + z * z) == w * w + x * x - y * y - z * z
    ensures 1.0 - 2.0 * (x * x + z * z) == w * w - x * x + y * y - z * z
    ensures 1.0 - 2.0 * (x * x + y * y) == w * w - x * x - y * y + z * z
  {
  }

  lemma DotDirAdd(r: Row, u: Vec3, v: Vec3)
    ensures DotDir(r, Add(u, v)) == DotDir(r, u) + DotDir(r, v)
  {
    MulAdd(r.x, u.x, v.x, Add(u, v).x);
    MulAdd(r.y, u.y, v.y, Add(u, v).y);
    MulAdd(r.z, u.z, v.z, Add(u, v).z);
  }

  lemma MulAdd(k: real, x: real, y: real, sum: real)
    requires sum == x + y
    ensures k * sum == k * x + k * y
  {
  }

  lemma DirAdd(m: Mat4, u: Vec3, v: Vec3)
    ensures TransformDir(m, Add(u, v)) == Add(TransformDir(m, u), TransformDir(m, v))
  {
    hide DotDir;
    DotDirAdd(m.r0, u, v);
    DotDirAdd(m.r1, u, v);
    DotDirAdd(m.r2, u, v);
  }

  lemma SpinAdd(q: Quat, u: Vec3, v: Vec3)
    requires IsUnit(q)
    ensures Spin(q, Add(u, v)) == Add(Spin(q, u), Spin(q, v))
  {
    hide Spin, TransformDir, FromQuatTrans;
    UnitAction(q, ZERO, Add(u, v));
    UnitAction(q, ZERO, u);
    UnitAction(q, ZERO, v);
    DirAdd(FromQuatTrans(q, ZERO), u, v);
  }

  /** Multiplying two posed frames multiplies their rotations and carries the second origin through the first. */
  lemma QuatMulIsProduct(a: Quat, b: Quat, s: Vec3, t: Vec3)
    requires IsUnit(a) && IsUnit(b)
    ensures IsUnit(QuatMul(a, b))
    ensures Mul(FromQuatTrans(a, s), FromQuatTrans(b, t))
            == FromQuatTrans(QuatMul(a, b), TransformPoint(FromQuatTrans(a, s), t))
  {
    hide QuatMul, Spin, TransformPoint, Mul, Norm2;
    var (fa, fb) := (FromQuatTrans(a, s), FromQuatTrans(b, t));
    NormMul(a, b);
    var fab := FromQuatTrans(QuatMul(a, b), TransformPoint(fa, t));
    MulAffine(fa, fb);
    forall p
      ensures TransformPoint(Mul(fa, fb), p) == TransformPoint(fab, p)
    {
      TransformMul(fa, fb, p);
      UnitAction(b, t, p);
      UnitAction(a, s, t);
      UnitAction(a, s, Add(Spin(b, p), t));
      SpinAdd(a, Spin(b, p), t);
      UnitAction(QuatMul(a, b), TransformPoint(fa, t), p);
      SpinCompose(a, b, p);
    }
    AffineByAction(Mul(fa, fb), fab);
  }

  /** A unit quaternion's matrix turns vectors without stretching them. */
  lemma RotationKeepsLength(q: Quat, t: Vec3, v: Vec3)
    requires IsUnit(q)
    ensures Length2(TransformDir(FromQuatTrans(q, t), v)) == Length2(v)
  {
    hide QuatMul, Spin, TransformDir;
    UnitAction(q, t, v);
    SpinIsSandwich(q, v);
    NormMul(QuatMul(q, Pure(v)), Conjugate(q));
    NormMul(q, Pure(v));
    assert Norm2(Conjugate(q)) == Norm2(q);
    assert Norm2(Pure(v)) == Length2(v);
    assert Norm2(Pure(Spin(q, v))) == Length2(Spin(q, v));
  }
}
