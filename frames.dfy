/** The coordinate transforms of Suntrack::Point3D as functions on values.

    A point is three reals that mean either Cartesian (x, y, z) or polar
    (radius, latitude-like angle, longitude-like angle); angles are in
    degrees. `Points.Point3D` performs these transforms in place; the
    functions here say what each one computes, and the lemmas say what the
    results mean. */
module Frames {
  import opened Libm

  datatype Vec3 = Vec3(x: real, y: real, z: real)

  /** A 3x3 matrix given by its rows; `r0.y` is the entry at [0,1]. */
  datatype Mat3 = Mat3(r0: Vec3, r1: Vec3, r2: Vec3)

  const Identity: Mat3 := Mat3(Vec3(1.0, 0.0, 0.0), Vec3(0.0, 1.0, 0.0), Vec3(0.0, 0.0, 1.0))

  function Dot(a: Vec3, b: Vec3): real {
    a.x * b.x + a.y * b.y + a.z * b.z
  }

  /** The squared distance of a Cartesian point from the z axis. */
  function PlanarNorm2(v: Vec3): real {
    v.x * v.x + v.y * v.y
  }

  /** The squared length of a Cartesian point. */
  function Norm2(v: Vec3): real {
    Dot(v, v)
  }

  /** Row i of the result reads all three components of the original point. */
  function Apply(a: Mat3, v: Vec3): Vec3 {
    Vec3(Dot(a.r0, v), Dot(a.r1, v), Dot(a.r2, v))
  }

  lemma {:induction false} ApplyIdentity(v: Vec3)
    ensures Apply(Identity, v) == v
  {
  }

  // ---------------------------------------------------------------------
  // Trigonometry in degrees

  function Cs(m: Math, a: real): real {
    m.cos(PI * a / 180.0)
  }

  function Sn(m: Math, a: real): real {
    m.sin(PI * a / 180.0)
  }

  /** Radians to degrees, as `* 180 / PI`. */
  function Deg(rad: real): real {
    rad * 180.0 / PI
  }

  lemma CsSnUnit(m: Math, a: real)
    requires Lawful(m)
    ensures Cs(m, a) * Cs(m, a) + Sn(m, a) * Sn(m, a) == 1.0
    ensures Cs(m, 0.0) == 1.0 && Sn(m, 0.0) == 0.0
  {
  }

  /** The two-argument arctangent in degrees. Like the code it models, it
      passes the SIGNED ratio to atan before the quadrant corrections. */
  function Atn2(m: Math, y: real, x: real): (phi: real)
    ensures x == 0.0 && y == 0.0 ==> phi == 0.0
    ensures Lawful(m) ==> -270.0 < phi < 270.0
  {
    if x == 0.0 && y == 0.0 then 0.0
    else
      var phi0 := if Abs(y) >= Abs(x) then 90.0 - Deg(m.atan(x / y)) else Deg(m.atan(y / x));
      var phi1 := if x < 0.0 then 180.0 - phi0 else phi0;
      if y < 0.0 then -phi1 else phi1
  }

  /** On the axes the result is 0, 90, 180 or -90. */
  lemma Atn2OnAxes(m: Math, a: real)
    requires Lawful(m)
    requires a != 0.0
    ensures Atn2(m, 0.0, a) == (if a > 0.0 then 0.0 else 180.0)
    ensures Atn2(m, a, 0.0) == (if a > 0.0 then 90.0 else -90.0)
  {
    AtanOdd(m, 0.0);
    assert 0.0 / a == 0.0;
  }

  /** Because the signed ratio reaches atan before the sign of y is applied,
      a point below the x axis gets the same angle as its mirror image above
      it whenever x > 0 and |y| < |x|; that angle is never negative. */
  lemma Atn2SignedRatio(m: Math, y: real, x: real)
    requires Lawful(m)
    requires 0.0 < x && Abs(y) < Abs(x)
    ensures Atn2(m, y, x) == Atn2(m, -y, x)
    ensures 0.0 <= Atn2(m, y, x) < 90.0
  {
    var q := y / x;
    assert -y / x == -q;
    AtanOdd(m, q);
    var d := Deg(m.atan(q));
    assert Deg(m.atan(-q)) == -d;
    assert Atn2(m, y, x) == (if y < 0.0 then -d else d);
    assert Atn2(m, -y, x) == (if -y < 0.0 then d else -d);
    if y >= 0.0 {
      assert 0.0 <= q;
      assert 0.0 <= d < 90.0;
    } else {
      assert 0.0 <= -q;
      assert 0.0 <= Deg(m.atan(-q)) < 90.0;
    }
  }

  // ---------------------------------------------------------------------
  // Polar and Cartesian forms

  /** (r, theta, phi) to (r cos theta cos phi, r cos theta sin phi, r sin theta);
      theta is measured from the equatorial plane. */
  function PolarToCartesian(m: Math, p: Vec3): Vec3 {
    var rcst := p.x * Cs(m, p.y);
    var z := p.x * Sn(m, p.y);
    Vec3(rcst * Cs(m, p.z), rcst * Sn(m, p.z), z)
  }

  /** The radius is the length of the point, the azimuth (z) is folded into
      [0, 360) by one addition of 360. */
  function CartesianToPolar(m: Math, v: Vec3): Vec3 {
    var rho := PlanarNorm2(v);
    var az := Atn2(m, v.y, v.x);
    Vec3(Radius(m, rho, v.z), Atn2(m, v.z, Sqrt(m, rho)), if az < 0.0 then az + 360.0 else az)
  }

  /** The radius from the squared distance rho from the z axis and z. */
  function Radius(m: Math, rho: real, z: real): real {
    Sqrt(m, rho + z * z)
  }

  /** CartesianToPolar in the order the in-place update computes it, with
      rho the squared distance from the z axis: first the radius, then the
      azimuth folded into [0, 360), then the latitude-like angle. */
  lemma {:induction false} CartesianToPolarSteps(m: Math, x: real, y: real, z: real, rho: real)
    requires rho == (x * x) + (y * y)
    ensures var az := Atn2(m, y, x);
      CartesianToPolar(m, Vec3(x, y, z)) == Vec3(Radius(m, rho, z), Atn2(m, z, Sqrt(m, rho)), if az < 0.0 then az + 360.0 else az)
  {
    assert PlanarNorm2(Vec3(x, y, z)) == rho;
  }

  /** The radius is the non-negative square root of the squared length,
      the azimuth lies in [0, 360) and the latitude-like angle in (-270, 270). */
  lemma {:induction false} CartesianToPolarRange(m: Math, v: Vec3)
    requires Lawful(m)
    ensures var p := CartesianToPolar(m, v);
      0.0 <= p.x && p.x * p.x == Norm2(v) && 0.0 <= p.z < 360.0 && -270.0 < p.y < 270.0
  {
    var n := Norm2(v);
    SumOfSquaresNonNegative(v.x, v.y, v.z);
    SqrtLaw(m, n);
    RadiusIsSqrtOfNorm(m, v, n);
    var az := Atn2(m, v.y, v.x);
    assert -270.0 < az < 270.0;
    assert CartesianToPolar(m, v).z == if az < 0.0 then az + 360.0 else az;
  }

  /** Converting a polar point to Cartesian form preserves its length. */
  lemma PolarToCartesianNorm(m: Math, p: Vec3)
    requires Lawful(m)
    ensures Norm2(PolarToCartesian(m, p)) == p.x * p.x
  {
    CsSnUnit(m, p.y);
    CsSnUnit(m, p.z);
    SphericalNorm(p.x, Cs(m, p.y), Sn(m, p.y), Cs(m, p.z), Sn(m, p.z));
  }

  /** With theta = 0 the point lies in the xy plane at distance |r|. */
  lemma PolarToCartesianOnEquator(m: Math, p: Vec3)
    requires Lawful(m)
    requires p.y == 0.0
    ensures PolarToCartesian(m, p).z == 0.0
    ensures PolarToCartesian(m, p).x * PolarToCartesian(m, p).x
          + PolarToCartesian(m, p).y * PolarToCartesian(m, p).y == p.x * p.x
  {
    CsSnUnit(m, p.y);
    PolarToCartesianNorm(m, p);
  }

  /** Polar to Cartesian and back restores a non-negative radius. */
  lemma PolarRadiusRoundTrip(m: Math, p: Vec3)
    requires Lawful(m)
    requires 0.0 <= p.x
    ensures CartesianToPolar(m, PolarToCartesian(m, p)).x == p.x
  {
    SqrtOfSquare(m, p.x);
    assert Sqrt(m, p.x * p.x) == p.x;
    var c := PolarToCartesian(m, p);
    PolarToCartesianNorm(m, p);
    RadiusIsSqrtOfNorm(m, c, p.x * p.x);
  }

  /** CartesianToPolar is not injective: for x > 0 and |y| < |x| a point and
      its mirror image across the xz plane get the same polar form, because
      the signed-ratio atn2 gives both the same azimuth. So polar to
      Cartesian and back cannot restore the azimuth of both mirror images;
      (1, 0, -30) comes back with azimuth 30, not 330. */
  lemma {:induction false} CartesianToPolarMirror(m: Math, x: real, y: real, z: real)
    requires Lawful(m)
    requires 0.0 < x && Abs(y) < Abs(x)
    ensures CartesianToPolar(m, Vec3(x, y, z)) == CartesianToPolar(m, Vec3(x, -y, z))
  {
    var p, q := Vec3(x, y, z), Vec3(x, -y, z);
    MirrorPlanarNorm2(x, y, z);
    Atn2SignedRatio(m, y, x);
    assert Atn2(m, q.y, q.x) == Atn2(m, p.y, p.x);
  }

  lemma MirrorPlanarNorm2(x: real, y: real, z: real)
    ensures PlanarNorm2(Vec3(x, -y, z)) == PlanarNorm2(Vec3(x, y, z))
  {
    assert (-y) * (-y) == y * y;
  }

  /** The radius computed by CartesianToPolar is sqrt of the squared length. */
  lemma RadiusIsSqrtOfNorm(m: Math, v: Vec3, n: real)
    requires Norm2(v) == n
    ensures CartesianToPolar(m, v).x == Sqrt(m, n)
  {
    RadiusOfSum(m, PlanarNorm2(v), v.z, n);
  }

  lemma RadiusOfSum(m: Math, rho: real, z: real, n: real)
    requires rho + z * z == n
    ensures Radius(m, rho, z) == Sqrt(m, n)
  {
  }

  // ---------------------------------------------------------------------
  // Ecliptic and equatorial frames

  /** The mean obliquity of the ecliptic, in degrees, t in Julian centuries
      since J2000. */
  function Obliquity(t: real): real {
    23.43929111 - (46.815 + (0.00059 - 0.001813 * t) * t) * t / 3600.0
  }

  /** Rotation about the x axis by the obliquity at epoch t. */
  function EclipticToEquatorial(m: Math, t: real, v: Vec3): Vec3 {
    var eps := Obliquity(t);
    var c := Cs(m, eps);
    var s := Sn(m, eps);
    Vec3(v.x, (v.y * c) - (s * v.z), (v.y * s) + (c * v.z))
  }

  /** Rotation about the x axis by minus the obliquity at epoch t. */
  function EquatorialToEcliptic(m: Math, t: real, v: Vec3): Vec3 {
    var eps := Obliquity(t);
    var c := Cs(m, eps);
    var s := Sn(m, eps);
    Vec3(v.x, (v.y * c) + (s * v.z), (-1.0 * v.y * s) + (c * v.z))
  }

  /** The two obliquity rotations at the same epoch undo each other. */
  lemma {:induction false} ObliquityRotationsInverse(m: Math, t: real, v: Vec3)
    requires Lawful(m)
    ensures EquatorialToEcliptic(m, t, EclipticToEquatorial(m, t, v)) == v
    ensures EclipticToEquatorial(m, t, EquatorialToEcliptic(m, t, v)) == v
  {
    var eps := Obliquity(t);
    CsSnUnit(m, eps);
    RotationAlgebra(Cs(m, eps), Sn(m, eps), v.y, v.z);
  }

  /** Each obliquity rotation keeps x and preserves y^2 + z^2. */
  lemma {:induction false} ObliquityRotationsPreserveNorm(m: Math, t: real, v: Vec3)
    requires Lawful(m)
    ensures EclipticToEquatorial(m, t, v).x == v.x && EquatorialToEcliptic(m, t, v).x == v.x
    ensures var e := EclipticToEquatorial(m, t, v); e.y * e.y + e.z * e.z == v.y * v.y + v.z * v.z
    ensures var e := EquatorialToEcliptic(m, t, v); e.y * e.y + e.z * e.z == v.y * v.y + v.z * v.z
  {
    var eps := Obliquity(t);
    CsSnUnit(m, eps);
    RotationAlgebra(Cs(m, eps), Sn(m, eps), v.y, v.z);
  }

  // ---------------------------------------------------------------------
  // Precession

  /** Precession matrix in ecliptic coordinates from epoch t1 to epoch t2
      (Julian centuries since J2000). */
  function PmatEcliptic(m: Math, t1: real, t2: real): Mat3 {
    var sec := 3600.0;
    var dt := t2 - t1;
    var ppi := 174.876383889 + (((3289.4789 + 0.60622 * t1) * t1) + ((-869.8089 - 0.50491 * t1) + 0.03536 * dt) * dt) / sec;
    var pi := ((47.0029 - (0.06603 - 0.000598 * t1) * t1) + ((-0.03302 + 0.000598 * t1) + 0.000060 * dt) * dt) * dt / sec;
    var pa := ((5029.0966 + (2.22226 - 0.000042 * t1) * t1) + ((1.11113 - 0.000042 * t1) - 0.000006 * dt) * dt) * dt / sec;
    var c1 := Cs(m, ppi + pa);
    var c2 := Cs(m, pi);
    var c3 := Cs(m, ppi);
    var s1 := Sn(m, ppi + pa);
    var s2 := Sn(m, pi);
    var s3 := Sn(m, ppi);
    Mat3(Vec3(c1 * c3 + s1 * c2 * s3, c1 * s3 - s1 * c2 * c3, -s1 * s2),
         Vec3(s1 * c3 - c1 * c2 * s3, s1 * s3 + c1 * c2 * c3, c1 * s2),
         Vec3(s2 * s3, -s2 * c3, c2))
  }

  /** Precession matrix in equatorial coordinates from epoch t1 to epoch t2. */
  function PmatEquatorial(m: Math, t1: real, t2: real): Mat3 {
    var sec := 3600.0;
    var dt := t2 - t1;
    var zeta := ((2306.2181 + (1.39656 - 0.000139 * t1) * t1) + ((0.30188 - 0.000345 * t1) + 0.017998 * dt) * dt) * dt / sec;
    var z := zeta + ((0.79280 + 0.000411 * t1) + 0.000205 * dt) * dt * dt / sec;
    var theta := ((2004.3109 - (0.85330 + 0.000217 * t1) * t1) - ((0.42665 + 0.000217 * t1) + 0.041833 * dt) * dt) * dt / sec;
    var c1 := Cs(m, z);
    var c2 := Cs(m, theta);
    var c3 := Cs(m, zeta);
    var s1 := Sn(m, z);
    var s2 := Sn(m, theta);
    var s3 := Sn(m, zeta);
    Mat3(Vec3(-s1 * s3 + c1 * c2 * c3, -s1 * c3 - c1 * c2 * s3, -c1 * s2),
         Vec3(c1 * s3 + s1 * c2 * c3, c1 * c3 - s1 * c2 * s3, -s1 * s2),
         Vec3(s2 * c3, -s2 * s3, c2))
  }

  /** Precessing from an epoch to itself is the identity. */
  lemma {:induction false} PmatEclipticSameEpoch(m: Math, t: real)
    requires Lawful(m)
    ensures PmatEcliptic(m, t, t) == Identity
  {
    var ppi := 174.876383889 + (((3289.4789 + 0.60622 * t) * t) + ((-869.8089 - 0.50491 * t) + 0.03536 * 0.0) * 0.0) / 3600.0;
    CsSnUnit(m, ppi);
    var c, s := Cs(m, ppi), Sn(m, ppi);
    assert c * c + s * 1.0 * s == 1.0;
    assert c * s - s * 1.0 * c == 0.0;
    assert s * c - c * 1.0 * s == 0.0;
    assert s * s + c * 1.0 * c == 1.0;
  }

  lemma {:induction false} PmatEquatorialSameEpoch(m: Math, t: real)
    requires Lawful(m)
    ensures PmatEquatorial(m, t, t) == Identity
  {
    CsSnUnit(m, 0.0);
  }

  // ---------------------------------------------------------------------
  // Horizon frame

  /** The Cartesian horizon-frame point for (declination, hour angle,
      latitude) given in x, y and z. */
  function HorizonCartesian(m: Math, v: Vec3): Vec3 {
    var csPhi := Cs(m, v.z);
    var snPhi := Sn(m, v.z);
    var csDec := Cs(m, v.x);
    var snDec := Sn(m, v.x);
    var csTau := Cs(m, v.y);
    Vec3(csDec * snPhi * csTau - snDec * csPhi,
         csDec * Sn(m, v.y),
         csDec * csPhi * csTau + snDec * snPhi)
  }

  /** (radius, altitude, azimuth) of the point in the horizon frame. */
  function EquatorialToHorizon(m: Math, v: Vec3): Vec3 {
    CartesianToPolar(m, HorizonCartesian(m, v))
  }

  /** The horizon-frame intermediate is a unit vector. */
  lemma {:induction false} HorizonCartesianUnit(m: Math, v: Vec3)
    requires Lawful(m)
    ensures Norm2(HorizonCartesian(m, v)) == 1.0
  {
    var cd, sd, ct, st, cp, sp := Cs(m, v.x), Sn(m, v.x), Cs(m, v.y), Sn(m, v.y), Cs(m, v.z), Sn(m, v.z);
    CsSnUnit(m, v.x);
    CsSnUnit(m, v.y);
    CsSnUnit(m, v.z);
    assert HorizonCartesian(m, v) == Vec3(cd * sp * ct - sd * cp, cd * st, cd * cp * ct + sd * sp);
    HorizonAlgebra(cd, sd, ct, st, cp, sp);
  }

  /** The horizon position has radius 1 and an azimuth in [0, 360). */
  lemma {:induction false} EquatorialToHorizonRange(m: Math, v: Vec3)
    requires Lawful(m)
    ensures EquatorialToHorizon(m, v).x == 1.0
    ensures 0.0 <= EquatorialToHorizon(m, v).z < 360.0
  {
    var h := HorizonCartesian(m, v);
    HorizonCartesianUnit(m, v);
    SqrtOfSquare(m, 1.0);
    RadiusIsSqrtOfNorm(m, h, 1.0 * 1.0);
    CartesianToPolarRange(m, h);
  }

  // ---------------------------------------------------------------------
  // Algebra on plain reals used by the lemmas above

  lemma SumOfSquaresNonNegative(a: real, b: real, c: real)
    ensures 0.0 <= a * a + b * b && 0.0 <= a * a + b * b + c * c
  {
    var aa, bb, cc := a * a, b * b, c * c;
    assert 0.0 <= aa && 0.0 <= bb && 0.0 <= cc;
  }

  lemma SphericalNorm(r: real, ct: real, st: real, cp: real, sp: real)
    requires ct * ct + st * st == 1.0
    requires cp * cp + sp * sp == 1.0
    ensures (r * ct * cp) * (r * ct * cp) + (r * ct * sp) * (r * ct * sp) + (r * st) * (r * st) == r * r
  {
    var q := r * ct;
    calc {
      (q * cp) * (q * cp) + (q * sp) * (q * sp) + (r * st) * (r * st);
      q * q * (cp * cp + sp * sp) + r * r * (st * st);
      q * q + r * r * (st * st);
      r * r * (ct * ct) + r * r * (st * st);
      r * r * (ct * ct + st * st);
      r * r;
    }
  }

  lemma RotationAlgebra(c: real, s: real, y: real, z: real)
    requires c * c + s * s == 1.0
    ensures var y1, z1 := (y * c) - (s * z), (y * s) + (c * z);
      (y1 * c) + (s * z1) == y && (-1.0 * y1 * s) + (c * z1) == z && y1 * y1 + z1 * z1 == y * y + z * z
    ensures var y1, z1 := (y * c) + (s * z), (-1.0 * y * s) + (c * z);
      (y1 * c) - (s * z1) == y && (y1 * s) + (c * z1) == z && y1 * y1 + z1 * z1 == y * y + z * z
  {
    var cc, ss := c * c, s * s;
    calc {
      ((y * c) - (s * z)) * c + s * ((y * s) + (c * z));
      y * (cc + ss);
      y;
    }
    calc {
      -1.0 * ((y * c) - (s * z)) * s + c * ((y * s) + (c * z));
      z * (cc + ss);
      z;
    }
    calc {
      ((y * c) - (s * z)) * ((y * c) - (s * z)) + ((y * s) + (c * z)) * ((y * s) + (c * z));
      (y * y + z * z) * (cc + ss);
      y * y + z * z;
    }
    calc {
      ((y * c) + (s * z)) * c - s * ((-1.0 * y * s) + (c * z));
      y * (cc + ss);
      y;
    }
    calc {
      ((y * c) + (s * z)) * s + c * ((-1.0 * y * s) + (c * z));
      z * (cc + ss);
      z;
    }
    calc {
      ((y * c) + (s * z)) * ((y * c) + (s * z)) + ((-1.0 * y * s) + (c * z)) * ((-1.0 * y * s) + (c * z));
      (y * y + z * z) * (cc + ss);
      y * y + z * z;
    }
  }

  lemma HorizonAlgebra(cd: real, sd: real, ct: real, st: real, cp: real, sp: real)
    requires cd * cd + sd * sd == 1.0
    requires ct * ct + st * st == 1.0
    requires cp * cp + sp * sp == 1.0
    ensures Norm2(Vec3(cd * sp * ct - sd * cp, cd * st, cd * cp * ct + sd * sp)) == 1.0
  {
    var x, y, z := cd * sp * ct - sd * cp, cd * st, cd * cp * ct + sd * sp;
    calc {
      x * x + z * z;
      (cd * ct) * (cd * ct) * (sp * sp + cp * cp) + (sd * sd) * (cp * cp + sp * sp);
      (cd * ct) * (cd * ct) + sd * sd;
    }
    calc {
      x * x + y * y + z * z;
      (cd * cd) * (ct * ct + st * st) + sd * sd;
      cd * cd + sd * sd;
      1.0;
    }
  }
}
