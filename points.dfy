/** Suntrack::Point3D: a mutable triple whose transforms overwrite x, y and z
    in place. Every transform first copies the components it reads, so the
    new state is the corresponding `Frames` function of the old state. */
module Points {
  import opened Libm
  import Frames

  class Point3D {
    var x: real
    var y: real
    var z: real

    constructor (x: real, y: real, z: real)
      ensures this.x == x && this.y == y && this.z == z
    {
      this.x := x;
      this.y := y;
      this.z := z;
    }

    /** The three components as a value. */
    function Value(): Frames.Vec3
      reads this
    {
      Frames.Vec3(x, y, z)
    }

    /** Polar (r, theta, phi) to Cartesian. */
    method PolarToCartesian(m: Math)
      modifies this
      ensures Value() == Frames.PolarToCartesian(m, old(Value()))
      ensures Lawful(m) ==> Frames.Norm2(Value()) == old(x) * old(x)
    {
      var rcst := x * Frames.Cs(m, y);
      var z0 := x * Frames.Sn(m, y);
      x := rcst * Frames.Cs(m, z);
      y := rcst * Frames.Sn(m, z);
      z := z0;
      assert Value() == Frames.PolarToCartesian(m, old(Value()));
      if Lawful(m) {
        Frames.PolarToCartesianNorm(m, old(Value()));
      }
    }

    /** Multiplies the point by the ecliptic precession matrix; every row
        reads the saved old components. */
    method PrecessEclipticCartesian(m: Math, t1: real, t2: real)
      modifies this
      ensures Value() == Frames.Apply(Frames.PmatEcliptic(m, t1, t2), old(Value()))
      ensures Lawful(m) && t1 == t2 ==> Value() == old(Value())
    {
      var a := Frames.PmatEcliptic(m, t1, t2);
      var old0 := Frames.Vec3(x, y, z);
      x := Frames.Dot(a.r0, old0);
      y := Frames.Dot(a.r1, old0);
      z := Frames.Dot(a.r2, old0);
      if Lawful(m) && t1 == t2 {
        Frames.PmatEclipticSameEpoch(m, t1);
        Frames.ApplyIdentity(old0);
      }
    }

    /** Multiplies the point by the equatorial precession matrix. */
    method PrecessEquatorialCartesian(m: Math, t1: real, t2: real)
      modifies this
      ensures Value() == Frames.Apply(Frames.PmatEquatorial(m, t1, t2), old(Value()))
      ensures Lawful(m) && t1 == t2 ==> Value() == old(Value())
    {
      var a := Frames.PmatEquatorial(m, t1, t2);
      var old0 := Frames.Vec3(x, y, z);
      x := Frames.Dot(a.r0, old0);
      y := Frames.Dot(a.r1, old0);
      z := Frames.Dot(a.r2, old0);
      if Lawful(m) && t1 == t2 {
        Frames.PmatEquatorialSameEpoch(m, t1);
        Frames.ApplyIdentity(old0);
      }
    }

    /** Cartesian to polar (radius, latitude-like angle, azimuth). */
    method CartesianToPolar(m: Math)
      modifies this
      ensures Value() == Frames.CartesianToPolar(m, old(Value()))
    {
      var x0 := x;
      var y0 := y;
      var z0 := z;
      var rho := (x0 * x0) + (y0 * y0);
      x := Frames.Radius(m, rho, z0);
      z := Frames.Atn2(m, y0, x0);
      if z < 0.0 {
        z := z + 360.0;
      }
      y := Frames.Atn2(m, z0, Sqrt(m, rho));
      Frames.CartesianToPolarSteps(m, x0, y0, z0, rho);
    }

    /** Rotates y and z by the obliquity at epoch t; x is untouched. */
    method EclipticToEquatorial(m: Math, t: real)
      modifies this
      ensures Value() == Frames.EclipticToEquatorial(m, t, old(Value()))
      ensures x == old(x)
    {
      var eps := Frames.Obliquity(t);
      var c := Frames.Cs(m, eps);
      var s := Frames.Sn(m, eps);
      var y0 := y;
      var z0 := z;
      y := (y0 * c) - (s * z0);
      z := (y0 * s) + (c * z0);
    }

    /** Rotates y and z back by the obliquity at epoch t; x is untouched. */
    method EquatorialToEcliptic(m: Math, t: real)
      modifies this
      ensures Value() == Frames.EquatorialToEcliptic(m, t, old(Value()))
      ensures x == old(x)
    {
      var eps := Frames.Obliquity(t);
      var y0 := y;
      var z0 := z;
      var c := Frames.Cs(m, eps);
      var s := Frames.Sn(m, eps);
      y := (y0 * c) + (s * z0);
      z := (-1.0 * y0 * s) + (c * z0);
    }

    /** Reads (declination, hour angle, latitude) and returns a fresh point
        holding (radius, altitude, azimuth); the receiver is not modified. */
    method EquatorialToHorizon(m: Math) returns (pt: Point3D)
      ensures fresh(pt)
      ensures pt.Value() == Frames.EquatorialToHorizon(m, Value())
    {
      var csPhi := Frames.Cs(m, z);
      var snPhi := Frames.Sn(m, z);
      var csDec := Frames.Cs(m, x);
      var snDec := Frames.Sn(m, x);
      var csTau := Frames.Cs(m, y);
      var hx := csDec * snPhi * csTau - snDec * csPhi;
      var hy := csDec * Frames.Sn(m, y);
      var hz := csDec * csPhi * csTau + snDec * snPhi;
      assert Frames.Vec3(hx, hy, hz) == Frames.HorizonCartesian(m, Value());
      pt := new Point3D(hx, hy, hz);
      pt.CartesianToPolar(m);
    }
  }

  /** Ecliptic to equatorial and back at the same epoch restores the point. */
  method ObliquityRoundTrip(m: Math, t: real, p: Point3D)
    requires Lawful(m)
    modifies p
    ensures p.Value() == old(p.Value())
  {
    p.EclipticToEquatorial(m, t);
    p.EquatorialToEcliptic(m, t);
    Frames.ObliquityRotationsInverse(m, t, old(p.Value()));
  }
}
