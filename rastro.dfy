/** The time conversions, sidereal time, low-precision solar ephemeris and
    degree/minute/second split of Suntrack::RAstro.

    Ruby Floats are modelled as exact reals and Float#to_i as `Trunc`
    (rounding toward zero). The calendar date reaches `ToMjd` as six integer
    fields. */
module RAstro {
  import opened Libm
  import Frames
  import Points

  /** Epochs in Julian centuries since J2000. */
  const B1950_EPOCH: real := -0.500002108
  const J2000_EPOCH: real := 0.0

  datatype Option<T> = None | Some(value: T)

  // ---------------------------------------------------------------------
  // Numeric helpers

  /** Float#to_i: the integer part, rounding toward zero. */
  function Trunc(x: real): (n: int)
    ensures 0.0 <= x ==> 0 <= n && n as real <= x < n as real + 1.0
    ensures x < 0.0 ==> n <= 0 && n as real - 1.0 < x <= n as real
  {
    if x >= 0.0 then x.Floor else -((-x).Floor)
  }

  /** The fractional part, folded into [0, 1) by adding 1 when negative. */
  function Frac(x: real): (f: real)
    ensures f == x - x.Floor as real
    ensures 0.0 <= f < 1.0
  {
    var x1 := x - Trunc(x) as real;
    if x1 < 0.0 then x1 + 1.0 else x1
  }

  /** A whole number, negative or not, has fractional part 0. */
  lemma FracOfWhole(n: int)
    ensures Frac(n as real) == 0.0
  {
    assert (n as real).Floor == n;
  }

  // ---------------------------------------------------------------------
  // Julian dates

  /** Modified Julian Date to Julian Date. */
  function Jd(mjd: real): (jd: real)
    ensures jd - 2400000.5 == mjd
  {
    mjd + 2400000.5
  }

  /** Julian Date to Julian centuries since J2000.0 (JD 2451545.0). */
  function GetTime(jd: real): (t: real)
    ensures 2451545.0 + 36525.0 * t == jd
  {
    (jd - 2451545.0) / 36525.0
  }

  /** Centuries since J2000 for an MJD; zero exactly at MJD 51544.5, and the
      two epoch constants are the centuries of JD 2451545.0 and of
      JD 2433282.4230053. */
  lemma CenturiesSinceJ2000(mjd: real)
    ensures GetTime(Jd(mjd)) == (mjd - 51544.5) / 36525.0
    ensures GetTime(Jd(mjd)) == J2000_EPOCH <==> mjd == 51544.5
    ensures GetTime(2433282.4230053) == B1950_EPOCH
  {
  }

  // ---------------------------------------------------------------------
  // Sidereal time

  /** Greenwich mean sidereal time in hours, before reduction to a day. */
  function Gmst(mjd: real): real {
    var mjd0 := Trunc(mjd);
    var ut := (mjd - mjd0 as real) * 24.0;
    var t := (mjd0 as real - 51544.5) / 36525.0;
    6.697374558 + 1.0027379093 * ut + (8640184.812866 + (0.093104 - 0.0000062 * t) * t) * t / 3600.0
  }

  /** While the integer part of the MJD stays the same, sidereal time runs
      1.0027379093 times as fast as universal time. */
  lemma GmstSiderealRate(mjd: real, h: real)
    requires Trunc(mjd + h) == Trunc(mjd)
    ensures Gmst(mjd + h) - Gmst(mjd) == 1.0027379093 * 24.0 * h
  {
  }

  /** Local mean sidereal time in hours at longitude lambda (degrees). */
  function Lmst(mjd: real, lambda: real): (r: real)
    ensures 0.0 <= r < 24.0
  {
    24.0 * Frac((Gmst(mjd) - (lambda / 15.0)) / 24.0)
  }

  /** LMST is GMST - lambda/15 reduced by a whole number of days. */
  lemma {:induction false} LmstIsGmstModuloDay(mjd: real, lambda: real)
    ensures var days := (Lmst(mjd, lambda) - (Gmst(mjd) - lambda / 15.0)) / 24.0;
      days == days.Floor as real
  {
    var g := Gmst(mjd) - (lambda / 15.0);
    assert Lmst(mjd, lambda) == 24.0 * Frac(g / 24.0);
    FoldIsWholeDays(g);
  }

  lemma FoldIsWholeDays(g: real)
    ensures var days := (24.0 * Frac(g / 24.0) - g) / 24.0; days == days.Floor as real
  {
    var q := g / 24.0;
    var n := q.Floor;
    assert g == 24.0 * q;
    assert Frac(q) == q - n as real;
    assert 24.0 * Frac(q) - g == -24.0 * n as real;
    assert (24.0 * Frac(q) - g) / 24.0 == (-n) as real;
  }

  // ---------------------------------------------------------------------
  // Degrees, minutes, seconds

  /** Whole degrees (signed), whole minutes and seconds. */
  datatype Dms = Dms(degrees: int, minutes: int, seconds: real)

  /** Splits decimal degrees; only the degrees field carries the sign. */
  function GetDms(ddd: real): (r: Dms)
    ensures 0 <= r.minutes < 60 && 0.0 <= r.seconds < 60.0
    ensures Abs(r.degrees as real) == Abs(ddd).Floor as real
    ensures Abs(r.degrees as real) + r.minutes as real / 60.0 + r.seconds / 3600.0 == Abs(ddd)
    ensures r.degrees < 0 <==> ddd <= -1.0
  {
    var deg := Trunc(Abs(ddd));
    var d1 := (Abs(ddd) - deg as real) * 60.0;
    var mins := Trunc(d1);
    var secs := (d1 - mins as real) * 60.0;
    Dms(if ddd < 0.0 then -deg else deg, mins, secs)
  }

  /** The split as the source builds it: a fresh Point3D filled field by
      field, the degrees negated last. */
  method GetDmsPoint(ddd: real) returns (pt: Points.Point3D)
    ensures fresh(pt)
    ensures pt.Value() == Frames.Vec3(GetDms(ddd).degrees as real, GetDms(ddd).minutes as real, GetDms(ddd).seconds)
  {
    pt := new Points.Point3D(0.0, 0.0, 0.0);
    pt.x := Trunc(Abs(ddd)) as real;
    var d1 := (Abs(ddd) - pt.x) * 60.0;
    pt.y := Trunc(d1) as real;
    pt.z := (d1 - pt.y) * 60.0;
    if ddd < 0.0 {
      pt.x := -pt.x;
    }
  }

  /** Between -1 and 0 the sign is lost: the split equals that of -d. */
  lemma DmsSignLost(d: real)
    requires -1.0 < d < 0.0
    ensures GetDms(d) == GetDms(-d)
    ensures GetDms(d).degrees == 0
  {
  }

  /** Below one arc minute everything is in the seconds field. */
  lemma DmsBelowOneMinute(d: real)
    requires 0.0 <= d < 1.0 / 60.0
    ensures GetDms(d) == Dms(0, 0, d * 3600.0)
  {
  }

  // ---------------------------------------------------------------------
  // Low-precision solar ephemeris

  const P2: real := 6.283185307
  const CosEps: real := 0.91748
  const SinEps: real := 0.39778

  /** The Sun's ecliptic longitude in radians, t in Julian centuries since
      J2000. */
  function SunLongitude(m: Math, t: real): (l: real)
    ensures 0.0 <= l < P2
  {
    var ma := P2 * Frac(0.993133 + 99.997361 * t);
    var dl := 6893.0 * m.sin(ma) + 72.0 * m.sin(2.0 * ma);
    P2 * Frac(0.7859453 + ma / P2 + (6191.2 * t + dl) / 1296000.0)
  }

  /** The square root in the declination formula. */
  function SunRho(m: Math, t: real): real {
    var z := SinEps * m.sin(SunLongitude(m, t));
    Sqrt(m, 1.0 - z * z)
  }

  /** (0, declination in degrees, right ascension in hours folded into
      [0, 24)). None where a quotient would have a zero divisor. */
  function SunPosition(m: Math, t: real): (r: Option<Frames.Vec3>)
    ensures r.None? <==> SunRho(m, t) == 0.0 || m.cos(SunLongitude(m, t)) + SunRho(m, t) == 0.0
    ensures r.Some? ==> r.value.x == 0.0
  {
    var l := SunLongitude(m, t);
    var sl := m.sin(l);
    var x := m.cos(l);
    var y := CosEps * sl;
    var z := SinEps * sl;
    var rho := SunRho(m, t);
    if rho == 0.0 || x + rho == 0.0 then None
    else
      var declination := (360.0 / P2) * m.atan(z / rho);
      var rightAscension := (48.0 / P2) * m.atan(y / (x + rho));
      Some(Frames.Vec3(0.0, declination, if rightAscension < 0.0 then rightAscension + 24.0 else rightAscension))
  }

  /** The packed result has x = 0, right ascension in [0, 24) and the
      declination within 180 PI / P2 (just over 90) degrees. */
  lemma SunPositionRange(m: Math, t: real)
    requires Lawful(m)
    requires SunPosition(m, t).Some?
    ensures SunPosition(m, t).value.x == 0.0
    ensures 0.0 <= SunPosition(m, t).value.z < 24.0
    ensures -180.0 * PI / P2 < SunPosition(m, t).value.y < 180.0 * PI / P2
  {
    var l := SunLongitude(m, t);
    var sl := m.sin(l);
    var x := m.cos(l);
    var rho := SunRho(m, t);
    var ra := m.atan(CosEps * sl / (x + rho));
    assert -PI / 2.0 < ra < PI / 2.0;
    var dec := m.atan(SinEps * sl / rho);
    assert -PI / 2.0 < dec < PI / 2.0;
  }

  /** The square root is positive, so the result is None only where the
      right-ascension quotient is 0/0: sin l = 0 and cos l = -1. */
  lemma {:induction false} SunPositionUndefined(m: Math, t: real)
    requires Lawful(m)
    ensures SunRho(m, t) > 0.0
    ensures SunPosition(m, t).None? ==>
      m.sin(SunLongitude(m, t)) == 0.0 && m.cos(SunLongitude(m, t)) == -1.0
  {
    var l := SunLongitude(m, t);
    var sl := m.sin(l);
    var x := m.cos(l);
    var z := SinEps * sl;
    var rho := SunRho(m, t);
    SinCosBounded(m, l);
    var ss := sl * sl;
    assert z * z == SinEps * SinEps * ss;
    assert 1.0 - z * z > 0.0;
    SqrtLaw(m, 1.0 - z * z);
    assert rho * rho == 1.0 - z * z;
    assert rho > 0.0;
    if x + rho == 0.0 {
      assert x * x + ss == 1.0;
      assert x * x == rho * rho;
      assert ss * (1.0 - SinEps * SinEps) == 0.0;
      assert ss == 0.0;
      SquareZero(sl);
      SqrtOfSquare(m, 1.0);
      assert rho == 1.0;
    }
  }

  // ---------------------------------------------------------------------
  // Calendar date to Modified Julian Date

  /** A calendar timestamp as its six integer fields. */
  datatype DateTime = DateTime(year: int, month: int, mday: int, hour: int, min: int, sec: int)

  /** The date as the decimal number yyyymmdd. */
  function Composite(dt: DateTime): int {
    10000 * dt.year + 100 * dt.month + dt.mday
  }

  /** January and February count as months 13 and 14 of the previous year;
      the shift keeps the absolute month number 12 y + m. */
  function ShiftedYearMonth(dt: DateTime): (ym: (int, int))
    ensures 12 * ym.0 + ym.1 == 12 * dt.year + dt.month
    ensures 1 <= dt.month <= 12 ==> 3 <= ym.1 <= 14
    ensures dt.month > 2 ==> ym == (dt.year, dt.month)
  {
    if dt.month <= 2 then (dt.year - 1, dt.month + 12) else (dt.year, dt.month)
  }

  /** Leap days up to year y in the Gregorian and in the Julian count. */
  function GregorianLeapDays(y: int): int {
    y / 400 - y / 100 + y / 4
  }

  function JulianLeapDays(y: int): int {
    -2 + (y + 4716) / 4 - 1179
  }

  /** Days from March 1 to the first of shifted month m, plus 122. */
  function MonthOffset(m: int): int {
    Trunc(30.6001 * (m + 1) as real)
  }

  /** The integer part of the MJD at 0h on the given date. */
  function WholeDays(dt: DateTime): (d: int)
    ensures var (y, m) := ShiftedYearMonth(dt);
      d == 365 * y - 679004 + MonthOffset(m) + dt.mday
           + (if Composite(dt) <= 15821004 then JulianLeapDays(y) else GregorianLeapDays(y))
  {
    var a := Composite(dt);
    var (y, m) := ShiftedYearMonth(dt);
    var leapDays := if a as real <= 15821004.1 then JulianLeapDays(y) else GregorianLeapDays(y);
    (365 * y) - 679004 + leapDays + MonthOffset(m) + dt.mday
  }

  /** The time of day as a fraction of a day. */
  function DayFraction(dt: DateTime): (f: real)
    ensures 0 <= dt.hour < 24 && 0 <= dt.min < 60 && 0 <= dt.sec < 60 ==> 0.0 <= f < 1.0
  {
    (dt.hour as real / 24.0) + (dt.min as real / 1440.0) + (dt.sec as real / 86400.0)
  }

  /** The Modified Julian Date of a calendar timestamp. */
  function ToMjd(dt: DateTime): (mjd: real)
    ensures 0 <= dt.hour < 24 && 0 <= dt.min < 60 && 0 <= dt.sec < 60 ==> mjd.Floor == WholeDays(dt)
  {
    WholeDays(dt) as real + DayFraction(dt)
  }

  /** The cut-over test on the composite number is a test against 15821004. */
  lemma {:induction false} CutoverTest(dt: DateTime)
    ensures (Composite(dt) as real <= 15821004.1) <==> Composite(dt) <= 15821004
    ensures WholeDays(dt) == (if Composite(dt) <= 15821004
                              then 365 * ShiftedYearMonth(dt).0 - 679004 + JulianLeapDays(ShiftedYearMonth(dt).0)
                              else 365 * ShiftedYearMonth(dt).0 - 679004 + GregorianLeapDays(ShiftedYearMonth(dt).0))
                             + MonthOffset(ShiftedYearMonth(dt).1) + dt.mday
  {
  }

  /** For shifted months 3..14 the Float product truncates to the integer
      quotient 306001 (m + 1) / 10000. */
  lemma {:induction false} MonthOffsetExact(m: int)
    requires 3 <= m <= 14
    ensures MonthOffset(m) == (306001 * (m + 1)) / 10000
  {
    var p := 30.6001 * (m + 1) as real;
    var q := (306001 * (m + 1)) / 10000;
    assert 306001 * (m + 1) == 10000 * q + (306001 * (m + 1)) % 10000;
    assert p == (306001 * (m + 1)) as real / 10000.0;
    assert q as real <= p < q as real + 1.0;
  }

  /** The whole-day parts for the dates of the reference scenarios. */
  lemma ReferenceDates()
    ensures WholeDays(DateTime(1997, 8, 7, 11, 0, 0)) == 50667
    ensures WholeDays(DateTime(2004, 1, 3, 11, 0, 0)) == 53007
    ensures WholeDays(DateTime(2012, 9, 7, 19, 0, 0)) == 56177
    ensures ToMjd(DateTime(1997, 8, 7, 11, 0, 0)) == 50667.0 + 11.0 / 24.0
    ensures ToMjd(DateTime(2012, 9, 7, 19, 0, 0)) == 56177.0 + 19.0 / 24.0
  {
    assert MonthOffset(8) == 275;
    assert MonthOffset(13) == 428;
    assert MonthOffset(9) == 306;
  }
}
