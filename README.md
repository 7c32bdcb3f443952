# Suntrack core in Dafny

Suntrack ports the low-precision routines of Montenbruck and Pfleger's
*Astronomy on the Personal Computer* to Ruby. This project models its two core
classes:

- `Suntrack::RAstro` holds the calendar and time conversions. `to_mjd` turns a
  date into a Modified Julian Date. `jd` and `get_time` convert that to Julian
  centuries since J2000. The class also holds `frac`, the
  degree/minute/second split `get_dms`, local mean sidereal time `lmst`, and
  the low-precision Sun position `sun_position`.
- `Suntrack::Point3D` is a mutable triple. Its bang methods convert between
  polar and Cartesian form, precess between epochs, and rotate by the
  obliquity of the ecliptic. `equatorial_to_horizon` returns a fresh point
  with altitude and azimuth.

Modules:

- `Libm` holds Ruby's `Math` functions `sin`, `cos`, `atan` and `sqrt`. The
  model takes them as a parameter `m: Math`. `Lawful(m)` lists the only facts
  the proofs use: sin² + cos² = 1, sin 0 = 0, cos 0 = 1, atan odd, atan in
  (−π/2, π/2), atan non-negative on non-negative input, and sqrt the
  non-negative square root.
- `Frames` gives each Point3D transform as a function on a `Vec3` value. This
  includes the degree-based `cs`/`sn`, `atn2` and the two precession
  matrices. The lemmas here state what the transforms mean.
- `Points` holds `class Point3D` with fields `x`, `y`, `z`. Each bang method
  has `modifies this`. Its postcondition says the new state is the `Frames`
  function of the old state. The equatorial-to-horizon method returns a fresh
  point and leaves the receiver alone.
- `RAstro` holds the time conversions, the sidereal time, the solar
  ephemeris and the integer day count of `to_mjd`.
- `Calendar` defines the Julian and Gregorian calendars independently of the
  source: leap years, month lengths and the next day. Against it, the model
  proves the following about the `to_mjd` day count:
  - the day count rises by exactly one from each date to the next;
  - it does so on both sides of the 1582 reform;
  - 4 October 1582 is followed by 15 October 1582.

Ruby Floats are modelled as exact reals. `Float#to_i` becomes `Trunc`, which
rounds toward zero. Ruby's integer `/` floors, so for the positive divisors
used here it is Dafny's `/`. A date comes in as six integer fields.

## Model

| member | source | states |
|---|---|---|
| RAstro.Trunc | lib/suntrack/RAstro.rb:95 | Float#to_i: the integer between 0 and x that is less than 1 away from x |
| RAstro.Frac | lib/suntrack/RAstro.rb:94-98 | frac(x) is x − ⌊x⌋, so it lies in [0, 1) for negative x as well |
| RAstro.FracOfWhole | lib/suntrack/RAstro.rb:94-98 | every whole number, negative ones included, has frac 0 |
| RAstro.Jd | lib/suntrack/RAstro.rb:82-84 | jd is undone by subtracting 2400000.5 |
| RAstro.GetTime | lib/suntrack/RAstro.rb:89-91 | get_time is undone by 2451545 + 36525 t |
| RAstro.CenturiesSinceJ2000 | lib/suntrack/RAstro.rb:8-9 | get_time(jd(mjd)) = (mjd − 51544.5)/36525; it is J2000_EPOCH exactly when mjd = 51544.5; B1950_EPOCH is get_time of JD 2433282.4230053 |
| RAstro.Gmst | lib/suntrack/RAstro.rb:42-45 | no contract of its own: Greenwich sidereal time before the fold, from ut = (mjd − mjd.to_i)·24 and the centuries t of the day's start; GmstSiderealRate and LmstIsGmstModuloDay state what it means |
| RAstro.GmstSiderealRate | lib/suntrack/RAstro.rb:42-45 | while mjd.to_i stays the same, gmst grows by 1.0027379093 sidereal hours per hour of universal time |
| RAstro.Lmst | lib/suntrack/RAstro.rb:41-48 | lmst always lies in [0, 24) |
| RAstro.LmstIsGmstModuloDay | lib/suntrack/RAstro.rb:42-46 | lmst differs from gmst − λ/15 by a whole number of days |
| RAstro.GetDms | lib/suntrack/RAstro.rb:52-60 | minutes are whole and in [0, 60) and seconds are in [0, 60); \|degrees\| is ⌊\|d\|⌋; \|degrees\| + minutes/60 + seconds/3600 = \|d\|; degrees is negative exactly when d ≤ −1 |
| RAstro.GetDmsPoint | lib/suntrack/RAstro.rb:52-60 | filling a fresh Point3D field by field gives exactly the GetDms split |
| RAstro.DmsSignLost | lib/suntrack/RAstro.rb:58 | for −1 < d < 0 the split equals that of −d, so the sign is lost |
| RAstro.DmsBelowOneMinute | lib/suntrack/RAstro.rb:52-60 | below one arc minute the split is (0, 0, 3600 d) |
| RAstro.SunLongitude | lib/suntrack/RAstro.rb:25-27 | the ecliptic longitude l is folded into [0, p2) by frac |
| RAstro.SunRho | lib/suntrack/RAstro.rb:32 | no contract of its own: sqrt(1 − z²) with z = sineps·sin l; SunPositionUndefined proves it positive under the laws |
| RAstro.SunPosition | lib/suntrack/RAstro.rb:17-37 | the result is undefined exactly when rho = 0 or x + rho = 0, the two divisors of lines 33-34; a defined result packs x = 0; SunPositionRange gives its ranges |
| RAstro.SunPositionRange | lib/suntrack/RAstro.rb:33-36 | when it is defined, sun_position packs x = 0, right ascension in [0, 24) and a declination within 180·π/p2 degrees |
| RAstro.SunPositionUndefined | lib/suntrack/RAstro.rb:32-34 | rho = sqrt(1 − z²) is positive, so a quotient has a zero divisor only when sin l = 0 and cos l = −1 |
| RAstro.ShiftedYearMonth | lib/suntrack/RAstro.rb:66-71 | January and February become months 13 and 14 of the previous year; 12·y + m is unchanged; other months keep their year |
| RAstro.Composite | lib/suntrack/RAstro.rb:65 | no contract of its own: the integer yyyymmdd; CutoverTest shows that comparing it with 15821004.1 compares it with 15821004 |
| RAstro.GregorianLeapDays | lib/suntrack/RAstro.rb:72 | no contract of its own: y/400 − y/100 + y/4 with floor division; GregorianLeapStep shows it counts the Gregorian leap years |
| RAstro.JulianLeapDays | lib/suntrack/RAstro.rb:74 | no contract of its own: −2 + (y+4716)/4 − 1179; JulianLeapStep shows it counts the Julian leap years |
| RAstro.MonthOffset | lib/suntrack/RAstro.rb:77 | no contract of its own: (30.6001·(m+1)).to_i; MonthOffsetExact and MonthOffsetTable give its values for the shifted months 3..14 |
| RAstro.WholeDays | lib/suntrack/RAstro.rb:65-77 | the integer part of the MJD is 365·y − 679004 + the month offset + the day, plus the Julian leap-day count up to 1582-10-04 and the Gregorian count after; the Calendar lemmas check it against the calendar |
| RAstro.DayFraction | lib/suntrack/RAstro.rb:77 | for a valid time of day, hour/24 + min/1440 + sec/86400 lies in [0, 1) |
| RAstro.ToMjd | lib/suntrack/RAstro.rb:64-78 | for a valid time of day the whole part of the MJD is the day count |
| RAstro.CutoverTest | lib/suntrack/RAstro.rb:65-75 | the test a ≤ 15821004.1 on the integer composite is a ≤ 15821004; it picks the Julian count up to 1582-10-04 and the Gregorian count after |
| RAstro.MonthOffsetExact | lib/suntrack/RAstro.rb:77 | for shifted months 3..14, (30.6001·(m+1)).to_i is the integer quotient 306001·(m+1)/10000 |
| RAstro.ReferenceDates | lib/suntrack/RAstro.rb:64-78 | the day counts are 50667 for 1997-08-07, 53007 for 2004-01-03 and 56177 for 2012-09-07, as in test/test_sun_points.rb |
| Calendar.NextDay | lib/suntrack/RAstro.rb:64-78 | the next calendar day is a valid date with a larger composite yyyymmdd and the same time of day |
| Calendar.MonthOffsetTable | lib/suntrack/RAstro.rb:77 | the month offsets are 122, 153, …, 459, and their differences are the month lengths from March to January |
| Calendar.MonthOffsetStep | lib/suntrack/RAstro.rb:77 | from one shifted month to the next the offset grows by the length of the earlier month, 30 or 31 days |
| Calendar.GregorianLeapStep | lib/suntrack/RAstro.rb:72 | y/400 − y/100 + y/4 grows by one from y − 1 to y exactly when y is a Gregorian leap year |
| Calendar.JulianLeapStep | lib/suntrack/RAstro.rb:74 | −2 + (y+4716)/4 − 1179 grows by one exactly when y is a Julian leap year |
| Calendar.PlainDaysStep | lib/suntrack/RAstro.rb:66-77 | leaving out the leap days, the next day counts one more, except at the end of a 29-day February |
| Calendar.NextDayGregorian | lib/suntrack/RAstro.rb:64-78 | after the reform, the next day's count and MJD are exactly one greater, across month and year ends |
| Calendar.NextDayJulian | lib/suntrack/RAstro.rb:64-78 | up to the reform, the next day's count and MJD are exactly one greater |
| Calendar.FebruaryToMarch | lib/suntrack/RAstro.rb:64-78 | from 28 February to 1 March the MJD rises by 2 in a Gregorian leap year and by 1 otherwise |
| Calendar.CalendarCutover | lib/suntrack/RAstro.rb:73-75 | 4 October 1582 counts −100841 and 15 October 1582 counts −100840, one day apart |
| Libm.AtanOdd | lib/suntrack/Point3D.rb:192-194 | atan(−a) = −atan(a), and atan 0 = 0 |
| Libm.SqrtOfSquare | lib/suntrack/Point3D.rb:66 | sqrt(r²) = r for r ≥ 0 |
| Frames.Cs | lib/suntrack/Point3D.rb:182-184 | no contract of its own: cos of an angle in degrees; CsSnUnit states cs² + sn² = 1 and the values at 0 |
| Frames.Sn | lib/suntrack/Point3D.rb:185-187 | no contract of its own: sin of an angle in degrees; CsSnUnit states cs² + sn² = 1 and the values at 0 |
| Frames.CsSnUnit | lib/suntrack/Point3D.rb:182-187 | cs² + sn² = 1, cs 0 = 1, sn 0 = 0 |
| Frames.Atn2 | lib/suntrack/Point3D.rb:188-199 | atn2(0, 0) = 0; otherwise, under the laws, the result lies in (−270, 270) |
| Frames.Atn2OnAxes | lib/suntrack/Point3D.rb:188-199 | on the y axis the result is ±90 and on the x axis it is 0 or 180 |
| Frames.Atn2SignedRatio | lib/suntrack/Point3D.rb:192-197 | for x > 0 and \|y\| < \|x\|, atn2(y, x) = atn2(−y, x) and lies in [0, 90), because the signed ratio goes to atan before the sign flip |
| Frames.PolarToCartesian | lib/suntrack/Point3D.rb:21-28 | no contract of its own: the value form of polar_to_cartesian!, which Point3D.PolarToCartesian is proved to produce; PolarToCartesianNorm and PolarToCartesianOnEquator state what it means |
| Frames.CartesianToPolar | lib/suntrack/Point3D.rb:60-70 | no contract of its own: the value form of cartesian_to_polar!; CartesianToPolarRange, PolarRadiusRoundTrip and CartesianToPolarMirror state what it means |
| Frames.CartesianToPolarSteps | lib/suntrack/Point3D.rb:62-69 | with rho = x² + y², the radius sqrt(rho + z²), the azimuth atn2(y, x) folded into [0, 360) and the angle atn2(z, sqrt(rho)) are the polar form of (x, y, z) |
| Frames.PolarToCartesianNorm | lib/suntrack/Point3D.rb:21-28 | polar to Cartesian gives a point of squared length r² |
| Frames.PolarToCartesianOnEquator | lib/suntrack/Point3D.rb:21-28 | with θ = 0 the new z is 0 and x² + y² = r² |
| Frames.PolarRadiusRoundTrip | lib/suntrack/Point3D.rb:60-70 | polar to Cartesian and back restores a non-negative radius |
| Frames.CartesianToPolarMirror | lib/suntrack/Point3D.rb:60-70 | for x > 0 and \|y\| < \|x\|, the points (x, y, z) and (x, −y, z) have the same polar form, so cartesian_to_polar! is not injective |
| Frames.CartesianToPolarRange | lib/suntrack/Point3D.rb:60-70 | the new x is the non-negative root of x² + y² + z², the azimuth is in [0, 360) and the middle angle is in (−270, 270) |
| Frames.Obliquity | lib/suntrack/Point3D.rb:79 | no contract of its own: the mean obliquity 23.43929111 − (46.815 + (0.00059 − 0.001813 t) t) t / 3600 degrees, shared by both rotations |
| Frames.EclipticToEquatorial | lib/suntrack/Point3D.rb:74-86 | no contract of its own: the value form of ecliptic_to_equatorial!; ObliquityRotationsInverse and ObliquityRotationsPreserveNorm state what it means |
| Frames.EquatorialToEcliptic | lib/suntrack/Point3D.rb:89-102 | no contract of its own: the value form of equatorial_to_ecliptic!; ObliquityRotationsInverse and ObliquityRotationsPreserveNorm state what it means |
| Frames.ObliquityRotationsInverse | lib/suntrack/Point3D.rb:74-102 | ecliptic→equatorial and equatorial→ecliptic at the same t undo each other, in both orders |
| Frames.ObliquityRotationsPreserveNorm | lib/suntrack/Point3D.rb:84-101 | each obliquity rotation keeps x and preserves y² + z² |
| Frames.ApplyIdentity | lib/suntrack/Point3D.rb:39-41 | applying the identity matrix row by row gives the point back |
| Frames.PmatEcliptic | lib/suntrack/Point3D.rb:127-150 | no contract of its own: the nine entries of the ecliptic precession matrix as written; PmatEclipticSameEpoch proves it is the identity when t1 = t2 |
| Frames.PmatEquatorial | lib/suntrack/Point3D.rb:156-179 | no contract of its own: the nine entries of the equatorial precession matrix as written; PmatEquatorialSameEpoch proves it is the identity when t1 = t2 |
| Frames.PmatEclipticSameEpoch | lib/suntrack/Point3D.rb:127-150 | pmat_ecliptic(t, t) is the identity |
| Frames.PmatEquatorialSameEpoch | lib/suntrack/Point3D.rb:156-179 | pmat_equatorial(t, t) is the identity |
| Frames.HorizonCartesian | lib/suntrack/Point3D.rb:108-115 | no contract of its own: the horizon-frame Cartesian point built from cs and sn of the declination, hour angle and latitude; HorizonCartesianUnit states it is a unit vector |
| Frames.EquatorialToHorizon | lib/suntrack/Point3D.rb:107-119 | no contract of its own: the polar form of HorizonCartesian, the value that equatorial_to_horizon returns; EquatorialToHorizonRange states its radius and azimuth |
| Frames.HorizonCartesianUnit | lib/suntrack/Point3D.rb:107-115 | the Cartesian horizon-frame intermediate has x² + y² + z² = 1 |
| Frames.EquatorialToHorizonRange | lib/suntrack/Point3D.rb:107-119 | the returned point has radius 1 and an azimuth in [0, 360) |
| Points.Point3D.PolarToCartesian | lib/suntrack/Point3D.rb:21-28 | the new fields are (r·cs θ·cs φ, r·cs θ·sn φ, r·sn θ) of the old fields; under the laws the new squared length is the old r² |
| Points.Point3D.PrecessEclipticCartesian | lib/suntrack/Point3D.rb:34-42 | the new point is pmat_ecliptic(t1, t2) times the saved old point; for t1 = t2 it is unchanged |
| Points.Point3D.PrecessEquatorialCartesian | lib/suntrack/Point3D.rb:48-56 | the new point is pmat_equatorial(t1, t2) times the saved old point; for t1 = t2 it is unchanged |
| Points.Point3D.CartesianToPolar | lib/suntrack/Point3D.rb:60-70 | x, then z, then y are overwritten from the saved old components; the new fields are the polar form of the old fields |
| Points.Point3D.EclipticToEquatorial | lib/suntrack/Point3D.rb:74-86 | y and z are rotated by the obliquity at t; x is untouched |
| Points.Point3D.EquatorialToEcliptic | lib/suntrack/Point3D.rb:89-102 | y and z are rotated back by the obliquity at t; x is untouched |
| Points.Point3D.EquatorialToHorizon | lib/suntrack/Point3D.rb:107-119 | returns a fresh point holding the horizon polar form of the receiver; the receiver is not modified |
| Points.ObliquityRoundTrip | lib/suntrack/Point3D.rb:74-102 | ecliptic_to_equatorial! then equatorial_to_ecliptic! on a point restores all three fields |

## Left out

- Numeric values from libm and IEEE doubles are not modelled. Examples are the precession output, the Sun's declination and right ascension, the Sirius altitude and azimuth, and rounding with `round(n)`. `sin`, `cos`, `atan` and `sqrt` are parameters with only the laws listed above.
- The precession and solar-ephemeris coefficients are transcribed. Nothing is proved about them beyond the identity at equal epochs and the range folds.
- RAstro.SunPosition: where Ruby divides by zero and gets Infinity or NaN, the model returns `None`. `SunPositionUndefined` shows this happens only when sin l = 0 and cos l = −1.
- Frames.Atn2: when x = 0 the source also computes atan(y/x), a Float division by zero, and then discards it. The model evaluates only the branch that is used.
- Frames.CartesianToPolar: `Math.sqrt` raises on a negative argument. The arguments here are sums of squares, so under the laws they are never negative and the error path is not modelled.
- Frames.PolarRadiusRoundTrip: only the radius of a polar point round-trips. The angles do not. `atn2` passes the signed ratio y/x to atan (lib/suntrack/Point3D.rb:192), so a point and its mirror image across the xz plane get the same azimuth whenever x > 0 and |y| < |x|. `CartesianToPolarMirror` proves this. For example, the polar point (1, 0, −30) becomes (0.866…, −0.5, 0) and comes back with azimuth 30, not 330.
- Points.Point3D.CartesianToPolar and Points.Point3D.EquatorialToHorizon: the radius and azimuth ranges are stated as lemmas on the `Frames` functions, not in the methods' contracts.
- RAstro.ToMjd does not validate the date. Like the source, it computes a day count for any six integers. The next-day lemmas assume a valid date in the calendar named.
- The facade `lib/suntrack.rb` (`sun_location`, `sirius_location`) and the user-defined star accessors are not part of this model. Neither are the constants `SIRIUS_DECLINATION` and `SIRIUS_RA` (lib/suntrack/RAstro.rb:13-14), which only the facade uses.
- `Point3D#to_s` (string formatting) is not modelled.
- `sun_position` returns a `Point3D` in Ruby. The model returns the three values as a `Vec3`.
