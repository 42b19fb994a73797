/** Planar and geodesic measurement and unit formatting (utils/geometry.ts). */
module Geometry {
  import opened Types
  import opened JsMath
  import opened EdgeSums

  /** Mean Earth radius used by the Haversine distance, in metres. */
  const EarthMeanRadius: real := 6371000.0
  /** Equatorial Earth radius used by the spherical polygon area, in metres. */
  const EarthEquatorialRadius: real := 6378137.0

  // ----- Planar geometry -----

  /** Euclidean distance between two pixel positions. */
  function Distance(m: MathLib, p1: Point, p2: Point): (d: real)
    ensures m.Lawful() ==> 0.0 <= d
  {
    m.Sqrt((p2.x - p1.x) * (p2.x - p1.x) + (p2.y - p1.y) * (p2.y - p1.y))
  }

  lemma DistanceProperties(m: MathLib, p: Point, q: Point)
    requires m.Lawful()
    ensures Distance(m, p, p) == 0.0
    ensures Distance(m, p, q) == Distance(m, q, p)
    ensures 0.0 <= Distance(m, p, q)
  {
    assert (q.x - p.x) * (q.x - p.x) == (p.x - q.x) * (p.x - q.x);
    assert (q.y - p.y) * (q.y - p.y) == (p.y - q.y) * (p.y - q.y);
  }

  /** The shoelace term of the edge from p to q. */
  function Cross(p: Point, q: Point): real
  {
    p.x * q.y - q.x * p.y
  }

  lemma CrossAntisymmetric()
    ensures Antisymmetric(Cross)
  {
    forall p: Point, q: Point ensures Cross(p, q) == -Cross(q, p) {
    }
  }

  /** Area enclosed by the points read as a closed polygon; fewer than three points enclose nothing. */
  function PolygonArea(points: seq<Point>): (area: real)
    ensures 0.0 <= area
    ensures |points| < 3 ==> area == 0.0
  {
    if |points| < 3 then 0.0 else Abs(WrapSum(Cross, points, |points|) / 2.0)
  }

  /** calculatePolygonArea: the shoelace loop, accumulating both halves of each cross term. */
  method CalculatePolygonArea(points: seq<Point>) returns (result: real)
    ensures result == PolygonArea(points)
    ensures 0.0 <= result
  {
    if |points| < 3 {
      return 0.0;
    }
    var area := 0.0;
    var i := 0;
    while i < |points|
      invariant 0 <= i <= |points|
      invariant area == WrapSum(Cross, points, i)
    {
      var j := (i + 1) % |points|;
      area := area + points[i].x * points[j].y;
      area := area - points[j].x * points[i].y;
      i := i + 1;
    }
    return Abs(area / 2.0);
  }

  /** The area does not depend on which vertex the polygon starts from. */
  lemma {:induction false} PolygonAreaRotate(points: seq<Point>, k: nat)
    requires k <= |points|
    ensures PolygonArea(Rotate(points, k)) == PolygonArea(points)
  {
    if |points| >= 3 {
      WrapSumIsClosed(Cross, points);
      WrapSumIsClosed(Cross, Rotate(points, k));
      ClosedRotate(Cross, points, k);
    }
  }

  /** The area does not depend on the winding direction. */
  lemma {:induction false} PolygonAreaReverse(points: seq<Point>)
    ensures PolygonArea(Reverse(points)) == PolygonArea(points)
  {
    if |points| >= 3 {
      WrapSumIsClosed(Cross, points);
      WrapSumIsClosed(Cross, Reverse(points));
      CrossAntisymmetric();
      ClosedReverse(Cross, points);
    }
  }

  lemma PolygonAreaSquare()
    ensures PolygonArea([Point(0.0, 0.0), Point(10.0, 0.0), Point(10.0, 10.0), Point(0.0, 10.0)]) == 100.0
  {
    var s := [Point(0.0, 0.0), Point(10.0, 0.0), Point(10.0, 10.0), Point(0.0, 10.0)];
    WrapSumIsClosed(Cross, s);
    assert s[..3][..2] == s[..2] && s[..2][..1] == s[..1];
    assert Chain(Cross, s[..2]) == Cross(s[0], s[1]) == 0.0;
    assert Chain(Cross, s[..3]) == Chain(Cross, s[..2]) + Cross(s[1], s[2]) == 100.0;
    assert Chain(Cross, s) == Chain(Cross, s[..3]) + Cross(s[2], s[3]) == 200.0;
    assert Closed(Cross, s) == 200.0;
  }

  // ----- Geodesic geometry -----

  /** Degrees to radians, `deg * Math.PI / 180`. */
  function Radians(m: MathLib, deg: real): real
  {
    deg * m.pi / 180.0
  }

  lemma RadiansNegate(m: MathLib, a: real, b: real)
    ensures Radians(m, a - b) == -Radians(m, b - a)
    ensures Radians(m, a - a) == 0.0
  {
    assert (a - b) * m.pi == -((b - a) * m.pi);
  }

  /** The Haversine term `a`: the square of half the chord length between the two points. */
  function HalfChordSquare(m: MathLib, phi1: real, phi2: real, dPhi: real, dLambda: real): real
  {
    m.Sin(dPhi / 2.0) * m.Sin(dPhi / 2.0) +
    m.Cos(phi1) * m.Cos(phi2) *
    m.Sin(dLambda / 2.0) * m.Sin(dLambda / 2.0)
  }

  /** The Haversine central angle from the two latitudes and the two differences, all in radians. */
  function CentralAngle(m: MathLib, phi1: real, phi2: real, dPhi: real, dLambda: real): (angle: real)
    ensures m.Lawful() ==> 0.0 <= angle
  {
    var a := HalfChordSquare(m, phi1, phi2, dPhi, dLambda);
    2.0 * m.Atan2(m.Sqrt(a), m.Sqrt(1.0 - a))
  }

  lemma HalfChordSquareSwap(m: MathLib, phi1: real, phi2: real, dPhi: real, dLambda: real)
    requires m.Lawful()
    ensures HalfChordSquare(m, phi1, phi2, dPhi, dLambda) == HalfChordSquare(m, phi2, phi1, -dPhi, -dLambda)
  {
    var s, t := m.Sin(dPhi / 2.0), m.Sin(dLambda / 2.0);
    assert -dPhi / 2.0 == -(dPhi / 2.0) && -dLambda / 2.0 == -(dLambda / 2.0);
    assert m.Sin(-dPhi / 2.0) == -s && m.Sin(-dLambda / 2.0) == -t;
    var c1, c2 := m.Cos(phi1), m.Cos(phi2);
    assert (-s) * (-s) + c2 * c1 * (-t) * (-t) == s * s + c1 * c2 * t * t;
  }

  lemma CentralAngleSwap(m: MathLib, phi1: real, phi2: real, dPhi: real, dLambda: real)
    requires m.Lawful()
    ensures CentralAngle(m, phi1, phi2, dPhi, dLambda) == CentralAngle(m, phi2, phi1, -dPhi, -dLambda)
    ensures 0.0 <= CentralAngle(m, phi1, phi2, dPhi, dLambda)
  {
    HalfChordSquareSwap(m, phi1, phi2, dPhi, dLambda);
  }

  lemma CentralAngleZero(m: MathLib, phi: real)
    requires m.Lawful()
    ensures CentralAngle(m, phi, phi, 0.0, 0.0) == 0.0
  {
    assert 0.0 / 2.0 == 0.0;
    var c := m.Cos(phi);
    assert c * c * 0.0 * 0.0 == 0.0;
    assert HalfChordSquare(m, phi, phi, 0.0, 0.0) == 0.0;
    assert m.Sqrt(1.0 - 0.0) == 1.0;
  }

  /** Great-circle distance in metres by the Haversine formula. */
  function GeoDistance(m: MathLib, p1: GeoPoint, p2: GeoPoint): (dist: real)
    ensures m.Lawful() ==> 0.0 <= dist
  {
    EarthMeanRadius * CentralAngle(m, Radians(m, p1.lat), Radians(m, p2.lat),
                                   Radians(m, p2.lat - p1.lat), Radians(m, p2.lng - p1.lng))
  }

  lemma GeoDistanceToSelf(m: MathLib, p: GeoPoint)
    requires m.Lawful()
    ensures GeoDistance(m, p, p) == 0.0
  {
    RadiansNegate(m, p.lat, p.lat);
    RadiansNegate(m, p.lng, p.lng);
    CentralAngleZero(m, Radians(m, p.lat));
  }

  lemma GeoDistanceSymmetric(m: MathLib, p: GeoPoint, q: GeoPoint)
    requires m.Lawful()
    ensures GeoDistance(m, p, q) == GeoDistance(m, q, p)
    ensures 0.0 <= GeoDistance(m, p, q)
  {
    RadiansNegate(m, p.lat, q.lat);
    RadiansNegate(m, p.lng, q.lng);
    CentralAngleSwap(m, Radians(m, p.lat), Radians(m, q.lat),
                     Radians(m, q.lat - p.lat), Radians(m, q.lng - p.lng));
  }

  /** The distance as an edge quantity, for sums over the edges of a point sequence. */
  function Leg(m: MathLib): (GeoPoint, GeoPoint) -> real
  {
    (p: GeoPoint, q: GeoPoint) => GeoDistance(m, p, q)
  }

  /** Length of the path through the points, closed back to the first point from three points on. */
  function GeoPerimeter(m: MathLib, points: seq<GeoPoint>): (perimeter: real)
    ensures |points| < 2 ==> perimeter == 0.0
    ensures |points| == 2 ==> perimeter == GeoDistance(m, points[0], points[1])
    ensures |points| > 2 ==> perimeter == Closed(Leg(m), points)
  {
    if |points| < 2 then 0.0
    else
      assert |points| == 2 ==> Chain(Leg(m), points) == GeoDistance(m, points[0], points[1]) by {
        if |points| == 2 {
          assert Chain(Leg(m), points[..1]) == 0.0;
        }
      }
      Chain(Leg(m), points) +
         (if |points| > 2 then GeoDistance(m, points[|points| - 1], points[0]) else 0.0)
  }

  /** calculateGeoPerimeter: the consecutive legs, then the closing leg for a polygon. */
  method CalculateGeoPerimeter(m: MathLib, points: seq<GeoPoint>) returns (result: real)
    ensures result == GeoPerimeter(m, points)
  {
    if |points| < 2 {
      return 0.0;
    }
    var dist := 0.0;
    var i := 0;
    while i < |points| - 1
      invariant 0 <= i <= |points| - 1
      invariant dist == WrapSum(Leg(m), points, i)
    {
      LegStep(m, points, i);
      dist := dist + GeoDistance(m, points[i], points[i + 1]);
      i := i + 1;
    }
    PerimeterFromLoop(m, points);
    if |points| > 2 {
      dist := dist + GeoDistance(m, points[|points| - 1], points[0]);
    }
    return dist;
  }

  /** One iteration of the perimeter loop adds the leg from point i to point i + 1. */
  lemma LegStep(m: MathLib, points: seq<GeoPoint>, i: nat)
    requires i + 1 < |points|
    ensures WrapSum(Leg(m), points, i + 1) == WrapSum(Leg(m), points, i) + GeoDistance(m, points[i], points[i + 1])
  {
    WrapSumStep(Leg(m), points, i + 1);
  }

  /** The perimeter is the total of the consecutive legs, plus the closing leg from three points on. */
  lemma PerimeterFromLoop(m: MathLib, points: seq<GeoPoint>)
    requires 2 <= |points|
    ensures GeoPerimeter(m, points) == WrapSum(Leg(m), points, |points| - 1) +
              (if |points| > 2 then GeoDistance(m, points[|points| - 1], points[0]) else 0.0)
  {
    WrapSumOpen(Leg(m), points);
  }

  lemma LegLaws(m: MathLib)
    requires m.Lawful()
    ensures Symmetric(Leg(m)) && NonNegative(Leg(m))
  {
    forall p: GeoPoint, q: GeoPoint
      ensures Leg(m)(p, q) == Leg(m)(q, p) && 0.0 <= Leg(m)(p, q)
    {
      GeoDistanceSymmetric(m, p, q);
    }
  }

  lemma {:induction false} GeoPerimeterNonNegative(m: MathLib, points: seq<GeoPoint>)
    requires m.Lawful()
    ensures 0.0 <= GeoPerimeter(m, points)
  {
    LegLaws(m);
    ChainNonNegative(Leg(m), points);
    if |points| > 2 {
      GeoDistanceSymmetric(m, points[|points| - 1], points[0]);
    }
  }

  /** A closed ring has the same perimeter whichever vertex it starts from and in either direction. */
  lemma {:induction false} GeoPerimeterRotateReverse(m: MathLib, points: seq<GeoPoint>, k: nat)
    requires m.Lawful()
    requires 2 < |points| && k <= |points|
    ensures GeoPerimeter(m, Rotate(points, k)) == GeoPerimeter(m, points)
    ensures GeoPerimeter(m, Reverse(points)) == GeoPerimeter(m, points)
  {
    ClosedRotate(Leg(m), points, k);
    LegLaws(m);
    ClosedReverseSymmetric(Leg(m), points);
  }

  /** Radians per degree, `Math.PI / 180`. */
  function DegToRad(m: MathLib): real
  {
    m.pi / 180.0
  }

  /** The longitude-sweep term of the edge from p1 to p2, with d2r radians per degree. */
  function SweepTerm(m: MathLib, d2r: real, p1: GeoPoint, p2: GeoPoint): real
  {
    (p2.lng - p1.lng) * d2r * (2.0 + m.Sin(p1.lat * d2r) + m.Sin(p2.lat * d2r))
  }

  /** The sweep term as an edge quantity, for sums over the edges of a point sequence. */
  function Sweep(m: MathLib): (GeoPoint, GeoPoint) -> real
  {
    (p1: GeoPoint, p2: GeoPoint) => SweepTerm(m, DegToRad(m), p1, p2)
  }

  lemma SweepAntisymmetric(m: MathLib)
    ensures Antisymmetric(Sweep(m))
  {
    forall p: GeoPoint, q: GeoPoint ensures Sweep(m)(p, q) == -Sweep(m)(q, p) {
      var d := DegToRad(m);
      assert Sweep(m)(p, q) == SweepTerm(m, d, p, q) && Sweep(m)(q, p) == SweepTerm(m, d, q, p);
      var sp, sq := m.Sin(p.lat * d), m.Sin(q.lat * d);
      assert (q.lng - p.lng) * d * (2.0 + sp + sq) == -((p.lng - q.lng) * d * (2.0 + sq + sp));
    }
  }

  /** Spherical approximation of the enclosed area in square metres; fewer than three points enclose nothing. */
  function GeoPolygonArea(m: MathLib, points: seq<GeoPoint>): (area: real)
    ensures 0.0 <= area
    ensures |points| < 3 ==> area == 0.0
  {
    if |points| < 3 then 0.0
    else Abs(WrapSum(Sweep(m), points, |points|) * EarthEquatorialRadius * EarthEquatorialRadius / 2.0)
  }

  /** calculateGeoPolygonArea: the sweep loop over all edges, wrapping to the first point. */
  method CalculateGeoPolygonArea(m: MathLib, points: seq<GeoPoint>) returns (result: real)
    ensures result == GeoPolygonArea(m, points)
    ensures 0.0 <= result
  {
    if |points| < 3 {
      return 0.0;
    }
    var d2r := DegToRad(m);
    var area := 0.0;
    var i := 0;
    while i < |points|
      invariant 0 <= i <= |points|
      invariant area == WrapSum(Sweep(m), points, i)
    {
      var p1 := points[i];
      var p2 := points[(i + 1) % |points|];
      assert Sweep(m)(p1, p2) == SweepTerm(m, d2r, p1, p2);
      area := area + SweepTerm(m, d2r, p1, p2);
      i := i + 1;
    }
    area := area * EarthEquatorialRadius * EarthEquatorialRadius / 2.0;
    return Abs(area);
  }

  /** The spherical area does not depend on the starting vertex or the winding direction. */
  lemma {:induction false} GeoPolygonAreaRotateReverse(m: MathLib, points: seq<GeoPoint>, k: nat)
    requires k <= |points|
    ensures GeoPolygonArea(m, Rotate(points, k)) == GeoPolygonArea(m, points)
    ensures GeoPolygonArea(m, Reverse(points)) == GeoPolygonArea(m, points)
  {
    if |points| >= 3 {
      WrapSumIsClosed(Sweep(m), points);
      WrapSumIsClosed(Sweep(m), Rotate(points, k));
      WrapSumIsClosed(Sweep(m), Reverse(points));
      ClosedRotate(Sweep(m), points, k);
      SweepAntisymmetric(m);
      ClosedReverse(Sweep(m), points);
    }
  }

  // ----- Unit formatting -----

  /** A number as it is shown: the scaled value, the digits after the point, and the unit suffix. */
  datatype Display = Display(value: real, decimals: nat, suffix: string)

  /** The square metres a displayed area stands for, read back from its suffix. */
  function SquareMeters(d: Display): real
  {
    if d.suffix == "cm²" then d.value / 10000.0
    else if d.suffix == "km²" then d.value * 1000000.0
    else if d.suffix == "ha" then d.value * 10000.0
    else if d.suffix == "ft²" then d.value / 10.7639
    else if d.suffix == "ac" then d.value * 4046.86
    else d.value
  }

  /** formatArea: the area in the chosen unit, or in cm², m² or km² by size when the unit is auto. */
  function FormatArea(areaSqMeters: real, unit: AreaUnit := Auto): (d: Display)
    ensures SquareMeters(d) == areaSqMeters
    ensures d.decimals == if unit.Ha? || unit.Km2? || unit.Ac? then 4 else 2
    ensures unit.Auto? ==> (d.suffix == "cm²" <==> areaSqMeters < 1.0)
    ensures unit.Auto? ==> (d.suffix == "km²" <==> areaSqMeters > 1000000.0)
    ensures unit.M2? || unit.Other? ==> d.suffix == "m²"
    ensures unit.Ha? ==> d.suffix == "ha"
    ensures unit.Km2? ==> d.suffix == "km²"
    ensures unit.Ft2? ==> d.suffix == "ft²"
    ensures unit.Ac? ==> d.suffix == "ac"
  {
    match unit
    case Auto =>
      if areaSqMeters < 1.0 then Display(areaSqMeters * 10000.0, 2, "cm²")
      else if areaSqMeters > 1000000.0 then Display(areaSqMeters / 1000000.0, 2, "km²")
      else Display(areaSqMeters, 2, "m²")
    case Ha => Display(areaSqMeters / 10000.0, 4, "ha")
    case Km2 => Display(areaSqMeters / 1000000.0, 4, "km²")
    case Ft2 => Display(areaSqMeters * 10.7639, 2, "ft²")
    case Ac => Display(areaSqMeters / 4046.86, 4, "ac")
    case M2 => Display(areaSqMeters, 2, "m²")
    case Other(_) => Display(areaSqMeters, 2, "m²")
  }

  /** The auto unit's thresholds: below 1 m² in cm², above 1 000 000 m² in km², otherwise m²
      (1 000 000 m² itself included). */
  lemma FormatAreaAuto(a: real)
    ensures a < 1.0 ==> FormatArea(a) == Display(a * 10000.0, 2, "cm²")
    ensures 1.0 <= a <= 1000000.0 ==> FormatArea(a) == Display(a, 2, "m²")
    ensures a > 1000000.0 ==> FormatArea(a) == Display(a / 1000000.0, 2, "km²")
    ensures FormatArea(1000000.0) == Display(1000000.0, 2, "m²")
    ensures FormatArea(0.5) == Display(5000.0, 2, "cm²")
  {
  }

  /** The displayed metres a length stands for, read back from its suffix. */
  function Meters(d: Display): real
  {
    if d.suffix == "km" then d.value * 1000.0 else d.value
  }

  /** formatLength: kilometres to 2 decimals from 1000 m on, otherwise metres to 1 decimal. */
  function FormatLength(meters: real): (d: Display)
    ensures Meters(d) == meters
    ensures d.suffix == "km" <==> meters >= 1000.0
    ensures meters < 1000.0 ==> d.suffix == "m"
    ensures d.decimals == if meters >= 1000.0 then 2 else 1
  {
    if meters >= 1000.0 then Display(meters / 1000.0, 2, "km") else Display(meters, 1, "m")
  }

  lemma FormatLengthExamples()
    ensures FormatLength(1000.0) == Display(1.0, 2, "km")
    ensures FormatLength(1500.0) == Display(1.5, 2, "km")
    ensures FormatLength(500.0) == Display(500.0, 1, "m")
  {
  }
}
