/** The satellite workspace: a list of map points edited by clicks, drags and buttons, measured
    as a polygon or as a circle (components/MapMeasurer.tsx). */
module MapMeasurer {
  import opened Types
  import opened JsMath
  import opened EdgeSums
  import Geometry

  // ----- Point-list edits -----

  /** `splice(start, 0, p)` on a copy: p is placed before index start, clamped to the length. */
  function SpliceIn(s: seq<GeoPoint>, start: nat, p: GeoPoint): (r: seq<GeoPoint>)
    ensures |r| == |s| + 1
    ensures start <= |s| ==> r[start] == p
    ensures forall k :: 0 <= k < |s| && k < start ==> r[k] == s[k]
    ensures forall k :: start <= k < |s| ==> r[k + 1] == s[k]
    ensures start > |s| ==> r == s + [p]
  {
    var at := if start <= |s| then start else |s|;
    s[..at] + [p] + s[at..]
  }

  /** The list with index i set to p (`next[index] = newPoint` on a copy). */
  function Replaced(s: seq<GeoPoint>, i: nat, p: GeoPoint): (r: seq<GeoPoint>)
    requires i < |s|
    ensures |r| == |s| && r[i] == p
    ensures forall k :: 0 <= k < |s| && k != i ==> r[k] == s[k]
  {
    s[i := p]
  }

  /** The list without index i, the rest in order (`filter((_, k) => k !== i)`); unchanged when i is past the end. */
  function Removed(s: seq<GeoPoint>, i: nat): (r: seq<GeoPoint>)
    ensures i < |s| ==> |r| == |s| - 1
    ensures i < |s| ==> forall k :: 0 <= k < |r| ==> r[k] == s[if k < i then k else k + 1]
    ensures i >= |s| ==> r == s
  {
    if i < |s| then s[..i] + s[i + 1..] else s
  }

  /** `slice(0, -1)`: the list without its last point; the empty list stays empty. */
  function DropLast(s: seq<GeoPoint>): (r: seq<GeoPoint>)
    ensures |s| == 0 ==> r == []
    ensures |s| > 0 ==> |r| == |s| - 1 && forall k :: 0 <= k < |r| ==> r[k] == s[k]
  {
    if |s| == 0 then [] else s[..|s| - 1]
  }

  /** Deleting a point dragged in at a midpoint restores the list it was inserted into. */
  lemma RemoveUndoesSplice(s: seq<GeoPoint>, i: nat, p: GeoPoint)
    requires i < |s|
    ensures Removed(SpliceIn(s, i + 1, p), i + 1) == s
  {
    var r := Removed(SpliceIn(s, i + 1, p), i + 1);
    assert forall k :: 0 <= k < |s| ==> r[k] == s[k];
  }

  /** Undo takes back the point a click appended. */
  lemma UndoUndoesAppend(s: seq<GeoPoint>, p: GeoPoint)
    ensures DropLast(s + [p]) == s
  {
    assert (s + [p])[..|s|] == s;
  }

  /** Dragging a point back to where it was restores the list. */
  lemma ReplaceBack(s: seq<GeoPoint>, i: nat, p: GeoPoint)
    requires i < |s|
    ensures Replaced(Replaced(s, i, p), i, s[i]) == s
  {
    var r := Replaced(Replaced(s, i, p), i, s[i]);
    assert forall k :: 0 <= k < |s| ==> r[k] == s[k];
  }

  // ----- Segments -----

  /** How many distance labels and midpoint handles are drawn for n points: n for a closed polygon
      of three or more, n - 1 otherwise (-1 for no points, so that none are drawn). */
  function SegmentCount(n: nat): (count: int)
    ensures count == n <==> n > 2
    ensures n <= 2 ==> count == n - 1
    ensures -1 <= count <= n
  {
    if n > 2 then n else n - 1
  }

  /** The ends of segment i: point i and the one after it, wrapping to the first point. */
  function SegmentEnds(points: seq<GeoPoint>, i: nat): (ends: (GeoPoint, GeoPoint))
    requires i < SegmentCount(|points|)
    ensures i + 1 < |points| ==> ends == (points[i], points[i + 1])
    ensures i + 1 == |points| ==> 2 < |points| && ends == (points[i], points[0])
  {
    NextIndex(i, |points|);
    (points[i], points[(i + 1) % |points|])
  }

  /** The labelled segments are exactly the edges the perimeter adds up: their lengths sum to it. */
  lemma {:induction false} SegmentsMakePerimeter(m: MathLib, points: seq<GeoPoint>)
    ensures var count := if |points| == 0 then 0 else SegmentCount(|points|);
            0 <= count <= |points| &&
            WrapSum(Geometry.Leg(m), points, count) == Geometry.GeoPerimeter(m, points)
  {
    var n := |points|;
    if n == 2 {
      assert 1 % 2 == 1;
      assert WrapSum(Geometry.Leg(m), points, 1) == Geometry.GeoDistance(m, points[0], points[1]);
    } else if n > 2 {
      WrapSumIsClosed(Geometry.Leg(m), points);
    }
  }

  // ----- Measurements -----

  /** π·r²: never negative. */
  function CircleArea(m: MathLib, radius: real): (area: real)
    ensures 0.0 < m.pi ==> 0.0 <= area
  {
    m.pi * radius * radius
  }

  /** 2·π·r: the circle's perimeter, never negative, and twice the area over the radius. */
  function CircleCircumference(m: MathLib, radius: real): (perimeter: real)
    ensures 0.0 < m.pi && 0.0 <= radius ==> 0.0 <= perimeter
    ensures perimeter * radius == 2.0 * CircleArea(m, radius)
  {
    2.0 * m.pi * radius
  }

  /** Area and perimeter of the current shape: the geodesic polygon functions in polygon mode;
      in circle mode, with the radius the distance from the centre point 0 to the rim point 1,
      π·r² and 2·π·r, or nothing below two points. */
  function Measurements(m: MathLib, mode: ShapeMode, points: seq<GeoPoint>): (r: (real, real))
    ensures mode == PolygonShape ==>
              r == (Geometry.GeoPolygonArea(m, points), Geometry.GeoPerimeter(m, points))
    ensures mode == CircleShape && |points| > 1 ==>
              var radius := Geometry.GeoDistance(m, points[0], points[1]);
              r == (CircleArea(m, radius), CircleCircumference(m, radius))
    ensures mode == CircleShape && |points| <= 1 ==> r == (0.0, 0.0)
  {
    if mode == PolygonShape then
      (Geometry.GeoPolygonArea(m, points), Geometry.GeoPerimeter(m, points))
    else if |points| > 1 then
      var radius := Geometry.GeoDistance(m, points[0], points[1]);
      (CircleArea(m, radius), CircleCircumference(m, radius))
    else
      (0.0, 0.0)
  }

  /** Neither the area nor the perimeter is ever negative. */
  lemma MeasurementsNonNegative(m: MathLib, mode: ShapeMode, points: seq<GeoPoint>)
    requires m.Lawful()
    ensures 0.0 <= Measurements(m, mode, points).0 && 0.0 <= Measurements(m, mode, points).1
  {
    if mode == PolygonShape {
      Geometry.GeoPerimeterNonNegative(m, points);
    } else if |points| > 1 {
      Geometry.GeoDistanceSymmetric(m, points[0], points[1]);
    }
  }

  /** The state of the satellite workspace. */
  class MapWorkspace {
    var points: seq<GeoPoint>
    var unit: AreaUnit
    var shapeMode: ShapeMode

    /** A circle is read from its first two points only, and the editing rules keep no more. */
    ghost predicate CircleCapped()
      reads this
    {
      shapeMode == CircleShape ==> |points| <= 2
    }

    constructor ()
      ensures points == [] && unit == Ha && shapeMode == PolygonShape
      ensures CircleCapped()
    {
      points := [];
      unit := Ha;
      shapeMode := PolygonShape;
    }

    /** handleClick: in circle mode a click is ignored once two points exist; otherwise the point is appended. */
    method Click(p: GeoPoint)
      modifies this`points
      ensures if old(shapeMode) == CircleShape && |old(points)| >= 2 then points == old(points)
              else points == old(points) + [p]
      ensures old(CircleCapped()) ==> CircleCapped()
    {
      if shapeMode == CircleShape && |points| >= 2 {
        return;
      }
      points := points + [p];
    }

    /** toggleShapeMode: switching to circle mode keeps only the first two points, in order;
        switching to polygon mode keeps them all. */
    method ToggleShapeMode(mode: ShapeMode)
      modifies this`points, this`shapeMode
      ensures shapeMode == mode
      ensures if mode == CircleShape && |old(points)| > 2 then points == old(points)[..2]
              else points == old(points)
      ensures CircleCapped()
    {
      shapeMode := mode;
      if mode == CircleShape && |points| > 2 {
        points := points[..2];
      }
    }

    /** Dragging the handle of segment i inserts the dropped point right after point i; the
        handles are drawn in polygon mode only. */
    method InsertMidpoint(i: nat, p: GeoPoint)
      requires shapeMode == PolygonShape
      modifies this`points
      ensures points == SpliceIn(old(points), i + 1, p)
      ensures CircleCapped()
    {
      var next := points;
      var at := if i + 1 <= |next| then i + 1 else |next|;
      next := next[..at] + [p] + next[at..];
      points := next;
    }

    /** updatePoint: dragging marker i moves point i and nothing else. */
    method UpdatePoint(i: nat, p: GeoPoint)
      requires i < |points|
      modifies this`points
      ensures points == Replaced(old(points), i, p)
      ensures old(CircleCapped()) ==> CircleCapped()
    {
      var next := points;
      next := next[i := p];
      points := next;
    }

    /** removePoint: deleting marker i drops point i and keeps the others in order. */
    method RemovePoint(i: nat)
      modifies this`points
      ensures points == Removed(old(points), i)
      ensures old(CircleCapped()) ==> CircleCapped()
    {
      if i < |points| {
        points := points[..i] + points[i + 1..];
      }
    }

    /** undoLastPoint */
    method UndoLastPoint()
      modifies this`points
      ensures points == DropLast(old(points))
      ensures old(CircleCapped()) ==> CircleCapped()
    {
      if |points| > 0 {
        points := points[..|points| - 1];
      }
    }

    /** clearAll */
    method ClearAll()
      modifies this`points
      ensures points == []
      ensures CircleCapped()
    {
      points := [];
    }

    /** Restoring a record handed over for loading: a satellite record with points replaces the
        points and the unit, and the shape mode when the record has one; anything else is ignored. */
    method LoadRecord(r: SavedMeasurement)
      modifies this
      ensures if r.kind == Satellite && r.geoPoints.Some? then
                points == r.geoPoints.value && unit == r.unit &&
                shapeMode == (if r.shapeMode.Some? then r.shapeMode.value else old(shapeMode))
              else
                points == old(points) && unit == old(unit) && shapeMode == old(shapeMode)
    {
      if r.kind == Satellite && r.geoPoints.Some? {
        points := r.geoPoints.value;
        unit := r.unit;
        if r.shapeMode.Some? {
          shapeMode := r.shapeMode.value;
        }
      }
    }

    /** The live area and perimeter, assigned branch by branch. */
    method Calculate(m: MathLib) returns (areaSqM: real, perimeter: real)
      ensures (areaSqM, perimeter) == Measurements(m, shapeMode, points)
    {
      areaSqM := 0.0;
      perimeter := 0.0;
      if shapeMode == PolygonShape {
        areaSqM := Geometry.CalculateGeoPolygonArea(m, points);
        perimeter := Geometry.CalculateGeoPerimeter(m, points);
      } else if shapeMode == CircleShape && |points| > 1 {
        var radius := Geometry.GeoDistance(m, points[0], points[1]);
        areaSqM := CircleArea(m, radius);
        perimeter := CircleCircumference(m, radius);
      }
    }

    /** handleSaveClick: refused below two points or when the name prompt is cancelled or left
        empty; otherwise a satellite record with the current measurements, unit, points and shape mode. */
    method Save(m: MathLib, name: Option<string>, thumbnail: Option<string>) returns (draft: Option<MeasurementDraft>)
      ensures draft.Some? <==> 2 <= |points| && name.Some? && name.value != ""
      ensures draft.Some? ==>
                var measured := Measurements(m, shapeMode, points);
                draft.value == MeasurementDraft(name.value, Satellite, measured.0, measured.1, unit,
                                                thumbnail, Some(points), Some(shapeMode))
    {
      if |points| < 2 {
        return None;
      }
      if name.None? || name.value == "" {
        return None;
      }
      var areaSqM, perimeter := Calculate(m);
      draft := Some(MeasurementDraft(name.value, Satellite, areaSqM, perimeter, unit,
                                     thumbnail, Some(points), Some(shapeMode)));
    }
  }
}
