/** The photo workspace: a reference segment calibrates pixels to metres, and a polygon drawn
    on the image is measured with it (components/AreaMeasurer.tsx). */
module AreaMeasurer {
  import opened Types
  import opened JsMath
  import Geometry

  /** What a click on the image does: extend the reference segment, extend the polygon, or nothing. */
  datatype Mode = ScaleMode | PolygonMode | Idle

  /** The on-screen box of the displayed image. */
  datatype Rect = Rect(left: real, top: real, width: real, height: real)

  /** getRelativePoint: the click position relative to the image's corner, clamped to the image;
      nothing when no image element is on screen. */
  function RelativePoint(clientX: real, clientY: real, image: Option<Rect>): (r: Option<Point>)
    ensures r.Some? <==> image.Some?
    ensures image.Some? && 0.0 <= image.value.width && 0.0 <= image.value.height ==>
              0.0 <= r.value.x <= image.value.width && 0.0 <= r.value.y <= image.value.height
    ensures image.Some? && image.value.left <= clientX <= image.value.left + image.value.width
                        && image.value.top <= clientY <= image.value.top + image.value.height ==>
              r.value == Point(clientX - image.value.left, clientY - image.value.top)
  {
    match image
    case None => None
    case Some(rect) =>
      var x := clientX - rect.left;
      var y := clientY - rect.top;
      Some(Point(Clamp(x, rect.width), Clamp(y, rect.height)))
  }

  /** Pixel length of the reference segment; 0 unless it has exactly two points. */
  function PixelDistance(m: MathLib, scalePoints: seq<Point>): (d: real)
    ensures |scalePoints| != 2 ==> d == 0.0
    ensures m.Lawful() ==> 0.0 <= d
  {
    if |scalePoints| == 2 then Geometry.Distance(m, scalePoints[0], scalePoints[1]) else 0.0
  }

  /** Pixels per metre from the reference segment and its parsed real length; 0 means unset. */
  function PixelsPerMeter(m: MathLib, scalePoints: seq<Point>, length: Option<real>): (ppm: real)
    ensures ppm != 0.0 <==>
              |scalePoints| == 2 && Geometry.Distance(m, scalePoints[0], scalePoints[1]) != 0.0 &&
              length.Some? && 0.0 < length.value
    ensures ppm != 0.0 ==> ppm * length.value == Geometry.Distance(m, scalePoints[0], scalePoints[1])
  {
    var pixelDistance := PixelDistance(m, scalePoints);
    if pixelDistance != 0.0 && length.Some? && length.value > 0.0 then pixelDistance / length.value else 0.0
  }

  /** Square metres covered by a pixel area at the given scale; 0 when the scale is unset. */
  function RealArea(pixelArea: real, ppm: real): (area: real)
    ensures 0.0 < ppm ==> area * (ppm * ppm) == pixelArea
    ensures ppm <= 0.0 ==> area == 0.0
  {
    if ppm > 0.0 then pixelArea / (ppm * ppm) else 0.0
  }

  /** With a reference segment of d pixels standing for L metres, the real area covering a pixel
      area A satisfies area · d² = A · L², that is area = A · (L / d)². */
  lemma RealAreaFromReference(m: MathLib, a: Point, b: Point, len: real, pixelArea: real)
    requires m.Lawful()
    requires Geometry.Distance(m, a, b) != 0.0 && 0.0 < len
    ensures var d := Geometry.Distance(m, a, b);
            RealArea(pixelArea, PixelsPerMeter(m, [a, b], Some(len))) * (d * d) == pixelArea * (len * len)
  {
    var d := Geometry.Distance(m, a, b);
    var ppm := PixelsPerMeter(m, [a, b], Some(len));
    var area := RealArea(pixelArea, ppm);
    Geometry.DistanceProperties(m, a, b);
    assert ppm * len == d;
    assert 0.0 < ppm;
    assert area * (ppm * ppm) == pixelArea;
    calc {
      area * (d * d);
      area * ((ppm * len) * (ppm * len));
      (area * (ppm * ppm)) * (len * len);
      pixelArea * (len * len);
    }
  }

  /** A 100-pixel reference for 10 m gives 10 pixels per metre, and 10 000 px² then cover 100 m². */
  lemma CalibrationExample(m: MathLib, a: Point, b: Point)
    requires Geometry.Distance(m, a, b) == 100.0
    ensures PixelsPerMeter(m, [a, b], Some(10.0)) == 10.0
    ensures RealArea(10000.0, PixelsPerMeter(m, [a, b], Some(10.0))) == 100.0
  {
  }

  /** The area line of the result panel: real units through formatArea once calibrated, whole
      pixels otherwise. */
  function AreaReadout(ppm: real, pixelArea: real, unit: AreaUnit): (d: Geometry.Display)
    ensures 0.0 < ppm ==> d == Geometry.FormatArea(RealArea(pixelArea, ppm), unit)
    ensures 0.0 < ppm ==> Geometry.SquareMeters(d) == RealArea(pixelArea, ppm)
    ensures ppm <= 0.0 ==> d == Geometry.Display(pixelArea, 0, "px²")
  {
    if ppm > 0.0 then Geometry.FormatArea(RealArea(pixelArea, ppm), unit) else Geometry.Display(pixelArea, 0, "px²")
  }

  /** The state of the photo workspace. */
  class PhotoWorkspace {
    var hasImage: bool
    var mode: Mode
    var unit: AreaUnit
    var scalePoints: seq<Point>
    /** The reference length field as parseFloat reads it; None when it is not a number. */
    var scaleLength: Option<real>
    var polygonPoints: seq<Point>

    /** The reference segment never holds more than two points. */
    ghost predicate Valid()
      reads this
    {
      |scalePoints| <= 2
    }

    constructor ()
      ensures Valid()
      ensures !hasImage && mode == Idle && unit == Ha
      ensures scalePoints == [] && scaleLength == Some(1.0) && polygonPoints == []
    {
      hasImage := false;
      mode := Idle;
      unit := Ha;
      scalePoints := [];
      scaleLength := Some(1.0);
      polygonPoints := [];
    }

    /** handleImageUpload and capturePhoto: a new image is shown and both point lists are emptied. */
    method LoadImage()
      modifies this
      ensures Valid()
      ensures hasImage && scalePoints == [] && polygonPoints == []
      ensures mode == old(mode) && unit == old(unit) && scaleLength == old(scaleLength)
    {
      hasImage := true;
      scalePoints := [];
      polygonPoints := [];
    }

    /** The Clear button: both point lists are emptied, nothing else changes. */
    method Clear()
      modifies this
      ensures Valid()
      ensures scalePoints == [] && polygonPoints == []
      ensures hasImage == old(hasImage) && mode == old(mode) && unit == old(unit)
      ensures scaleLength == old(scaleLength)
    {
      scalePoints := [];
      polygonPoints := [];
    }

    method SetMode(newMode: Mode)
      modifies this`mode
      ensures mode == newMode
    {
      mode := newMode;
    }

    method SetUnit(newUnit: AreaUnit)
      modifies this`unit
      ensures unit == newUnit
    {
      unit := newUnit;
    }

    method SetScaleLength(length: Option<real>)
      modifies this`scaleLength
      ensures scaleLength == length
    {
      scaleLength := length;
    }

    /** handleClick: without an image nothing changes; in scale mode a click restarts a full
        reference segment or extends it, in polygon mode it appends a vertex, when idle it is ignored. */
    method Click(clientX: real, clientY: real, image: Option<Rect>)
      requires Valid()
      modifies this`scalePoints, this`polygonPoints
      ensures Valid()
      ensures var pt := RelativePoint(clientX, clientY, image);
              if !hasImage || pt.None? || mode == Idle then
                scalePoints == old(scalePoints) && polygonPoints == old(polygonPoints)
              else if mode == ScaleMode then
                polygonPoints == old(polygonPoints) &&
                scalePoints == if |old(scalePoints)| >= 2 then [pt.value] else old(scalePoints) + [pt.value]
              else
                scalePoints == old(scalePoints) && polygonPoints == old(polygonPoints) + [pt.value]
    {
      if !hasImage {
        return;
      }
      var point := RelativePoint(clientX, clientY, image);
      if point.None? {
        return;
      }
      if mode == ScaleMode {
        if |scalePoints| >= 2 {
          scalePoints := [point.value];
        } else {
          scalePoints := scalePoints + [point.value];
        }
      } else if mode == PolygonMode {
        polygonPoints := polygonPoints + [point.value];
      }
    }

    /** handleSaveClick: refused below three vertices or when the name prompt is cancelled or left
        empty; otherwise a photo record with no perimeter, in real units once calibrated and in
        raw pixels under the auto unit otherwise. */
    method Save(m: MathLib, name: Option<string>, thumbnail: Option<string>) returns (draft: Option<MeasurementDraft>)
      ensures draft.Some? <==> 3 <= |polygonPoints| && name.Some? && name.value != ""
      ensures draft.Some? ==>
                var ppm := PixelsPerMeter(m, scalePoints, scaleLength);
                var pixelArea := Geometry.PolygonArea(polygonPoints);
                draft.value == MeasurementDraft(name.value, Photo,
                                                if ppm > 0.0 then RealArea(pixelArea, ppm) else pixelArea,
                                                0.0,
                                                if ppm > 0.0 then unit else Auto,
                                                thumbnail, None, None)
    {
      if |polygonPoints| < 3 {
        return None;
      }
      if name.None? || name.value == "" {
        return None;
      }
      var pixelsPerMeter := PixelsPerMeter(m, scalePoints, scaleLength);
      var pixelArea := Geometry.CalculatePolygonArea(polygonPoints);
      var realArea := RealArea(pixelArea, pixelsPerMeter);
      draft := Some(MeasurementDraft(name.value, Photo,
                                     if pixelsPerMeter > 0.0 then realArea else pixelArea,
                                     0.0,
                                     if pixelsPerMeter > 0.0 then unit else Auto,
                                     thumbnail, None, None));
    }
  }
}
