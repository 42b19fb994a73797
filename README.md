# GeoCalc core in Dafny

GeoCalc measures areas and lengths in two workspaces:

- **Satellite workspace** (`components/MapMeasurer.tsx`). The user clicks geographic points on a map. They form a polygon, or a circle given by a centre and a rim point. The app reports the spherical area and the haversine perimeter.
- **Photo workspace** (`components/AreaMeasurer.tsx`). The user calibrates a photo with two scale points and a real length, then draws a pixel polygon. The shoelace area in pixels is converted to square metres.

Both workspaces save records into a history of at most ten entries, kept by the application shell (`App.tsx`). The formulas and the formatting live in `utils/geometry.ts`. The record types come from `types.ts`.

The model has one module per source file:

- `Types` holds the records of `types.ts` as datatypes.
- `JsMath` holds the JavaScript `Math` functions that are used. They form a value `MathLib` of function fields that every computation takes as a parameter. The laws the proofs need (sqrt of 0 and 1, sqrt never negative, sine odd with sin 0 = 0, the sign of atan2, π > 0) are collected in the predicate `MathLib.Lawful()`. Lemmas require this predicate. Operations work for any `MathLib`.
- `EdgeSums` is shared by the three loops of `geometry.ts` and by the map's segment labels. `WrapSum(f, s, k)` is the accumulator after `k` iterations of a loop that adds `f(s[i], s[(i+1) % n])`. `Chain` and `Closed` are the open path and the ring. The module proves that a closed sum is unchanged by rotation. It also proves that reversal negates the sum for an antisymmetric edge function and keeps it for a symmetric one.
- `Geometry` has the three loops of `geometry.ts` as methods with `while` loops. Each method is proved equal to a specification function, and the properties are lemmas about those functions. The formatters return `Display(value, decimals, suffix)`, the number `toFixed` would render. `SquareMeters` and `Meters` convert a display back.
- `AreaMeasurer`, `MapMeasurer` and `App` model the component state. Each is a class whose fields are the React state variables and whose methods are the handlers. The derived values (calibration, measurements, segment count, list edits) are functions with lemmas.

Inputs from the browser are parameters:

- the prompt's answer is `Option<string>`, where `None` means cancelled;
- the confirm dialog's answer is a `bool`;
- `parseFloat` of the scale field is `Option<real>`;
- the image's bounding rectangle is `Option<Rect>`;
- `crypto.randomUUID()` and `Date.now()` are an id and a timestamp;
- the history read from local storage is the constructor argument of `AppState`;
- a thumbnail is `Option<string>`.

## Model

| member | source | states |
|---|---|---|
| JsMath.Clamp | components/AreaMeasurer.tsx:110-111 | `Math.max(0, Math.min(v, hi))` lies in `[0, hi]` when `hi >= 0`; it is `v` inside the range, 0 below it and `hi` above it |
| JsMath.Abs | utils/geometry.ts:15 | `Math.abs` is non-negative and is either the value or its negation; it gives the area functions their sign (also line 72) |
| Geometry.Distance | utils/geometry.ts:3-5 | the planar distance is never negative for lawful `Math`; `DistanceProperties` adds zero on a point and symmetry |
| Geometry.DistanceProperties | utils/geometry.ts:3-5 | the planar distance from a point to itself is 0, is symmetric and is never negative |
| Geometry.CrossAntisymmetric | utils/geometry.ts:12-13 | the shoelace term of edge (q, p) is the negation of that of edge (p, q) |
| Geometry.PolygonArea | utils/geometry.ts:7-16 | the shoelace area is never negative, and is 0 for fewer than three points |
| Geometry.CalculatePolygonArea | utils/geometry.ts:7-16 | the loop over the wrapping edges `j = (i+1) % n` returns `PolygonArea`, so the result is non-negative |
| Geometry.PolygonAreaRotate | utils/geometry.ts:9-15 | starting the polygon at another vertex does not change its area |
| Geometry.PolygonAreaReverse | utils/geometry.ts:9-15 | listing the vertices in reverse order does not change the area |
| Geometry.PolygonAreaSquare | utils/geometry.ts:7-16 | the square (0,0), (10,0), (10,10), (0,10) has area 100 |
| Geometry.RadiansNegate | utils/geometry.ts:25-26 | the conversion of a swapped degree difference is the negated conversion |
| Geometry.HalfChordSquareSwap | utils/geometry.ts:28-30 | the haversine term `a` is the same with the two points swapped |
| Geometry.CentralAngle | utils/geometry.ts:31 | `2·atan2(√a, √(1−a))` is never negative for lawful `Math` |
| Geometry.CentralAngleSwap | utils/geometry.ts:31 | the central angle `c` is the same with the points swapped, and is never negative |
| Geometry.CentralAngleZero | utils/geometry.ts:28-31 | the central angle between a point and itself is 0 |
| Geometry.GeoDistance | utils/geometry.ts:21-34 | the haversine distance with R = 6371e3 is never negative for lawful `Math`; `GeoDistanceToSelf` and `GeoDistanceSymmetric` add zero on a point and symmetry |
| Geometry.GeoDistanceToSelf | utils/geometry.ts:21-34 | the haversine distance from a point to itself is 0 |
| Geometry.GeoDistanceSymmetric | utils/geometry.ts:21-34 | the haversine distance is symmetric and never negative |
| Geometry.GeoPerimeter | utils/geometry.ts:39-50 | 0 below two points; exactly the single leg for two points, with no closing edge; for three or more, the consecutive legs plus the leg from the last point back to the first |
| Geometry.CalculateGeoPerimeter | utils/geometry.ts:39-50 | the loop over the `n-1` consecutive legs, plus the closing leg when `n > 2`, returns `GeoPerimeter` |
| Geometry.PerimeterFromLoop | utils/geometry.ts:40-49 | the perimeter is the total of the `n-1` consecutive legs the loop adds, plus the closing leg only when `n > 2` |
| Geometry.LegLaws | utils/geometry.ts:43-47 | a perimeter leg is symmetric and never negative |
| Geometry.GeoPerimeterNonNegative | utils/geometry.ts:39-50 | the perimeter is never negative |
| Geometry.GeoPerimeterRotateReverse | utils/geometry.ts:39-50 | the perimeter of a polygon of three or more points is unchanged by rotating or reversing the points |
| Geometry.SweepAntisymmetric | utils/geometry.ts:68 | the spherical-area term of edge (q, p) is the negation of that of edge (p, q) |
| Geometry.GeoPolygonArea | utils/geometry.ts:56-73 | the spherical area is never negative, and is 0 for fewer than three points |
| Geometry.CalculateGeoPolygonArea | utils/geometry.ts:56-73 | the loop over the wrapping edges, scaled by `R*R/2` with R = 6378137, returns `GeoPolygonArea` |
| Geometry.GeoPolygonAreaRotateReverse | utils/geometry.ts:63-72 | the spherical area is unchanged by rotating or reversing the points |
| Geometry.FormatArea | utils/geometry.ts:75-99 | the displayed value converts back to the area given. The suffix is the chosen unit's: ha, km², ft² or ac. With the round trip this fixes the value: ÷10000, ÷10⁶, ×10.7639 and ÷4046.86 respectively. Decimals are 4 for ha, km² and ac and 2 otherwise. In auto mode the suffix is cm² exactly when the area is below 1 and km² exactly when it is above 10⁶. m², and any unrecognised unit, give m². The unit defaults to auto |
| Geometry.FormatAreaAuto | utils/geometry.ts:76-84 | auto mode picks cm² below 1, km² above 10⁶ and m² in between, 10⁶ itself included. For example, 0.5 m² shows as 5000 cm² |
| Geometry.FormatLength | utils/geometry.ts:101-106 | the displayed value converts back to the length given. The suffix is km with 2 decimals exactly when the length is 1000 or more; otherwise it is m with 1 decimal |
| Geometry.FormatLengthExamples | utils/geometry.ts:101-106 | 1000 shows as 1.00 km, 1500 as 1.50 km and 500 as 500.0 m |
| AreaMeasurer.RelativePoint | components/AreaMeasurer.tsx:102-113 | a point exists exactly when the image is present. It is clamped to `0..width` by `0..height`, and a click inside the image gives its exact offset |
| AreaMeasurer.PixelDistance | components/AreaMeasurer.tsx:132 | 0 unless there are exactly two scale points; never negative for lawful `Math` |
| AreaMeasurer.PixelsPerMeter | components/AreaMeasurer.tsx:132-135 | non-zero exactly when there are two scale points at a non-zero distance and the parsed length is positive; it then times the length gives the pixel distance |
| AreaMeasurer.RealArea | components/AreaMeasurer.tsx:137-138 | with a positive scale, the real area times ppm² is the pixel area; otherwise 0 |
| AreaMeasurer.RealAreaFromReference | components/AreaMeasurer.tsx:132-138 | calibrating with reference length `len` over pixel distance `d` turns pixel area `A` into `A·len²/d²` |
| AreaMeasurer.CalibrationExample | components/AreaMeasurer.tsx:132-138 | a 100 px reference for 10 m gives 10 px per metre, and 10000 px² then gives 100 m² |
| AreaMeasurer.AreaReadout | components/AreaMeasurer.tsx:367 | calibrated: exactly `FormatArea` of the real area in the chosen unit, which converts back to the real area; otherwise the pixel area with 0 decimals and suffix px² |
| AreaMeasurer.PhotoWorkspace.constructor | components/AreaMeasurer.tsx:11-21 | starts idle, in hectares, with scale length 1 and no points |
| AreaMeasurer.PhotoWorkspace.LoadImage | components/AreaMeasurer.tsx:31-42 | a new image (upload, or the capture at lines 74-94) empties the scale and polygon points |
| AreaMeasurer.PhotoWorkspace.Clear | components/AreaMeasurer.tsx:252 | Clear empties the scale and polygon points |
| AreaMeasurer.PhotoWorkspace.SetMode | components/AreaMeasurer.tsx:236-244 | the toolbar buttons switch to scale or polygon mode |
| AreaMeasurer.PhotoWorkspace.SetScaleLength | components/AreaMeasurer.tsx:268 | the reference length field holds its parsed value |
| AreaMeasurer.PhotoWorkspace.SetUnit | components/AreaMeasurer.tsx:354 | the unit selector sets the display unit |
| AreaMeasurer.PhotoWorkspace.Click | components/AreaMeasurer.tsx:115-129 | with no image or in idle mode nothing changes. In scale mode the list restarts at the point when it already holds two points, and otherwise the point is appended, so at most two are ever kept. In polygon mode exactly one point is appended and the scale points are untouched |
| AreaMeasurer.PhotoWorkspace.Save | components/AreaMeasurer.tsx:140-177 | refused below three polygon points or without a name. Otherwise a photo record with perimeter 0: the real area in the chosen unit when calibrated, and the raw pixel area in unit auto when not |
| MapMeasurer.SpliceIn | components/MapMeasurer.tsx:226-230 | one longer; the points before the insertion index are kept, the new point is at the index and the later points shift right by one |
| MapMeasurer.Replaced | components/MapMeasurer.tsx:294-300 | same length; only index i changes |
| MapMeasurer.Removed | components/MapMeasurer.tsx:302-304 | one shorter, with the other points in order; an index past the end changes nothing |
| MapMeasurer.DropLast | components/MapMeasurer.tsx:306-308 | drops the last point and keeps the rest; an empty list stays empty |
| MapMeasurer.RemoveUndoesSplice | components/MapMeasurer.tsx:223-231 | deleting the point just inserted at a midpoint gives back the previous list |
| MapMeasurer.UndoUndoesAppend | components/MapMeasurer.tsx:93 | undo takes back the point the last click appended |
| MapMeasurer.ReplaceBack | components/MapMeasurer.tsx:294-300 | dragging a point back to its old position restores the list |
| MapMeasurer.SegmentCount | components/MapMeasurer.tsx:183 | the count equals the number of points exactly when there are more than two. Otherwise it is one less, so there is no closing segment. `SegmentsMakePerimeter` ties the count to the perimeter |
| MapMeasurer.SegmentEnds | components/MapMeasurer.tsx:183-187 | segment i joins point i to point i+1, and the last segment, drawn only for three or more points, joins back to point 0 |
| MapMeasurer.SegmentsMakePerimeter | components/MapMeasurer.tsx:183-192 | the `n` (for `n > 2`) or `n-1` labelled segments are exactly the legs whose lengths sum to the perimeter |
| MapMeasurer.CircleArea | components/MapMeasurer.tsx:330 | π·r² is never negative |
| MapMeasurer.CircleCircumference | components/MapMeasurer.tsx:331 | 2·π·r times r is twice the circle's area |
| MapMeasurer.Measurements | components/MapMeasurer.tsx:321-332 | polygon mode uses the spherical area and the perimeter. Circle mode with two points or more uses radius = distance from point 0 to point 1, with area π·r² and perimeter 2·π·r. Circle mode with fewer points gives 0 and 0 |
| MapMeasurer.MeasurementsNonNegative | components/MapMeasurer.tsx:321-332 | the area and perimeter shown are never negative |
| MapMeasurer.MapWorkspace.constructor | components/MapMeasurer.tsx:21-24 | starts with no points, in hectares, in polygon mode |
| MapMeasurer.MapWorkspace.Click | components/MapMeasurer.tsx:87-94 | ignored in circle mode once two points exist; otherwise exactly one point is appended |
| MapMeasurer.MapWorkspace.ToggleShapeMode | components/MapMeasurer.tsx:314-319 | switching to circle mode with more than two points keeps the first two, in order; switching to polygon mode keeps every point |
| MapMeasurer.MapWorkspace.InsertMidpoint | components/MapMeasurer.tsx:161-231 | dragging the handle of segment i inserts the point at index i+1. The handles exist in polygon mode only (lines 161-235), so the circle cap is kept |
| MapMeasurer.MapWorkspace.UpdatePoint | components/MapMeasurer.tsx:294-300 | only point i changes |
| MapMeasurer.MapWorkspace.RemovePoint | components/MapMeasurer.tsx:302-304 | point i is removed and the rest keep their order |
| MapMeasurer.MapWorkspace.UndoLastPoint | components/MapMeasurer.tsx:306-308 | the last point is dropped; no-op on an empty list |
| MapMeasurer.MapWorkspace.ClearAll | components/MapMeasurer.tsx:310-312 | the list becomes empty |
| MapMeasurer.MapWorkspace.LoadRecord | components/MapMeasurer.tsx:63-79 | a satellite record with points restores the points and the unit, and the shape mode when the record has one; any other record changes nothing |
| MapMeasurer.MapWorkspace.Calculate | components/MapMeasurer.tsx:321-332 | the accumulators assigned branch by branch equal `Measurements` |
| MapMeasurer.MapWorkspace.Save | components/MapMeasurer.tsx:334-375 | refused below two points or without a name. Otherwise a satellite record with the current area, perimeter, unit, points and shape mode |
| EdgeSums.WrapSumIsClosed | utils/geometry.ts:10-14 | a loop over all n wrapping edges sums the closed ring |
| EdgeSums.WrapSumOpen | utils/geometry.ts:42-44 | a loop over the first n-1 edges sums the open path |
| EdgeSums.ClosedRotate | utils/geometry.ts:63-69 | a ring sum is unchanged by rotating the points |
| EdgeSums.ClosedReverse | utils/geometry.ts:10-14 | with an antisymmetric edge term, reversing the ring negates its sum |
| EdgeSums.ClosedReverseSymmetric | utils/geometry.ts:42-48 | with a symmetric edge term, reversing the ring keeps its sum |
| App.Stamp | App.tsx:38-42 | the saved record carries the draft with the given id and timestamp |
| App.DraftOf | App.tsx:31 | dropping the id and timestamp and stamping them back gives the same record |
| App.DraftOfStamp | App.tsx:31-42 | stamping keeps every field of the draft |
| App.AfterSave | App.tsx:31-47 | at ten records or more the list is unchanged. Otherwise the new record is at index 0, followed by the old list in order, one longer. The list never grows past ten |
| App.WithoutId | App.tsx:49-53 | keeps exactly the records whose id differs |
| App.WithoutIdKeepsOrder | App.tsx:51 | filtering distributes over concatenation, so kept records stay in order |
| App.WithoutIdUnknown | App.tsx:51 | deleting an id no record has changes nothing |
| App.WithoutIdIdempotent | App.tsx:51 | deleting twice is deleting once |
| App.SaveThenDelete | App.tsx:31-53 | saving under a fresh id and then deleting that id gives back the previous list |
| App.ReplayBounded | App.tsx:31-53 | any run of saves and deletes keeps a history of at most ten records at most ten |
| App.AppState.constructor | App.tsx:9-24 | starts on the satellite tab with the history closed, nothing to load and the stored list |
| App.AppState.SaveMeasurement | App.tsx:31-47 | the list becomes `AfterSave` of the stamped record. The history opens when the save is refused. At most ten records stay at most ten |
| App.AppState.DeleteMeasurement | App.tsx:49-53 | a confirmed delete removes every record with the id and keeps the others in order; an unconfirmed delete changes nothing |
| App.AppState.LoadMeasurement | App.tsx:55-65 | a satellite record selects the satellite tab and is handed over to the map workspace; a photo record changes neither |

## Left out

- Leaflet map setup, tiles, markers, popups, labels and fit-to-bounds (`components/MapMeasurer.tsx`:28-60, 73-77, 104-277) are rendering through a foreign library. Only the segment count and the point edits that the drag and delete handlers perform are modelled.
- Geolocation (`components/MapMeasurer.tsx`:279-292), the camera, `FileReader`, canvas capture and html2canvas thumbnails are browser I/O. A thumbnail is a parameter, and a loaded or captured image is the event `PhotoWorkspace.LoadImage`.
- Local storage, `alert`, `prompt` and `confirm`, `crypto.randomUUID` and `Date.now` are browser side effects. Their results are parameters. The alerts only inform the user.
- The `setTimeout` that clears the record handed over for loading after 500 ms (App.tsx:60) is a timer, so it is not modelled.
- Floating point is not modelled. Reals are exact, so NaN, infinities and rounding are absent, and the accuracy of the haversine and spherical formulas is not stated.
- `toFixed` digit rendering is not modelled. A formatted value is the number and decimal count it would render.
- Text parsing by `parseFloat` is not modelled: the scale field is `Option<real>`, with `None` where it yields NaN.
- The flags `isSaving`, `isLocating`, `isPanelExpanded` and `isCameraOpen` only drive the user interface, so they are not modelled.
- `components/MeasurementHistory.tsx` only displays records. The disabled AI components and their service, and the build and deploy scripts, are not part of this model.
- Geometry.GeoDistanceSymmetric and the other geodesic lemmas hold for any `MathLib` obeying `Lawful()`. They do not model the actual values of JavaScript's `Math` functions.
- MapMeasurer.MapWorkspace.UpdatePoint requires an index inside the list. In JavaScript an index past the end would extend the array with holes, but the only caller passes the index of an existing marker.
- MapMeasurer.MapWorkspace.LoadRecord does not keep `CircleCapped()`: a record without a shape mode that holds more than two points, loaded while in circle mode, leaves more than two points in circle mode. The source behaves the same way.
