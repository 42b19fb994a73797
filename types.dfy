/** The value types shared by the measuring workspaces and the history list. */
module Types {

  datatype Option<+T> = None | Some(value: T)

  /** A pixel position relative to the top-left corner of the displayed image. */
  datatype Point = Point(x: real, y: real)

  /** A geographic position in degrees. */
  datatype GeoPoint = GeoPoint(lat: real, lng: real)

  /** The unit an area is shown in. `Other` stands for any tag outside the six known ones,
      as a value read back from storage or cast from a select element may be. */
  datatype AreaUnit = Auto | M2 | Km2 | Ha | Ft2 | Ac | Other(tag: string)

  /** Which workspace produced a saved measurement. */
  datatype MeasurementType = Photo | Satellite

  /** How the map workspace reads its points: a closed polygon or a circle (centre, rim point). */
  datatype ShapeMode = PolygonShape | CircleShape

  /** A stored measurement. Only satellite records carry the points and the shape mode. */
  datatype SavedMeasurement = SavedMeasurement(
    id: string,
    name: string,
    timestamp: int,
    kind: MeasurementType,
    area: real,
    perimeter: real,
    unit: AreaUnit,
    thumbnail: Option<string>,
    geoPoints: Option<seq<GeoPoint>>,
    shapeMode: Option<ShapeMode>)

  /** What a workspace hands over when saving: a record without its id and timestamp. */
  datatype MeasurementDraft = MeasurementDraft(
    name: string,
    kind: MeasurementType,
    area: real,
    perimeter: real,
    unit: AreaUnit,
    thumbnail: Option<string>,
    geoPoints: Option<seq<GeoPoint>>,
    shapeMode: Option<ShapeMode>)
}
