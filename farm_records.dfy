/** The rows of one farm's extract, as the data-access layer hands them to the
    spatial matcher and to the data processor (one row per attribute record,
    joined with the geometry of its paddock). */
module FarmRecords {

  datatype Option<+T> = None | Some(value: T)

  /** One scalar of a record's JSON `data` object, with Python's run-time types. */
  datatype Value =
    | Null                  // JSON null, Python None
    | Int(i: int)           // Python int (unbounded)
    | Real(r: real)         // Python float, as an exact real
    | Bool(b: bool)         // Python bool, which is also an int
    | Str(s: string)
    | Compound(json: string) // a nested JSON array or object, as the compact text json.dumps writes:
                             // neither numeric nor hashable

  /** Python truthiness: None, zero, False, "" and an empty list or dict are false. */
  predicate ValueTruthy(v: Value)
  {
    match v
    case Null => false
    case Int(i) => i != 0
    case Real(r) => r != 0.0
    case Bool(b) => b
    case Str(s) => s != ""
    case Compound(json) => json != "[]" && json != "{}"
  }

  /** The `data` cell of a record: SQL NULL or JSON null (both Python None), a JSON
      object (a dict), or any other JSON value at the top level (an array, a
      string, a number or a boolean). */
  datatype Payload = NoData | Fields(fields: map<string, Value>) | NonDict(value: Value)

  /** Python truthiness of the cell: None is false, a dict is true when not empty. */
  predicate PayloadTruthy(p: Payload)
  {
    match p
    case NoData => false
    case Fields(m) => m != map[]
    case NonDict(v) => ValueTruthy(v)
  }

  /** A paddock boundary; its area and its intersections come from the geometry library. */
  datatype Polygon = Polygon(wkt: string)

  /** One joined row: the record's year, namespace and data, the historical
      paddock id it was filed under and that paddock's geometry. */
  datatype Record = Record(year: int, namespace: string, data: Payload, paddockId: string, geometry: Polygon)

  predicate HasKey(r: Record, key: string)
  {
    r.data.Fields? && key in r.data.fields
  }
}
