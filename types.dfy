/** The records of src/db/types.ts (and the insert record that src/db/queries.ts binds). */
module Types {
  import opened Wrappers
  import opened JsValues

  /** `{sw_lon, sw_lat, ne_lon, ne_lat}`, the numbers `parseBbox` produces. */
  datatype Bbox = Bbox(swLon: Num, swLat: Num, neLon: Num, neLat: Num)

  /** `GetLocationsParams`: every filter is optional. */
  datatype GetLocationsParams = GetLocationsParams(
    deviceId: Option<string>,
    from: Option<string>,
    to: Option<string>,
    bbox: Option<Bbox>,
    limit: Option<Num>)

  /**
   * `LocationInsert`, with the optional `address` and `poi` that
   * `insertLocations` reads (the handler never sets them).
   */
  datatype LocationInsert = LocationInsert(
    deviceId: string,
    geojson: string,
    address: Option<string>,
    poi: Option<string>)
}
