/**
 * `handlePostLocations` of src/handlers/post-locations.ts: read the body as
 * JSON, validate it as an Overland payload, turn every feature into a
 * location record and insert them all in one batch.
 */
module PostLocationsHandler {
  import opened Wrappers
  import opened JsValues
  import opened Types
  import Http
  import Queries
  import QuerySchema
  import GetLocationsHandler

  /**
   * A feature of a validated payload: the JSON value `JSON.stringify`
   * serialises, and its `properties.device_id`.
   */
  datatype Feature = Feature(json: Json, deviceId: Option<string>)

  const UnknownDevice := "unknown"

  /**
   * The records built from the features, in order: the device id or
   * "unknown" when there is none (an empty id is kept, `??` is not a
   * truthiness test), the serialised feature, and no address or POI.
   */
  function Records(features: seq<Feature>, stringify: Json -> string): (locations: seq<LocationInsert>)
    ensures |locations| == |features|
    ensures forall i :: 0 <= i < |features| ==>
              && locations[i].deviceId == (if features[i].deviceId.Some? then features[i].deviceId.value else UnknownDevice)
              && locations[i].geojson == stringify(features[i].json)
              && locations[i].address.None? && locations[i].poi.None?
  {
    seq(|features|, i requires 0 <= i < |features| =>
      LocationInsert(if features[i].deviceId.Some? then features[i].deviceId.value else UnknownDevice, stringify(features[i].json), None, None))
  }

  /**
   * `handlePostLocations`. `body` is what `request.json()` gives (None when
   * it throws); `validate` is `v.safeParse(OverlandPayload, _)` (None on
   * failure, otherwise the payload's `locations`); `stringify` is
   * `JSON.stringify`; `runBatch` says whether `DB.batch` succeeds.
   * Returns the response and the batches sent to the database.
   */
  method HandlePostLocations(body: Option<Json>, validate: Json -> Option<seq<Feature>>,
                             stringify: Json -> string, runBatch: seq<Queries.Statement> -> bool)
    returns (resp: Http.Response, sent: seq<seq<Queries.Statement>>)
    // a body that is not JSON is refused before validation
    ensures body.None? ==> resp == Http.ErrorResponse("invalid_json", 400) && sent == []
    // an invalid payload is refused and nothing is written
    ensures body.Some? && validate(body.value).None? ==>
              resp == Http.ErrorResponse("validation_failed", 400) && sent == []
    // a valid one sends the batch for its records (none for an empty list) and reports its outcome
    ensures body.Some? && validate(body.value).Some? ==>
              var plan := Queries.InsertLocations(Records(validate(body.value).value, stringify));
              && sent == (if plan.batch.Some? then [plan.batch.value] else [])
              && resp == if plan.batch.Some? && !runBatch(plan.batch.value)
                         then Http.ErrorResponse("database_error", 500)
                         else Http.Response(200, Some(Http.Json), Http.OkBody)
  {
    if body.None? {
      return Http.ErrorResponse("invalid_json", 400), [];
    }
    var parsed := validate(body.value);
    if parsed.None? {
      return Http.ErrorResponse("validation_failed", 400), [];
    }
    var locations := Records(parsed.value, stringify);
    var plan := Queries.InsertLocations(locations);
    sent := [];
    if plan.batch.Some? {
      sent := [plan.batch.value];
      if !runBatch(plan.batch.value) {
        resp := Http.ErrorResponse("database_error", 500);
        return;
      }
    }
    resp := Http.Response(200, Some(Http.Json), Http.OkBody);
  }

  /**
   * Every feature becomes one INSERT, in payload order, binding its device
   * id (or "unknown"), its serialisation, and NULL address and POI.
   */
  lemma OneInsertPerFeature(features: seq<Feature>, stringify: Json -> string)
    requires |features| >= 1
    ensures var plan := Queries.InsertLocations(Records(features, stringify));
            && plan.batch.Some? && |plan.batch.value| == |features| && plan.count == |features|
            && forall i :: 0 <= i < |features| ==>
                 plan.batch.value[i] == Queries.Statement(Queries.InsertSql,
                   [Queries.Text(features[i].deviceId.GetOr(UnknownDevice)), Queries.Text(stringify(features[i].json)),
                    Queries.Null, Queries.Null])
  {
    var locations := Records(features, stringify);
    var plan := Queries.InsertLocations(locations);
    forall i | 0 <= i < |features|
      ensures plan.batch.value[i] == Queries.Statement(Queries.InsertSql,
                [Queries.Text(features[i].deviceId.GetOr(UnknownDevice)), Queries.Text(stringify(features[i].json)),
                 Queries.Null, Queries.Null])
    {
      var st := plan.batch.value[i];
      assert st.bindings == [st.bindings[0], st.bindings[1], st.bindings[2], st.bindings[3]];
    }
  }

  /** An empty `locations` list writes nothing and still answers ok. */
  lemma EmptyPayloadWritesNothing(stringify: Json -> string)
    ensures Queries.InsertLocations(Records([], stringify)).batch.None?
  {
  }

  /**
   * What POST stores, GET gives back: when `JSON.parse` undoes
   * `JSON.stringify` on the features, rows holding the stored texts in order
   * render as a FeatureCollection of exactly those features.
   */
  lemma StoredFeaturesReadBack(features: seq<Feature>, stringify: Json -> string, parseJson: string -> Option<Json>,
                               rows: seq<Http.Row>)
    requires forall i :: 0 <= i < |features| ==> parseJson(stringify(features[i].json)) == Some(features[i].json)
    requires |rows| == |features|
    requires forall i :: 0 <= i < |rows| ==> rows[i].geojson == Records(features, stringify)[i].geojson
    ensures GetLocationsHandler.Render(rows, QuerySchema.GeoJson, parseJson)
         == Http.Response(200, Some(Http.Json),
                          Http.FeatureCollection(seq(|features|, i requires 0 <= i < |features| => features[i].json)))
  {
    var resp := GetLocationsHandler.Render(rows, QuerySchema.GeoJson, parseJson);
    assert forall i :: 0 <= i < |rows| ==> parseJson(rows[i].geojson) == Some(features[i].json);
    assert resp.status == 200;
  }
}
