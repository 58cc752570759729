/**
 * `handleGetLocations` of src/handlers/get-locations.ts: validate the query
 * string, copy the filters that are set into the parameters of
 * `getLocations`, run the statement and render the rows as a GeoJSON
 * FeatureCollection, a raw JSON array, or JSON Lines.
 */
module GetLocationsHandler {
  import opened Wrappers
  import opened JsValues
  import opened Strings
  import opened Types
  import Http
  import QuerySchema
  import Queries

  // ---------------------------------------------------------------- query -> params

  /** `if (query.x) params.x = query.x`: only a truthy value is copied, so "" counts as absent. */
  function IfTruthy(s: Option<string>): (r: Option<string>)
    ensures r.Some? <==> StrTruthy(s)
    ensures r.Some? ==> r == s
  {
    if StrTruthy(s) then s else None
  }

  /**
   * The parameters the handler builds from a validated query: device_id,
   * from, to, bbox and limit when truthy, the bbox through `parseBbox`
   * (`toNumber` is `Number`); `date` and `format` are not copied.
   */
  function ParamsOf(query: QuerySchema.Query, toNumber: string -> Num): (params: GetLocationsParams)
    requires query.bbox.Some? ==> QuerySchema.IsBboxString(query.bbox.value)
    // whatever is passed on is truthy and comes from the query
    ensures params.deviceId.Some? ==> StrTruthy(params.deviceId) && params.deviceId == query.deviceId
    ensures params.from.Some? ==> StrTruthy(params.from) && params.from == query.from
    ensures params.to.Some? ==> StrTruthy(params.to) && params.to == query.to
    ensures params.limit.Some? ==> OptNumTruthy(params.limit) && params.limit == query.limit
    // and every truthy filter is passed on
    ensures StrTruthy(query.deviceId) ==> params.deviceId.Some?
    ensures StrTruthy(query.from) ==> params.from.Some?
    ensures StrTruthy(query.to) ==> params.to.Some?
    ensures OptNumTruthy(query.limit) ==> params.limit.Some?
    ensures params.bbox.Some? <==> StrTruthy(query.bbox)
    ensures params.bbox.Some? ==> params.bbox.value == QuerySchema.ParseBbox(query.bbox.value, toNumber)
  {
    GetLocationsParams(
      IfTruthy(query.deviceId),
      IfTruthy(query.from),
      IfTruthy(query.to),
      if StrTruthy(query.bbox) then Some(QuerySchema.ParseBbox(query.bbox.value, toNumber)) else None,
      if OptNumTruthy(query.limit) then query.limit else None)
  }

  /** The handler's step-by-step filling of `params`, starting from `{}`. */
  method BuildParams(query: QuerySchema.Query, toNumber: string -> Num) returns (params: GetLocationsParams)
    requires query.bbox.Some? ==> QuerySchema.IsBboxString(query.bbox.value)
    ensures params == ParamsOf(query, toNumber)
  {
    params := GetLocationsParams(None, None, None, None, None);
    if StrTruthy(query.deviceId) {
      params := params.(deviceId := query.deviceId);
    }
    if StrTruthy(query.from) {
      params := params.(from := query.from);
    }
    if StrTruthy(query.to) {
      params := params.(to := query.to);
    }
    if StrTruthy(query.bbox) {
      params := params.(bbox := Some(QuerySchema.ParseBbox(query.bbox.value, toNumber)));
    }
    if OptNumTruthy(query.limit) {
      params := params.(limit := query.limit);
    }
  }

  /** `date` is validated but never reaches the statement. */
  lemma DateIgnored(query: QuerySchema.Query, date: Option<string>, toNumber: string -> Num)
    requires query.bbox.Some? ==> QuerySchema.IsBboxString(query.bbox.value)
    ensures Queries.SelectStatement(ParamsOf(query.(date := date), toNumber))
         == Queries.SelectStatement(ParamsOf(query, toNumber))
  {
  }

  /**
   * A limit of 0, or one `parseInt` could not read (NaN), is not copied, so
   * the statement binds the default limit of 1000.
   */
  lemma FalsyLimitUsesDefault(query: QuerySchema.Query, toNumber: string -> Num)
    requires query.bbox.Some? ==> QuerySchema.IsBboxString(query.bbox.value)
    requires query.limit == Some(Num(0.0)) || query.limit == Some(NaN)
    ensures var st := Queries.SelectStatement(ParamsOf(query, toNumber));
            |st.bindings| >= 1 && st.bindings[|st.bindings| - 1] == Queries.Number(Num(1000.0))
  {
  }

  /**
   * Empty `device_id`, `from` and `to` values filter nothing: the statement
   * is the one for the same query without them. (An empty `bbox` never gets
   * this far: the schema refuses it.)
   */
  lemma EmptyFiltersIgnored(query: QuerySchema.Query, toNumber: string -> Num)
    requires query.bbox.Some? ==> QuerySchema.IsBboxString(query.bbox.value)
    requires query.deviceId == Some("") && query.from == Some("") && query.to == Some("")
    ensures var bare := query.(deviceId := None, from := None, to := None);
            Queries.SelectStatement(ParamsOf(query, toNumber)) == Queries.SelectStatement(ParamsOf(bare, toNumber))
  {
  }

  /** The schema refuses an empty `bbox`, so a validated query never carries one. */
  lemma EmptyBboxRefused(raw: map<string, string>, isIsoTimestamp: string -> bool, parseInt: string -> Num)
    requires "bbox" in raw && raw["bbox"] == ""
    ensures QuerySchema.ValidateQuery(raw, isIsoTimestamp, parseInt).None?
  {
    QuerySchema.BboxRecogniserMatchesPattern("");
  }

  // ---------------------------------------------------------------- rendering

  /** `rows.map((row) => row.geojson)`. */
  function Geojsons(rows: seq<Http.Row>): (texts: seq<string>)
    ensures |texts| == |rows|
    ensures forall i :: 0 <= i < |rows| ==> texts[i] == rows[i].geojson
  {
    seq(|rows|, i requires 0 <= i < |rows| => rows[i].geojson)
  }

  /**
   * `texts.map(JSON.parse)`, with `parseJson` returning None where
   * `JSON.parse` throws: None as soon as one text does not parse.
   */
  function ParseAll(texts: seq<string>, parseJson: string -> Option<Json>): (r: Option<seq<Json>>)
    ensures r.Some? <==> forall i :: 0 <= i < |texts| ==> parseJson(texts[i]).Some?
    ensures r.Some? ==> |r.value| == |texts| &&
                        forall i :: 0 <= i < |texts| ==> r.value[i] == parseJson(texts[i]).value
  {
    if texts == [] then Some([])
    else
      match parseJson(texts[0])
      case None => None
      case Some(first) =>
        match ParseAll(texts[1..], parseJson)
        case None => None
        case Some(rest) => Some([first] + rest)
  }

  /**
   * The successful response for the rows in the chosen format. In GeoJSON a
   * row whose text does not parse throws inside the handler's `try`, so the
   * response is the 500 `database_error`.
   */
  function Render(rows: seq<Http.Row>, format: QuerySchema.Format, parseJson: string -> Option<Json>): (resp: Http.Response)
    // JSON Lines: the stored texts as they are, one per line, not re-serialised
    ensures format == QuerySchema.JsonLines ==>
              resp == Http.Response(200, Some(Http.NdJson), Http.Text(Join(Geojsons(rows), "\n")))
    // json: the rows themselves
    ensures format == QuerySchema.Json ==>
              resp == Http.Response(200, Some(Http.Json), Http.RowsBody(rows))
    // geojson: a FeatureCollection of the parsed rows, in row order, or 500 when one does not parse
    ensures format == QuerySchema.GeoJson ==>
              (resp.status == 200 <==> forall i :: 0 <= i < |rows| ==> parseJson(rows[i].geojson).Some?)
    ensures format == QuerySchema.GeoJson && resp.status != 200 ==>
              resp == Http.ErrorResponse("database_error", 500)
    ensures format == QuerySchema.GeoJson && resp.status == 200 ==>
              resp.contentType == Some(Http.Json) && resp.body.FeatureCollection? &&
              |resp.body.features| == |rows| &&
              forall i :: 0 <= i < |rows| ==> resp.body.features[i] == parseJson(rows[i].geojson).value
  {
    match format
    case JsonLines => Http.Response(200, Some(Http.NdJson), Http.Text(Join(Geojsons(rows), "\n")))
    case Json => Http.Response(200, Some(Http.Json), Http.RowsBody(rows))
    case GeoJson =>
      match ParseAll(Geojsons(rows), parseJson)
      case None => Http.ErrorResponse("database_error", 500)
      case Some(features) => Http.Response(200, Some(Http.Json), Http.FeatureCollection(features))
  }

  /**
   * JSON Lines reads back: when no stored text holds a newline, splitting the
   * body at newlines gives the rows' texts, so there are `|rows| - 1` newlines.
   * With no rows the body is empty, which reads back as one empty line.
   */
  lemma JsonLinesRoundTrip(rows: seq<Http.Row>, parseJson: string -> Option<Json>)
    requires |rows| >= 1
    requires forall i :: 0 <= i < |rows| ==> '\n' !in rows[i].geojson
    ensures var body := Render(rows, QuerySchema.JsonLines, parseJson).body;
            Split(body.text, '\n') == Geojsons(rows) && Count(body.text, '\n') == |rows| - 1
  {
    var texts := Geojsons(rows);
    SplitJoin(texts, '\n');
    SplitCount(Join(texts, "\n"), '\n');
  }

  // ---------------------------------------------------------------- handler

  /**
   * `handleGetLocations` for the query string `raw` (`Object.fromEntries` of
   * the URL's parameters). `db` answers a statement with its rows, or None
   * when the query throws. Returns the response and the statements executed.
   */
  method HandleGetLocations(raw: map<string, string>, isIsoTimestamp: string -> bool, parseInt: string -> Num,
                            toNumber: string -> Num, db: Queries.Statement -> Option<seq<Http.Row>>,
                            parseJson: string -> Option<Json>)
    returns (resp: Http.Response, executed: seq<Queries.Statement>)
    // an invalid query is refused before anything reaches the database
    ensures QuerySchema.ValidateQuery(raw, isIsoTimestamp, parseInt).None? ==>
              resp == Http.ErrorResponse("invalid_query_params", 400) && executed == []
    // a valid one runs exactly the statement for its truthy filters, then renders (geojson by default)
    ensures QuerySchema.ValidateQuery(raw, isIsoTimestamp, parseInt).Some? ==>
              var query := QuerySchema.ValidateQuery(raw, isIsoTimestamp, parseInt).value;
              var st := Queries.SelectStatement(ParamsOf(query, toNumber));
              && executed == [st]
              && resp == if db(st).None? then Http.ErrorResponse("database_error", 500)
                         else Render(db(st).value, query.format.GetOr(QuerySchema.GeoJson), parseJson)
  {
    var parsed := QuerySchema.ValidateQuery(raw, isIsoTimestamp, parseInt);
    if parsed.None? {
      return Http.ErrorResponse("invalid_query_params", 400), [];
    }
    var query := parsed.value;
    var params := BuildParams(query, toNumber);
    var sql, bindings := Queries.GetLocations(params);
    var statement := Queries.Statement(sql, bindings);
    executed := [statement];
    var rows := db(statement);
    if rows.None? {
      return Http.ErrorResponse("database_error", 500), executed;
    }
    var format := query.format.GetOr(QuerySchema.GeoJson);
    resp := Render(rows.value, format, parseJson);
  }
}
