/**
 * The responses the handlers and the router build. JSON bodies are kept as
 * the values they serialise; `details` lists of validation issues are not
 * modelled.
 */
module Http {
  import opened Wrappers
  import JsValues

  /** One row of `getLocations`: `{id, geojson, address, poi}`. */
  datatype Row = Row(id: int, geojson: string, address: Option<string>, poi: Option<string>)

  datatype Body =
    | ErrorBody(error: string)              // {"result": "error", "error": ...}
    | OkBody                                // {"result": "ok"}
    | Text(text: string)                    // a plain or pre-serialised string body
    | RowsBody(rows: seq<Row>)              // the raw row array
    | FeatureCollection(features: seq<JsValues.Json>) // {"type": "FeatureCollection", "features": [...]}

  datatype Response = Response(status: int, contentType: Option<string>, body: Body)

  const Json := "application/json"
  const NdJson := "application/x-ndjson"

  /** `new Response(JSON.stringify({result: "error", error}), {status, headers: {"Content-Type": "application/json"}})`. */
  function ErrorResponse(error: string, status: int): Response
  {
    Response(status, Some(Json), ErrorBody(error))
  }
}
