# blued-location in Dafny

A model of the core of blued-location, a Cloudflare Worker that stores GPS
reports sent by the Overland tracking app and serves them back filtered by
device, time range and bounding box. The model covers:

- **Clustering** (`Nominatim.GroupPointsByDistance`, src/services/nominatim.ts).
  It is a greedy single pass over the points. Each point not yet claimed
  becomes the anchor of a new group. The group then claims every unclaimed
  point within the threshold of that anchor, 50 m by default. The method
  keeps the source's two nested loops and its set of claimed indices. It is
  proved against predicates stating the result: the order of groups and
  members, distinct indices, coverage, every member within the threshold of
  its anchor, maximality, and anchors pairwise farther apart than the
  threshold. Lemmas derive the partition property and the fact that points
  at identical coordinates share a group.
- **Reverse geocoding** (`Nominatim.ReverseGeocode`).
  - The network is a script of outcomes, one per attempt. Sleeps are
    recorded, not performed.
  - The method's loop is proved equal to `Run`, a recursive specification
    made of one `Classify` step per attempt.
  - Lemmas on `Run` give the attempt bound, the delays, and the first
    terminal reply ending the call.
  - `extractPoi` is proved against a "first present field" reference.
- **Query schema** (`QuerySchema`, src/schemas/query.ts). The regular
  expressions become recognisers over characters, proved equal to their
  languages. The module also covers `parseBbox` and the format picklist.
- **Statements sent to the database** (`Queries`, src/db/queries.ts). The SQL
  text and bindings of `getLocations`, and the batch of `insertLocations`.
  Placeholder and binding counts agree, and conditions keep a fixed order.
- **Bearer-token check** (`Auth`, src/auth.ts) and **router** (`Router`,
  src/router.ts).
- **The GET and POST handlers** (`GetLocationsHandler`, `PostLocationsHandler`).
  For each input they state the response and the statements executed.

JavaScript semantics that matter are explicit:
- `Num` has a NaN case;
- truthiness (`if (x)`) is kept apart from `??`;
- `split(" ")` and `join` are modelled on strings.

`fetch`, `sleep`, the database and `JSON.parse`/`JSON.stringify` become
function parameters. So do the number/string conversions (`parseInt`,
`Number`, `toString`) and the valibot schemas the model does not spell out.

Behaviours of the code worth knowing, all kept in the model:
- when every attempt is retried, `reverseGeocode` sleeps after the last attempt too and then returns null; it does not throw;
- an ok reply whose body is JSON `null` is retried, and so is one with a display name but no `address` object. Reading either throws inside the `try`, so the catch retries it. Only an empty or missing display name ends the call with null at once;
- the Retry-After delay is `parseInt(value, 10) * 1000`, so a fractional or date value is truncated or becomes NaN;
- the grouping is a partition of the points only when their indices are unique. With a repeated index, each index still appears at most once in the result, but some input points are dropped (`Nominatim.Partition` assumes unique indices). Among points sharing an index, the one kept is the first in input order that lies within the threshold of an anchor while its index is unclaimed.

## Model

| member | source | states |
|---|---|---|
| Nominatim.GroupPointsByDistance | src/services/nominatim.ts:151-179 | empty input gives no groups; groups are non-empty and hold input points in input order (anchors by position, members by position); no index is held twice; every input index is claimed; each member lies within the threshold (default 50) of its group's anchor; an unclaimed point within the threshold of an anchor is never left out; a point is skipped as an anchor only if an earlier group claimed its index; with a repeated index, the point a group holds is the first carrying that index within the threshold of the anchor, so a later point reusing a claimed index is dropped |
| Nominatim.ClaimWithin | src/services/nominatim.ts:163-173 | the inner loop: the group starts with the anchor, its other members are later input points in input order, unclaimed before, with distinct indices and within the threshold of the anchor; every point within the threshold ends up claimed; no earlier point carrying a member's index is within the threshold of the anchor; the claimed set grows by exactly the group's indices |
| Nominatim.MembersDistinct | src/services/nominatim.ts:158-171 | no index is held by two member slots, across or within groups |
| Nominatim.AnchorsApart | src/services/nominatim.ts:160-176 | every later anchor is farther than the threshold from every earlier anchor |
| Nominatim.ClaimedEarlier | src/services/nominatim.ts:161 | an index of group g already claimed by the first h groups means g < h |
| Nominatim.MemberIsPoint | src/services/nominatim.ts:163-171 | with unique indices, the member carrying a point's index is that very point |
| Nominatim.Partition | src/services/nominatim.ts:151-179 | with unique indices, every input point is a member of some group (and of one only, by MembersDistinct) |
| Nominatim.SameSpotNotLater | src/services/nominatim.ts:166-172 | a point at the coordinates of a member of group g is claimed by g or an earlier group |
| Nominatim.SameSpotSameGroup | src/services/nominatim.ts:151-179 | with unique indices, a non-negative threshold and a distance that is 0 between identical coordinates, two points at the same coordinates share a group |
| Nominatim.ExtractPoi | src/services/nominatim.ts:117-120 | the POI is the first present of amenity, shop, tourism, building |
| Nominatim.FirstPresentIsFirst | src/services/nominatim.ts:119 | a `??` chain is absent exactly when every entry is, and otherwise gives an entry with nothing present before it |
| Nominatim.PoiIsFirstPresentField | src/services/nominatim.ts:117-120 | the POI is absent exactly when all four fields are absent, and otherwise is the first present field |
| Nominatim.EmptyAmenityKept | src/services/nominatim.ts:119 | an empty amenity is still the POI (`??` does not test truthiness) |
| Nominatim.Classify | src/services/nominatim.ts:70-110 | an attempt retries exactly on a thrown fetch, a 429, a 5xx, or an ok reply whose reading throws; the delay is Retry-After seconds times 1000 only for a 429 with a truthy header, otherwise initialDelay times 2^attempt; a result comes only from an ok reply with a truthy display name and an address, and carries that name and the extracted POI; every other reply returns null |
| Nominatim.Attempt | src/services/nominatim.ts:70-110 | the body of one attempt, checks in the source's order, gives exactly the step Classify specifies |
| Nominatim.AttemptCount | src/services/nominatim.ts:69 | the number of attempts is 0 for a NaN or negative maxRetries, and otherwise one more than the largest whole number not above it |
| Nominatim.AttemptRuns | src/services/nominatim.ts:69 | attempt n runs exactly when n <= maxRetries (none for a negative or NaN maxRetries) |
| Nominatim.Run | src/services/nominatim.ts:69-114 | never more fetches than attempts; one sleep per fetch except after the fetch that stops the loop; a result always comes from the last fetch |
| Nominatim.RunThrough | src/services/nominatim.ts:69-111 | attempts that all retry contribute their sleeps, in order, and one fetch each before the rest of the run |
| Nominatim.AllRetryable | src/services/nominatim.ts:69-114 | when every attempt retries, the result is null after one fetch and one sleep per attempt, the last attempt included |
| Nominatim.StopsAtFirstFinish | src/services/nominatim.ts:69-111 | the first attempt that does not retry ends the call with its own result, after k+1 fetches and the k earlier sleeps |
| Nominatim.RequestHeaders | src/services/nominatim.ts:60-65 | User-Agent is always sent; From is sent exactly when the configured email is truthy, with that email |
| Nominatim.RequestUrl | src/services/nominatim.ts:52-58 | path /reverse on the configured base (the public server by default) |
| Nominatim.RequestUrlParams | src/services/nominatim.ts:53-58 | the query parameters are format=json, lat, lon, addressdetails=1 and accept-language=ja, in that order, with lat and lon written with toString |
| Nominatim.ReverseGeocode | src/services/nominatim.ts:43-115 | the result, the sleeps in order and the number of fetches are those of Run for maxRetries ?? 3 and initialDelayMs ?? 1000; every fetch sends the one request built from RequestUrl and RequestHeaders |
| Nominatim.DefaultAttempts | src/services/nominatim.ts:40-49 | the default maxRetries gives four attempts |
| Nominatim.ServerErrorsBackOff | src/services/nominatim.ts:83-88 | a server answering every attempt with a 5xx is asked once per attempt, every attempt sleeps initialDelay times 2^attempt, and the result is null |
| Nominatim.Backoff | src/services/nominatim.ts:76 | attempt 0 waits the initial delay; the delay is NaN exactly when the initial delay is; a non-negative initial delay is never shortened |
| Nominatim.BackoffDoubles | src/services/nominatim.ts:84 | each attempt's backoff is twice the previous attempt's |
| Nominatim.DefaultBackoffSchedule | src/services/nominatim.ts:84 | with the defaults the backoff delays are 1000, 2000, 4000 and 8000 ms |
| Nominatim.RetryAfterThenSuccess | src/services/nominatim.ts:74-80 | a 429 with Retry-After 2, then a good reply: two fetches, one sleep of 2000 ms, and the display name with its POI |
| Auth.BearerToken | src/auth.ts:15-20 | the token of a well-formed header: the header is "Bearer " plus a token holding no space |
| Auth.SplitMatchesBearer | src/auth.ts:15-16 | `split(" ")` giving exactly ["Bearer", t] accepts exactly the headers of the form "Bearer " + t, with t holding no space |
| Auth.VerifyBearerToken | src/auth.ts:5-26 | missing or empty header, malformed header and wrong token are each reported exactly in their own case, in that order; success exactly for "Bearer " + the expected token (a token containing a space can never succeed) |
| Auth.OtherSchemeRejected | src/auth.ts:16-18 | any non-empty header not starting with "Bearer " ("Basic ...", a lower-case scheme, a bare token) is a format error, whatever the expected token |
| Auth.DoubledSpaceRejected | src/auth.ts:15-18 | "Bearer  token" (two spaces) is a format error, not a token mismatch |
| Router.Dispatch | src/router.ts:26-42 | every /api/ request failing auth gets that failure; the POST and GET handlers are reached exactly by authenticated POST and GET to /api/locations; other methods there get 405; every other path gets 404 |
| Router.HandleRequest | src/router.ts:19-46 | 401 with the auth error code, the handlers' responses as they are, 405 "Method Not Allowed" and 404 "Not Found" as text bodies |
| Router.NonApiIgnoresAuth | src/router.ts:26 | a path outside /api/ is routed without looking at the header or the token |
| Router.AuthBeforeRouting | src/router.ts:26-31 | a bad header on any /api/ path gives the same 401 whatever the method or path |
| Router.HandlersRequireToken | src/router.ts:26-40 | a handler runs only for the header "Bearer " + the API token |
| Router.UnknownRouteAndMethod | src/router.ts:34-45 | /api/unknown is not found; DELETE on /api/locations is not allowed |
| QuerySchema.IsDateString | src/schemas/query.ts:3 | accepts exactly ten characters with dashes at positions 4 and 7 and digits everywhere else |
| QuerySchema.DateStringIsThreeGroups | src/schemas/query.ts:3 | a date string is exactly three dash-separated digit groups of widths 4, 2 and 2 |
| QuerySchema.NumberTokenAlphabet | src/schemas/query.ts:8 | a bbox number token holds only digits, a minus sign and a point |
| QuerySchema.NumberTokenHasNoComma | src/schemas/query.ts:8 | a bbox number token holds no comma |
| QuerySchema.IsBboxString | src/schemas/query.ts:6-9 | an accepted bbox string holds only digits, minus signs, points and commas |
| QuerySchema.BboxRecogniserMatchesPattern | src/schemas/query.ts:6-9 | the recogniser accepts exactly the language of the bbox regular expression, and an accepted string splits into four parts |
| QuerySchema.ParseBbox | src/schemas/query.ts:24-32 | an accepted bbox string is four number tokens joined by commas, and the result converts them in order into sw_lon, sw_lat, ne_lon, ne_lat |
| QuerySchema.ParseBboxAssignsInOrder | src/schemas/query.ts:24-32 | four number tokens joined by commas are accepted and parse to sw_lon, sw_lat, ne_lon, ne_lat in that order |
| QuerySchema.ParseFormat | src/schemas/query.ts:10 | only "geojson", "json" and "jsonl" are accepted, each as its own format |
| QuerySchema.FormatRoundTrip | src/schemas/query.ts:10 | the picklist reads back every format's name, and only that name |
| QuerySchema.ValidateQuery | src/schemas/query.ts:12-20 | success exactly when every present known field passes its check; the string fields are kept as given, limit becomes parseInt of its text, format its picklist value; unknown keys are dropped |
| QuerySchema.InvalidDateRefused | src/schemas/query.ts:3 | date=invalid is refused |
| Queries.ConditionPlaceholders | src/db/queries.ts:25-45 | each condition holds one placeholder per value it binds |
| Queries.ConditionsInFixedOrder | src/db/queries.ts:25-45 | conditions always come in the order device, from, to, lon range, lat range |
| Queries.DevicePresent | src/db/queries.ts:25-28 | the device condition is present exactly when device_id is truthy |
| Queries.FromPresent | src/db/queries.ts:30-33 | the from condition is present exactly when from is truthy |
| Queries.ToPresent | src/db/queries.ts:35-38 | the to condition is present exactly when to is truthy |
| Queries.BboxPresent | src/db/queries.ts:40-45 | the lon and lat range conditions end the list exactly when a bbox is given |
| Queries.ConditionsPresentWhenTruthy | src/db/queries.ts:25-45 | the device, from and to conditions are present exactly when their field is truthy, and the two bbox conditions exactly when a bbox is given |
| Queries.JoinedPlaceholders | src/db/queries.ts:47 | the condition texts joined with " AND " hold exactly one placeholder per binding of the conditions (the separator adds none) |
| Queries.SqlPlaceholders | src/db/queries.ts:47-51 | the SELECT text holds one placeholder per condition value plus one for the limit |
| Queries.BuildConditions | src/db/queries.ts:22-45 | the condition texts and bindings are those of the active conditions, in order |
| Queries.GetLocations | src/db/queries.ts:18-55 | the SELECT text with the WHERE clause (omitted when there is no condition) and the ordering suffix, the bindings followed by limit ?? 1000, and one placeholder per binding |
| Queries.SelectStatement | src/db/queries.ts:47-51 | the prepared statement has exactly one placeholder per binding |
| Queries.BboxBindingOrder | src/db/queries.ts:25-51 | with a bbox, whatever other filters are present, the bindings end with sw_lon, ne_lon, sw_lat, ne_lat and the limit, after the device, from and to values |
| Queries.NoFilterNoWhere | src/db/queries.ts:47-48 | without filters there is no WHERE clause and the limit (1000 by default) is the only binding |
| Queries.InsertLocations | src/db/queries.ts:3-16 | an empty list sends nothing; otherwise one statement per record in order, binding device id, geojson, and the address and poi themselves (NULL exactly when absent); the count is the number of records |
| Queries.InsertPlaceholders | src/db/queries.ts:11-12 | the INSERT text holds exactly as many placeholders as each statement binds |
| GetLocationsHandler.ParamsOf | src/handlers/get-locations.ts:44-60 | device_id, from, to, limit and bbox are passed on exactly when truthy, unchanged (the bbox through parseBbox); date and format are not passed |
| GetLocationsHandler.BuildParams | src/handlers/get-locations.ts:44-60 | the step-by-step filling of params gives ParamsOf |
| GetLocationsHandler.DateIgnored | src/handlers/get-locations.ts:41-60 | the date parameter never changes the statement |
| GetLocationsHandler.FalsyLimitUsesDefault | src/handlers/get-locations.ts:58-60 | a limit of 0 or NaN is not passed on, so the statement binds 1000 |
| GetLocationsHandler.EmptyFiltersIgnored | src/handlers/get-locations.ts:46-54 | empty device_id, from and to values give the statement of the query without them |
| GetLocationsHandler.EmptyBboxRefused | src/handlers/get-locations.ts:28-39 | an empty bbox fails validation |
| GetLocationsHandler.Geojsons | src/handlers/get-locations.ts:68 | one stored text per row, in row order |
| GetLocationsHandler.ParseAll | src/handlers/get-locations.ts:78 | parsing succeeds exactly when every text parses, and then gives each text's value in order |
| GetLocationsHandler.Render | src/handlers/get-locations.ts:64-83 | jsonl: the stored texts joined by newlines, as application/x-ndjson, not re-serialised; json: the rows; geojson: a FeatureCollection of the parsed rows in order, or 500 database_error when a row does not parse |
| GetLocationsHandler.JsonLinesRoundTrip | src/handlers/get-locations.ts:66-70 | when no stored text holds a newline, splitting a non-empty jsonl body at newlines gives back the rows' texts, and there are one fewer newlines than rows |
| GetLocationsHandler.HandleGetLocations | src/handlers/get-locations.ts:20-88 | an invalid query gives 400 invalid_query_params and runs nothing; a valid one runs exactly the statement for its truthy filters, then gives 500 database_error if it fails, and otherwise renders the rows in the requested format (geojson by default) |
| PostLocationsHandler.Records | src/handlers/post-locations.ts:50-57 | one record per feature, in order: the device id or "unknown" (an empty id is kept), the serialised feature, no address or POI |
| PostLocationsHandler.HandlePostLocations | src/handlers/post-locations.ts:20-65 | a non-JSON body gives 400 invalid_json and a failed validation 400 validation_failed, both writing nothing; otherwise the batch for the records is sent (none for an empty list) and the answer is 500 database_error when it fails, else 200 ok |
| PostLocationsHandler.OneInsertPerFeature | src/handlers/post-locations.ts:50-60 | every feature becomes one INSERT, in order, binding its device id or "unknown", its serialisation, and NULL address and POI |
| PostLocationsHandler.EmptyPayloadWritesNothing | src/handlers/post-locations.ts:59 | an empty locations list sends no batch |
| PostLocationsHandler.StoredFeaturesReadBack | src/handlers/post-locations.ts:55 | when JSON.parse undoes JSON.stringify, the stored features are rendered by GET as a FeatureCollection of exactly those features, in order |
| Strings.Split | src/auth.ts:15 | `split` on a one-character separator gives at least one part, and no part holds the separator |
| Strings.JoinChars | src/handlers/get-locations.ts:68 | every character of a `join` comes from one of the parts or from the separator |
| Strings.JoinSplit | src/auth.ts:15 | joining the parts of a split with the separator gives the original string back |
| Strings.SplitJoin | src/schemas/query.ts:30 | splitting the join of separator-free parts gives the parts back |

## Left out

- `haversineDistance` and `toRad` (src/services/nominatim.ts:123-141): floating-point trigonometry. The distance is a function parameter. Only `Nominatim.SameSpotNotLater` and `Nominatim.SameSpotSameGroup` assume anything of it: that it is 0 for identical coordinates.
- Nominatim.GroupPointsByDistance: thresholds and distances are exact reals. A NaN coordinate or threshold (every comparison false) is not modelled. The inner loop is its own method, `ClaimWithin`, so that each proof stays small.
- Nominatim.ReverseGeocode: `fetch`, `sleep` and the `console` messages are not modelled. Replies are a script indexed by attempt, and delays are recorded rather than slept. The URL and headers are built once before the loop, so the fetches are recorded as that one request and their number. `lastError` only feeds a log message and is left out. A `display_name` that is truthy but not a string is not modelled.
- Nominatim.RequestUrl: URL resolution against the base (an absolute path replaces any path of the base) and percent-encoding are not modelled. The base is kept as given.
- Nominatim.ReverseGeocode: the base is assumed to parse. `new URL("/reverse", baseUrl)` runs before the `try`, so an unparsable base (such as an empty `baseUrl`, which `??` keeps) makes the call reject before any fetch; the model always returns the trace of `Run`.
- JsValues.Num: a number is a finite real or NaN; there is no +Infinity or -Infinity. So `maxRetries: Infinity` (a loop that retries a failing server forever) cannot be expressed, `initialDelayMs * Math.pow(2, attempt)` never overflows to Infinity, and `Number("1e999")` in a bbox is not Infinity.
- Nominatim.AttemptCount: the number of attempts is always finite; an infinite `maxRetries` is not modelled (see `JsValues.Num`). A fractional maxRetries is handled through its floor, which is what `attempt <= maxRetries` amounts to for the integer `attempt`. Huge attempt numbers, where JavaScript's `2^attempt` loses precision, are exact here.
- Number and string conversions (`parseInt`, `Number`, `toString`), `JSON.parse`, `JSON.stringify` and valibot's `isoTimestamp` are parameters, not models.
- The Overland payload schema (src/schemas/overland.ts) is not part of this model. POST validation is a parameter that returns the payload's features or fails.
- The `details` list of validation issues in 400 responses is not modelled. Error bodies carry only their `error` code.
- Executing SQL on D1 is out of scope. The model states the statements and bindings sent. Query results and batch success are parameters. Filtering by `date` is not implemented by the source either (the handler never passes it).
- The enrichment orchestrator that would call the clustering and geocoding and pace requests between clusters is not part of this model. It does not appear in the source files modelled here.
- src/index.ts (the Worker entry point) and src/db/types.ts beyond the records in `Types` are not part of this model.
- Queries.BuildConditions: the condition list is built in its own method rather than inline in `getLocations`, so that each proof stays small.
