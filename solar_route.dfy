/**
 * The `GET /noaa/solar-irradience` handler of server/routes/routes.js:
 * check the query, build the request to the NOAA climate data service,
 * and turn its outcome into the HTTP response. The upstream call is a
 * parameter: the outcome it had.
 */
module SolarRoute {
  import opened Wrappers
  import opened JsValues

  /** A value of the parsed query string: text, a repeated key, or a bracketed key. */
  datatype QueryValue =
    | QText(text: string)
    | QList(items: seq<QueryValue>)
    | QNested(fields: map<string, QueryValue>)

  /** The four query fields the handler reads; `None` is an absent key. */
  datatype Query = Query(
    startDate: Option<QueryValue>,
    endDate: Option<QueryValue>,
    locationId: Option<QueryValue>,
    stationId: Option<QueryValue>)

  /** `!!value`: absent keys and empty text are falsy; lists and nested values are objects. */
  predicate Present(v: Option<QueryValue>) {
    v.Some? && v.value != QText("")
  }

  predicate AllPresent(q: Query) {
    Present(q.startDate) && Present(q.endDate) && Present(q.locationId) && Present(q.stationId)
  }

  /** The `params` of the upstream request. */
  datatype UpstreamParams = UpstreamParams(
    datasetid: string,
    datatypeid: string,
    startdate: QueryValue,
    enddate: QueryValue,
    locationid: QueryValue,
    stationid: QueryValue,
    units: string,
    limit: int)

  /** A GET to `url` with header `token` and query parameters `params`. */
  datatype UpstreamRequest = UpstreamRequest(url: string, token: Option<string>, params: UpstreamParams)

  const NoaaApiUrl: string := "https://www.ncei.noaa.gov/cdo-web/api/v2/data"

  /**
   * How the upstream call ended: `axios.get` rejected (a network error or a
   * status outside 2xx), or resolved with a parsed body `data`.
   */
  datatype UpstreamOutcome = Rejected | Resolved(data: JsonValue)

  datatype Response = Response(status: int, body: JsValue)

  /** What one request to the route does: at most one upstream request, and its response. */
  datatype Handled = Handled(request: Option<UpstreamRequest>, response: Response)

  /** `{ error: message }`. */
  function ErrorBody(message: string): JsValue {
    Json(JObj(map["error" := JStr(message)]))
  }

  const MissingInput: Response := Response(400, ErrorBody("Missing input parameters"))
  const FetchFailed: Response := Response(500, ErrorBody("Failed to fetch data"))

  /** The upstream request for a query whose four fields are present. */
  function UpstreamFor(q: Query, token: Option<string>): (r: UpstreamRequest)
    requires AllPresent(q)
  {
    UpstreamRequest(NoaaApiUrl, token,
      UpstreamParams("GSOM", "TEMP", q.startDate.value, q.endDate.value,
        q.locationId.value, q.stationId.value, "metric", 1000))
  }

  /** The query an upstream request's pass-through parameters came from. */
  function QueryOf(p: UpstreamParams): Query {
    Query(Some(p.startdate), Some(p.enddate), Some(p.locationid), Some(p.stationid))
  }

  /** `response.data.results`, sent with `res.json`; reading it from `null` fails with 500. */
  function Respond(outcome: UpstreamOutcome): (r: Response)
    ensures r.status == 200 || r == FetchFailed
    ensures r.status == 200 <==> outcome.Resolved? && !outcome.data.JNull?
    ensures r.status == 200 ==> Field(outcome.data, "results") == Some(r.body)
    ensures r.status == 200 && outcome.data.JObj? && "results" in outcome.data.fields ==>
      r.body == Json(outcome.data.fields["results"])
  {
    match outcome
    case Rejected => FetchFailed
    case Resolved(data) =>
      match Field(data, "results")
      case None => FetchFailed
      case Some(results) => Response(200, results)
  }

  /** The handler, given the query, the configured token and the upstream outcome. */
  function Handle(q: Query, token: Option<string>, outcome: UpstreamOutcome): (h: Handled)
    ensures h.request.Some? <==> AllPresent(q)
    ensures !AllPresent(q) ==> h.response == MissingInput
    ensures h.response.status == 200 || h.response.status == 400 || h.response.status == 500
  {
    if !AllPresent(q) then Handled(None, MissingInput)
    else Handled(Some(UpstreamFor(q, token)), Respond(outcome))
  }

  /** A missing or empty field is answered with 400 without contacting the service. */
  lemma MissingFieldRejected(q: Query, token: Option<string>, outcome: UpstreamOutcome)
    requires !Present(q.startDate) || !Present(q.endDate) || !Present(q.locationId) || !Present(q.stationId)
    ensures Handle(q, token, outcome) == Handled(None, Response(400, Json(JObj(map["error" := JStr("Missing input parameters")]))))
  {
  }

  /**
   * With every field present, exactly one request is made, for monthly
   * temperature summaries in metric units, up to 1000 records, with the
   * four query values passed through: reading them back gives the query.
   */
  lemma UpstreamRequestFixed(q: Query, token: Option<string>, outcome: UpstreamOutcome)
    requires AllPresent(q)
    ensures Handle(q, token, outcome).request.Some?
    ensures Handle(q, token, outcome).request.value.url == NoaaApiUrl
    ensures Handle(q, token, outcome).request.value.params.datasetid == "GSOM"
    ensures Handle(q, token, outcome).request.value.params.datatypeid == "TEMP"
    ensures Handle(q, token, outcome).request.value.params.units == "metric"
    ensures Handle(q, token, outcome).request.value.params.limit == 1000
    ensures QueryOf(Handle(q, token, outcome).request.value.params) == q
  {
  }

  /** The configured token travels unchanged as the `token` header. */
  lemma TokenPassedThrough(q: Query, token: Option<string>, outcome: UpstreamOutcome)
    requires AllPresent(q)
    ensures Handle(q, token, outcome).request.value.token == token
  {
  }

  /** The request depends on the query and the token only, never on the outcome. */
  lemma RequestIndependentOfOutcome(q: Query, token: Option<string>, o1: UpstreamOutcome, o2: UpstreamOutcome)
    ensures Handle(q, token, o1).request == Handle(q, token, o2).request
  {
  }

  /** On success the body is `results` verbatim, `undefined` when the data has none. */
  lemma SuccessPassesResults(q: Query, token: Option<string>, data: map<string, JsonValue>)
    requires AllPresent(q)
    ensures "results" in data ==> Handle(q, token, Resolved(JObj(data))).response == Response(200, Json(data["results"]))
    ensures "results" !in data ==> Handle(q, token, Resolved(JObj(data))).response == Response(200, Undefined)
  {
  }

  /** A rejected call, and data that is `null`, both give 500 `{ error: "Failed to fetch data" }`. */
  lemma FailureGives500(q: Query, token: Option<string>)
    requires AllPresent(q)
    ensures Handle(q, token, Rejected).response == Response(500, Json(JObj(map["error" := JStr("Failed to fetch data")])))
    ensures Handle(q, token, Resolved(JNull)).response == Response(500, Json(JObj(map["error" := JStr("Failed to fetch data")])))
  {
  }

  /** The status tells the three outcomes apart. */
  lemma StatusClassifies(q: Query, token: Option<string>, outcome: UpstreamOutcome)
    ensures Handle(q, token, outcome).response.status == 400 <==> !AllPresent(q)
    ensures Handle(q, token, outcome).response.status == 200 <==>
      AllPresent(q) && outcome.Resolved? && !outcome.data.JNull?
    ensures Handle(q, token, outcome).response.status == 500 <==>
      AllPresent(q) && (outcome.Rejected? || outcome.data.JNull?)
  {
  }

  /** Data that is not an object (a string axios left unparsed, an array) has no `results`: 200 with `undefined`. */
  lemma NonObjectDataGivesUndefined(q: Query, token: Option<string>, data: JsonValue)
    requires AllPresent(q)
    requires !data.JObj? && !data.JNull?
    ensures Handle(q, token, Resolved(data)).response == Response(200, Undefined)
  {
  }

  /** A repeated key is an array, which is truthy: it passes the check and is forwarded as is. */
  lemma RepeatedKeyForwarded(a: QueryValue, b: QueryValue, end: QueryValue, loc: QueryValue, station: QueryValue, token: Option<string>)
    requires end != QText("") && loc != QText("") && station != QText("")
    ensures Handle(Query(Some(QList([a, b])), Some(end), Some(loc), Some(station)), token, Rejected).request.Some?
    ensures Handle(Query(Some(QList([a, b])), Some(end), Some(loc), Some(station)), token, Rejected).request.value.params.startdate == QList([a, b])
  {
  }
}
