/**
 * `getPrediction` of frontend/src/lib/utils.js: unit conversion, the body
 * of the POST to the prediction service, and the interpretation of its
 * reply. The exchange itself is a parameter: the reply the service gave.
 */
module Prediction {
  import opened Wrappers
  import opened JsValues
  import opened JsStrings
  import opened JsParseInt
  import opened WindSpeed

  // ----- Unit conversion -----

  /** `(tempFahrenheit - 32) * 5 / 9`, evaluated left to right. */
  function ToCelsius(f: Num): (c: Num)
    ensures c.NaN? <==> f.NaN?
    ensures f.Val? ==> c.v * 9.0 / 5.0 + 32.0 == f.v
  {
    Div(Mul(Sub(f, 32.0), 5.0), 9.0)
  }

  /** `speed * 0.44704`: miles per hour to metres per second. */
  function MphToMs(m: Num): (r: Num)
    ensures r.NaN? <==> m.NaN?
    ensures m.Val? ==> r.v / 0.44704 == m.v
  {
    Mul(m, 0.44704)
  }

  /** The reverse conversion, Celsius to Fahrenheit, as a reference. */
  function ToFahrenheit(c: Num): Num {
    if c.Val? then Val(c.v * 9.0 / 5.0 + 32.0) else NaN
  }

  /** Freezing and boiling points of water, and the point where both scales agree. */
  lemma CelsiusFixedPoints()
    ensures ToCelsius(Val(32.0)) == Val(0.0)
    ensures ToCelsius(Val(212.0)) == Val(100.0)
    ensures ToCelsius(Val(-40.0)) == Val(-40.0)
  {
  }

  /** The conversion is undone by the reference inverse, in both orders. */
  lemma CelsiusRoundTrip(f: Num, c: Num)
    ensures ToFahrenheit(ToCelsius(f)) == f
    ensures ToCelsius(ToFahrenheit(c)) == c
  {
  }

  /** A higher Fahrenheit reading gives a higher Celsius reading. */
  lemma CelsiusIncreasing(a: real, b: real)
    ensures a < b <==> ToCelsius(Val(a)).v < ToCelsius(Val(b)).v
  {
  }

  /** No wind stays no wind. */
  lemma MphToMsZero()
    ensures MphToMs(Val(0.0)) == Val(0.0)
  {
  }

  /** The wind conversion is linear: it commutes with sums and with scaling. */
  lemma MphToMsLinear(a: Num, b: Num, k: real)
    ensures MphToMs(Add(a, b)) == Add(MphToMs(a), MphToMs(b))
    ensures MphToMs(Mul(a, k)) == Mul(MphToMs(a), k)
  {
  }

  // ----- The request -----

  /** The four features the model is given, in order, for a temperature and a wind speed in mph. */
  function Features(tempF: Num, speed: Num): seq<Num> {
    [ToCelsius(tempF), Val(0.1), Val(0.1), MphToMs(speed)]
  }

  /** `JSON.stringify` of an array of numbers, element by element. */
  function RowToJson(row: seq<Num>): (r: seq<JsonValue>)
    ensures |r| == |row|
    ensures forall i :: 0 <= i < |row| ==> r[i] == NumToJson(row[i])
  {
    if |row| == 0 then [] else [NumToJson(row[0])] + RowToJson(row[1..])
  }

  /** The payload `{ inputs: [ row ] }`: a single row. */
  function Payload(row: seq<Num>): JsonValue {
    JObj(map["inputs" := JArr([JArr(RowToJson(row))])])
  }

  datatype Request = Request(url: string, verb: string, headers: map<string, string>, body: JsonValue)

  const PredictUrl: string := "http://127.0.0.1:5000/predict"

  /**
   * The request `getPrediction` sends for a reading: a JSON POST to the
   * service whose body holds, as its single row, the four features.
   */
  function PredictionRequest(tempF: Num, wind: Option<string>): (r: Request)
    ensures r.url == PredictUrl && r.verb == "POST"
    ensures "Content-Type" in r.headers && r.headers["Content-Type"] == "application/json"
    ensures RowOf(r.body) == Some(Features(tempF, ExtractWindSpeed(wind)))
  {
    var row := Features(tempF, ExtractWindSpeed(wind));
    PayloadRoundTrip(row);
    Request(PredictUrl, "POST",
      map["Content-Type" := "application/json", "Accept" := "application/json"],
      Payload(row))
  }

  /** Reading numbers back from JSON: `null` stands for the NaN that was written. */
  function JsonToNum(j: JsonValue): Num {
    if j.JNum? then Val(j.n) else NaN
  }

  /** Every number, NaN included, is read back from what `JSON.stringify` wrote for it. */
  lemma NumJsonRoundTrip(n: Num)
    ensures JsonToNum(NumToJson(n)) == n
  {
  }

  /** The single row of an `{ inputs: [ row ] }` body, if the body has that shape. */
  function RowOf(body: JsonValue): Option<seq<Num>> {
    if body.JObj? && "inputs" in body.fields && body.fields["inputs"].JArr?
      && |body.fields["inputs"].items| == 1 && body.fields["inputs"].items[0].JArr?
    then
      var items := body.fields["inputs"].items[0].items;
      Some(seq(|items|, i requires 0 <= i < |items| => JsonToNum(items[i])))
    else None
  }

  /** Writing a row into the payload and reading it back gives the row. */
  lemma PayloadRoundTrip(row: seq<Num>)
    ensures RowOf(Payload(row)) == Some(row)
  {
    var items := Payload(row).fields["inputs"].items[0].items;
    assert items == RowToJson(row);
    var back := seq(|items|, i requires 0 <= i < |items| => JsonToNum(items[i]));
    assert forall i :: 0 <= i < |row| ==> back[i] == row[i];
    assert back == row;
    assert RowOf(Payload(row)) == Some(back);
  }

  /** The body passes the service's guard: an object holding "inputs". */
  lemma PayloadHasInputs(tempF: Num, wind: Option<string>)
    ensures PredictionRequest(tempF, wind).body.JObj?
    ensures "inputs" in PredictionRequest(tempF, wind).body.fields
  {
  }

  /**
   * The service receives exactly one row of four numbers from which the
   * reading is recovered: the temperature converts back to `tempF`, the
   * constants are 0.1, and the last feature converts back to the extracted
   * wind speed; a NaN feature arrives as `null`.
   */
  lemma RequestCarriesReading(tempF: Num, wind: Option<string>)
    ensures RowOf(PredictionRequest(tempF, wind).body).Some?
    ensures |RowOf(PredictionRequest(tempF, wind).body).value| == 4
    ensures ToFahrenheit(RowOf(PredictionRequest(tempF, wind).body).value[0]) == tempF
    ensures RowOf(PredictionRequest(tempF, wind).body).value[1] == Val(0.1)
    ensures RowOf(PredictionRequest(tempF, wind).body).value[2] == Val(0.1)
    ensures RowOf(PredictionRequest(tempF, wind).body).value[3].NaN? <==> ExtractWindSpeed(wind).NaN?
    ensures ExtractWindSpeed(wind).Val? ==>
      RowOf(PredictionRequest(tempF, wind).body).value[3].v / 0.44704 == ExtractWindSpeed(wind).v
  {
    var row := Features(tempF, ExtractWindSpeed(wind));
    PayloadRoundTrip(row);
    CelsiusRoundTrip(tempF, row[0]);
  }

  /** Freezing air and "10 to 20 mph" send the row [0, 0.1, 0.1, 15 mph in m/s]. */
  lemma RequestExample()
    ensures PredictionRequest(Val(32.0), Some("10 to 20 mph")).body ==
      JObj(map["inputs" := JArr([JArr([JNum(0.0), JNum(0.1), JNum(0.1), JNum(15.0 * 0.44704)])])])
  {
    RangeExample();
    CelsiusFixedPoints();
    RowBody(Val(32.0), Val(15.0), 0.0, 15.0);
  }

  /** The payload for a temperature and a wind speed that are both numbers. */
  lemma RowBody(tempF: Num, speed: Num, c: real, m: real)
    requires ToCelsius(tempF) == Val(c) && speed == Val(m)
    ensures Payload(Features(tempF, speed)) ==
      JObj(map["inputs" := JArr([JArr([JNum(c), JNum(0.1), JNum(0.1), JNum(m * 0.44704)])])])
  {
    var row := Features(tempF, speed);
    assert RowToJson(row) == [JNum(c), JNum(0.1), JNum(0.1), JNum(m * 0.44704)];
  }

  /** A wind text without a number still sends a request, with `null` as the wind feature. */
  lemma RequestWithoutWind(tempF: Num, wind: Option<string>)
    requires ExtractWindSpeed(wind).NaN?
    ensures PredictionRequest(tempF, wind).body.fields["inputs"].items[0].items[3] == JNull
  {
  }

  /** "Calm" is such a text. */
  lemma CalmRequest(tempF: Num)
    ensures PredictionRequest(tempF, Some("Calm")).body.fields["inputs"].items[0].items[3] == JNull
  {
    CalmExample();
    RequestWithoutWind(tempF, Some("Calm"));
  }

  // ----- The reply -----

  /**
   * What came back: the request failed at the transport level (`fetch` or
   * reading the body rejected), or the service answered with a body that
   * `JSON.parse` accepted (`Some`) or rejected (`None`). The HTTP status is
   * not looked at.
   */
  datatype Reply = TransportError | Answered(parsed: Option<JsonValue>)

  /** The `predictions` member of a parsed reply, when the reply has one that is truthy. */
  predicate HasPredictions(reply: Reply) {
    reply.Answered? && reply.parsed.Some? && reply.parsed.value.JObj?
    && "predictions" in reply.parsed.value.fields
    && Truthy(reply.parsed.value.fields["predictions"])
  }

  function PredictionsOf(reply: Reply): JsonValue
    requires HasPredictions(reply)
  {
    reply.parsed.value.fields["predictions"]
  }

  /**
   * The value `getPrediction` resolves to: `predictions[0]` when the reply
   * holds truthy predictions and `null` on every failure; nothing escapes.
   */
  function InterpretReply(reply: Reply): (r: JsValue)
    ensures HasPredictions(reply) ==> Index0(PredictionsOf(reply)) == Some(r)
    ensures !HasPredictions(reply) ==> r == Null
  {
    match reply
    case TransportError => Null
    case Answered(None) => Null
    case Answered(Some(data)) =>
      match Field(data, "predictions")
      case None => Null
      case Some(p) =>
        if p.Json? && Truthy(p.value) then
          match Index0(p.value)
          case Some(first) => first
          case None => Null
        else Null
  }

  /** The whole call: the request made and the value resolved. */
  datatype Call = Call(request: Request, result: JsValue)

  /**
   * `getPrediction(tempFahrenheit, windSpeedMPHAdjacent)`, given the reply:
   * the request for the reading, and a result that is `predictions[0]`
   * when the reply holds truthy predictions and `null` otherwise.
   */
  function GetPrediction(tempF: Num, wind: Option<string>, reply: Reply): (c: Call)
    ensures RowOf(c.request.body) == Some(Features(tempF, ExtractWindSpeed(wind)))
    ensures HasPredictions(reply) ==> Index0(PredictionsOf(reply)) == Some(c.result)
    ensures !HasPredictions(reply) ==> c.result == Null
  {
    Call(PredictionRequest(tempF, wind), InterpretReply(reply))
  }

  /** `jsonify({'predictions': [...]})`: the service's success reply. */
  function SuccessReply(values: seq<real>): Reply {
    Answered(Some(JObj(map["predictions" := JArr(seq(|values|, i requires 0 <= i < |values| => JNum(values[i])))])))
  }

  /** A success reply yields its first prediction, or `undefined` when the list is empty. */
  lemma SuccessYieldsFirst(values: seq<real>)
    ensures |values| > 0 ==> InterpretReply(SuccessReply(values)) == Json(JNum(values[0]))
    ensures |values| == 0 ==> InterpretReply(SuccessReply(values)) == Undefined
  {
  }

  /** Any object without a "predictions" member, such as the service's error replies, yields `null`. */
  lemma ErrorReplyYieldsNull(body: map<string, JsonValue>)
    requires "predictions" !in body
    ensures InterpretReply(Answered(Some(JObj(body)))) == Null
  {
  }

  /** A body that is not JSON, or no body at all, yields `null`. */
  lemma FailureYieldsNull()
    ensures InterpretReply(Answered(None)) == Null
    ensures InterpretReply(TransportError) == Null
  {
  }

  /** A falsy `predictions` (null, false, 0, "") yields `null` as if it were missing. */
  lemma FalsyPredictionsYieldNull(data: map<string, JsonValue>)
    requires "predictions" in data && !Truthy(data["predictions"])
    ensures InterpretReply(Answered(Some(JObj(data)))) == Null
  {
  }

  /** The result is non-null only when the service answered with truthy predictions. */
  lemma NonNullMeansPredictions(tempF: Num, wind: Option<string>, reply: Reply)
    requires GetPrediction(tempF, wind, reply).result != Null
    ensures HasPredictions(reply)
    ensures Index0(PredictionsOf(reply)) == Some(GetPrediction(tempF, wind, reply).result)
  {
  }

  /** A full exchange: 32 °F, "10 to 20 mph", and the service answering [0.5]. */
  lemma PredictionExample()
    ensures GetPrediction(Val(32.0), Some("10 to 20 mph"), SuccessReply([0.5])) ==
      Call(Request(PredictUrl, "POST",
             map["Content-Type" := "application/json", "Accept" := "application/json"],
             JObj(map["inputs" := JArr([JArr([JNum(0.0), JNum(0.1), JNum(0.1), JNum(15.0 * 0.44704)])])])),
           Json(JNum(0.5)))
  {
    RequestExample();
    SuccessYieldsFirst([0.5]);
  }
}
