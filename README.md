# GT-EnergyHack core, modelled in Dafny

The project models two pieces of the GT-EnergyHack energy dashboard.

- **Front end, `frontend/src/lib/utils.js`.** `extractWindSpeed` turns wind text ("10 to 20 mph", "15 mph") into miles per hour. `getPrediction` converts a reading to the feature row of the prediction service. It sends the row as a JSON POST and turns the reply into the value the caller gets: `predictions[0]` or `null`.
- **Server, `server/routes/routes.js`.** The `GET /noaa/solar-irradience` route checks four query fields. It sends one request to the NOAA climate data service and maps the outcome to an HTTP response.

Both files are free of loops and mutation, so everything is modelled as functions and lemmas over values.

The JavaScript the code relies on is written out:

- `includes` and `split`;
- `trim`, with the JavaScript white-space and line-terminator set;
- `parseInt(s, 10)`: it skips leading white space, takes an optional sign and reads the longest run of digits; with no digits the result is NaN;
- truthiness;
- property reads and `[0]` on JSON values, including the TypeError on `null`;
- `JSON.stringify` writing NaN as `null`.

Numbers are exact reals or NaN.

The files:

- `wrappers.dfy`: `Option`.
- `js_values.dfy`: numbers, JSON values, `undefined`, truthiness, `.name` and `[0]`.
- `js_strings.dfy`: `indexOf`/`includes`, `split` and its inverse `join`, and `trimStart`/`trimEnd`/`trim`.
- `js_parse_int.dfy`: `parseInt` with radix 10, and the decimal numeral of a natural number as a reference inverse.
- `wind_speed.dfy`: `extractWindSpeed`.
- `prediction.dfy`: `getPrediction`. The exchange with the service is a parameter: the reply it gave.
- `solar_route.dfy`: the route handler. The upstream call is a parameter: the outcome it had.

Four facts about the code shape the model:

- **One variable is fetched.** The route requests `datatypeid: "TEMP"` only (server/routes/routes.js:28) and passes `results` through unchanged. Nothing fetches several variables or aggregates them.
- **A range is split at every "to".** `split("to")` cuts the text at every occurrence, and only pieces 0 and 1 are read (frontend/src/lib/utils.js:6-8).
- **`stationId` is required.** A request without it is rejected like one without any of the other three fields (server/routes/routes.js:19).
- **A reply without `predictions` resolves to `null`.** The error thrown for it is caught, so `getPrediction` returns `null` rather than failing (frontend/src/lib/utils.js:46-55).

## Model

| member | source | states |
|---|---|---|
| `JsStrings.IndexOf` | frontend/src/lib/utils.js:4 | a position it returns is an occurrence of the separator |
| `JsStrings.IndexOfLeast` | frontend/src/lib/utils.js:4 | the position is the first occurrence; no position means no occurrence anywhere |
| `JsStrings.IncludesIff` | frontend/src/lib/utils.js:4 | `includes` is true exactly when the separator occurs somewhere in the text |
| `JsStrings.Split` | frontend/src/lib/utils.js:6 | `split` always returns at least one piece |
| `JsStrings.SplitJoin` | frontend/src/lib/utils.js:6 | joining the pieces with the separator gives back the text (split loses nothing) |
| `JsStrings.SplitPiecesFree` | frontend/src/lib/utils.js:6 | no piece contains the separator: the text is cut at every occurrence |
| `JsStrings.SplitCount` | frontend/src/lib/utils.js:4-8 | there are at least two pieces if and only if the text includes the separator, so `parts[1]` exists in the range branch |
| `JsStrings.SplitFree` | frontend/src/lib/utils.js:12 | a text without the separator is a single piece |
| `JsStrings.SplitFirstIsPrefix` | frontend/src/lib/utils.js:12 | the first piece is a prefix of the text |
| `JsStrings.SplitAfterFree` | frontend/src/lib/utils.js:6 | when the first occurrence follows a separator-free `x`, the first piece is `x` and the rest is split on |
| `JsStrings.FirstPiece` | frontend/src/lib/utils.js:8 | a separator-free text followed by nothing or by the separator is the first piece |
| `JsStrings.SplitTwo` | frontend/src/lib/utils.js:6 | `x + sep + y` with both parts separator-free splits into exactly `[x, y]` |
| `JsStrings.SplitFirstTwo` | frontend/src/lib/utils.js:6-8 | the first two pieces are the text before the first and between the first and second separator |
| `JsStrings.Trim` | frontend/src/lib/utils.js:7-8 | `trim` returns a slice of the text with only white space around it, and the slice is empty or starts and ends with a character that is not white space; `TrimIdempotent`, `TrimFixesClean` and `TrimAround` state the rest |
| `JsStrings.TrimStart` | frontend/src/lib/utils.js:7 | the result is a suffix, what was removed is all white space, and the result does not start with white space |
| `JsStrings.TrimEnd` | frontend/src/lib/utils.js:8 | the result is a prefix, what was removed is all white space, and the result does not end with white space |
| `JsStrings.TrimIdempotent` | frontend/src/lib/utils.js:7-8 | trimming twice is trimming once |
| `JsStrings.TrimFixesClean` | frontend/src/lib/utils.js:7-8 | a text without white space at either end is unchanged by trimming |
| `JsStrings.TrimAround` | frontend/src/lib/utils.js:7 | white space on both sides of a clean text is removed exactly |
| `JsParseInt.ParseInt` | frontend/src/lib/utils.js:7-12 | `parseInt(s, 10)`: a text starting with a digit gives a non-negative integer, and a text with no digit gives NaN; `ParseIntSigned` gives the value when digits follow the white space and optional sign, and `ParseIntNoDigits` and `ParseIntNonNumeric` give NaN in every other case |
| `JsParseInt.DigitPrefix` | frontend/src/lib/utils.js:7 | the digits `parseInt` reads are the longest digit prefix: the next character is not a digit |
| `JsParseInt.ParseIntSigned` | frontend/src/lib/utils.js:7 | white space, an optional sign and digits followed by a non-digit parse as the signed value of the digits |
| `JsParseInt.ParseIntNegative` | frontend/src/lib/utils.js:12 | a minus sign followed by digits and nothing else parses as the negated value of the digits (`ParseIntSigned` allows any non-digit after them) |
| `JsParseInt.ParseIntDigits` | frontend/src/lib/utils.js:12 | unsigned digits followed by a non-digit parse as their value |
| `JsParseInt.ParseIntNonNumeric` | frontend/src/lib/utils.js:12 | a text that is empty or starts with neither white space, a sign nor a digit is NaN |
| `JsParseInt.ParseIntNoDigits` | frontend/src/lib/utils.js:7-12 | white space and an optional sign followed by anything that does not start with a digit (`"- 5"`, `"+-5"`, `" x5"`) give NaN |
| `JsParseInt.SpacedSignExample` | frontend/src/lib/utils.js:7 | `"- 5"`, the low bound `trim` leaves of `"- 5 to 9"`, is NaN |
| `JsParseInt.DecimalValue` | frontend/src/lib/utils.js:12 | the digits of the decimal numeral of `n` denote `n` |
| `JsParseInt.ParseIntDecimal` | frontend/src/lib/utils.js:12 | `parseInt` reads back every decimal numeral, with or without a minus sign |
| `WindSpeed.NumeralNumber` | frontend/src/lib/utils.js:7-12 | in arithmetic, the `parseInt` of a decimal numeral is the number written, and with a minus sign its negation |
| `WindSpeed.ExtractWindSpeed` | frontend/src/lib/utils.js:1-14 | `extractWindSpeed`: a falsy argument gives 0; every result is NaN or a whole number or a half, and a whole number outside the range branch. Lemmas cover these shapes: falsy (`FalsyIsZero`); `"<digits> <text without to>"` (`SingleValueText`); digits glued to a unit (`GluedUnitText`); a leading minus without "to" (`NegativeText`); a leading space without "to" (`LeadingSpaceText`); a non-numeric first character (`NonNumericText`); `"<a> to <b> <text without to>"` (`RangeTextValue`); a range bound that does not parse (`RangeNaN`); text after a second "to" (`RangeIgnoresLaterSegments`) |
| `WindSpeed.FalsyIsZero` | frontend/src/lib/utils.js:2 | an absent or empty text gives 0, not NaN |
| `WindSpeed.MeanOfParsed` | frontend/src/lib/utils.js:9 | the mean of two parsed bounds is their arithmetic mean, and NaN when either is NaN |
| `WindSpeed.SingleValueText` | frontend/src/lib/utils.js:12 | "<digits> <text without 'to'>" gives exactly the value of the digits |
| `WindSpeed.GluedUnitText` | frontend/src/lib/utils.js:12 | digits followed by a unit with no space and no "to" ("20mph") give the value of the digits |
| `WindSpeed.NegativeText` | frontend/src/lib/utils.js:12 | a leading minus sign is accepted: "-<digits> <text without 'to'>" gives the negative number `parseInt` reads, minus the digits' value |
| `WindSpeed.LeadingSpaceText` | frontend/src/lib/utils.js:12 | a text with no "to" that starts with a space has an empty first token and gives NaN |
| `WindSpeed.NonNumericText` | frontend/src/lib/utils.js:4-12 | a text starting with neither white space, a sign nor a digit ("Calm") gives NaN, with or without "to": the first token, or the low bound, does not parse |
| `WindSpeed.RangeNaN` | frontend/src/lib/utils.js:6-9 | in the range branch a bound that does not parse makes the result NaN |
| `WindSpeed.RangeText` | frontend/src/lib/utils.js:4-9 | "<a> to <b> <text without 'to'>" gives the mean of the two parsed digit strings |
| `WindSpeed.RangeTextValue` | frontend/src/lib/utils.js:4-9 | the same text gives exactly (a + b) / 2 |
| `WindSpeed.RangeIgnoresLaterSegments` | frontend/src/lib/utils.js:6-8 | only the text before the first "to" and between the first and second "to" affects the result |
| `WindSpeed.RangeExample` | frontend/src/lib/utils.js:5-9 | "10 to 20 mph" gives 15 |
| `WindSpeed.SingleExample` | frontend/src/lib/utils.js:11-12 | "15 mph" gives 15 |
| `WindSpeed.GluedExample` | frontend/src/lib/utils.js:12 | "20mph" gives 20 |
| `WindSpeed.KnotsExample` | frontend/src/lib/utils.js:12 | "15kt" gives 15: a unit with a 't' but no "to" is ignored |
| `WindSpeed.CalmExample` | frontend/src/lib/utils.js:12 | "Calm" gives NaN |
| `WindSpeed.LeadingSpaceExample` | frontend/src/lib/utils.js:12 | " 15 mph" gives NaN |
| `WindSpeed.NegativeExample` | frontend/src/lib/utils.js:12 | "-5 mph" gives -5 |
| `Prediction.ToCelsius` | frontend/src/lib/utils.js:18 | the Celsius value is NaN exactly when the input is, and converts back to the Fahrenheit input |
| `Prediction.MphToMs` | frontend/src/lib/utils.js:19 | the speed in m/s is NaN exactly when the input is, and divided by 0.44704 gives the input back |
| `Prediction.CelsiusFixedPoints` | frontend/src/lib/utils.js:18 | 32 °F is 0 °C, 212 °F is 100 °C, -40 °F is -40 °C |
| `Prediction.CelsiusRoundTrip` | frontend/src/lib/utils.js:18 | the conversion and the Celsius-to-Fahrenheit formula undo each other in both orders |
| `Prediction.CelsiusIncreasing` | frontend/src/lib/utils.js:18 | the conversion is strictly increasing, in both directions |
| `Prediction.MphToMsZero` | frontend/src/lib/utils.js:19 | no wind stays no wind |
| `Prediction.MphToMsLinear` | frontend/src/lib/utils.js:19 | the wind conversion commutes with sums and with scaling |
| `Prediction.NumJsonRoundTrip` | frontend/src/lib/utils.js:36 | every number, NaN included, is read back from what `JSON.stringify` writes for it, NaN from `null` |
| `Prediction.RowToJson` | frontend/src/lib/utils.js:36 | the written row has one entry per feature, each written as `JSON.stringify` writes a number |
| `Prediction.PayloadRoundTrip` | frontend/src/lib/utils.js:21-28 | reading the single row back out of the payload gives the features that were written |
| `Prediction.PredictionRequest` | frontend/src/lib/utils.js:18-37 | the request is a JSON POST to the prediction URL whose body holds, as its one row, the features of the reading; `RequestCarriesReading` and `RowBody` state the row's values |
| `Prediction.PayloadHasInputs` | frontend/src/lib/utils.js:21-28 | the body is an object with an "inputs" member, as the service requires |
| `Prediction.RequestCarriesReading` | frontend/src/lib/utils.js:18-37 | the request carries one row of four features: the temperature, which converts back to the input, then 0.1 and 0.1, then the wind feature, which is NaN exactly when the extracted speed is and otherwise converts back to it |
| `Prediction.RowBody` | frontend/src/lib/utils.js:21-28 | for a numeric temperature and speed the payload is `{inputs: [[c, 0.1, 0.1, m * 0.44704]]}` |
| `Prediction.RequestExample` | frontend/src/lib/utils.js:18-36 | 32 °F and "10 to 20 mph" send `[[0, 0.1, 0.1, 15 * 0.44704]]` |
| `Prediction.RequestWithoutWind` | frontend/src/lib/utils.js:19-36 | whenever the extracted wind speed is NaN, the request is still sent, with `null` as the wind feature |
| `Prediction.CalmRequest` | frontend/src/lib/utils.js:19-36 | "Calm" is sent with `null` as the wind feature |
| `Prediction.InterpretReply` | frontend/src/lib/utils.js:39-56 | the result is `predictions[0]` when the reply parses to an object with truthy `predictions`, and `null` in every other case |
| `Prediction.GetPrediction` | frontend/src/lib/utils.js:16-56 | `getPrediction` given the reply: the request carries the reading's features, and the result is `predictions[0]` when the reply holds truthy predictions and `null` otherwise, never an exception |
| `Prediction.SuccessYieldsFirst` | frontend/src/lib/utils.js:43-44 | a success reply gives its first prediction, or `undefined` for an empty list |
| `Prediction.ErrorReplyYieldsNull` | frontend/src/lib/utils.js:43-47 | an object without "predictions", as the service's error replies are, gives `null` |
| `Prediction.FailureYieldsNull` | frontend/src/lib/utils.js:39-55 | a body that is not JSON, and a failed transport, give `null` |
| `Prediction.FalsyPredictionsYieldNull` | frontend/src/lib/utils.js:43-46 | a falsy `predictions` is treated like a missing one |
| `Prediction.NonNullMeansPredictions` | frontend/src/lib/utils.js:16-56 | a non-null result means the service answered with truthy predictions, and the result is their element 0 |
| `Prediction.PredictionExample` | frontend/src/lib/utils.js:16-56 | the full exchange for 32 °F, "10 to 20 mph" and a reply `[0.5]`: the exact request, and 0.5 as the result |
| `SolarRoute.Respond` | server/routes/routes.js:38-42 | status 200 exactly when the call resolved with non-null data, and the body is then what reading `data.results` gives; otherwise 500 with the fetch error |
| `SolarRoute.Handle` | server/routes/routes.js:16-44 | a request goes upstream exactly when all four fields are present; otherwise the response is the 400 error; the status is 200, 400 or 500 |
| `SolarRoute.MissingFieldRejected` | server/routes/routes.js:17-21 | any absent or empty field gives 400 `{error: "Missing input parameters"}` and no upstream request |
| `SolarRoute.UpstreamRequestFixed` | server/routes/routes.js:24-35 | one request, to the NOAA data URL, with GSOM, TEMP, metric and 1000, and the four query values passed through: reading them back gives the query |
| `SolarRoute.TokenPassedThrough` | server/routes/routes.js:24-25 | the configured token is the `token` header, unchanged |
| `SolarRoute.RequestIndependentOfOutcome` | server/routes/routes.js:24-36 | the request depends only on the query and the token |
| `SolarRoute.SuccessPassesResults` | server/routes/routes.js:38-40 | on success the body is `results` verbatim, or `undefined` when the data has none |
| `SolarRoute.FailureGives500` | server/routes/routes.js:41-42 | a rejected call, and `null` data, give 500 `{error: "Failed to fetch data"}` |
| `SolarRoute.NonObjectDataGivesUndefined` | server/routes/routes.js:38-40 | data that is neither an object nor `null` (an unparsed string, an array) has no `results`: 200 with `undefined` |
| `SolarRoute.StatusClassifies` | server/routes/routes.js:19-43 | 400, 200 and 500 each hold exactly in their own case: a missing field, resolved non-null data, or a failed call |
| `SolarRoute.RepeatedKeyForwarded` | server/routes/routes.js:17-19 | a repeated query key is an array, which is truthy; it passes the check and is forwarded as it is |

## Left out

- Floating point: numbers are exact reals. The model does not capture IEEE-754 rounding of `(t - 32) * 5 / 9` and `* 0.44704`, or the precision `parseInt` loses on very long digit strings (such strings can even become Infinity). The model claims no bit-exact results.
- -0: `parseInt` keeps its sign (`IntResult`), but in arithmetic -0 and 0 are the same real.
- Non-string arguments: `extractWindSpeed` of a truthy value that is not a string (it throws a TypeError) is out of scope. `tempFahrenheit` is a number or NaN, not a value JavaScript coerces.
- UTF-16: strings are sequences of characters. Surrogate pairs are not modelled.
- JSON text: the request body is the JSON value that `JSON.stringify` writes, not its text. The reply is given already parsed, or as a parse failure.
- I/O and timing: `fetch`, `response.text()` and `axios.get` are parameters (`Reply`, `UpstreamOutcome`). The promises, `await` and `console.error` are not modelled. `process.env.NOAA_API_TOKEN` and `dotenv` are a token parameter.
- Express: `res.status().json()` is the `Response` value. `res.json(undefined)` is a 200 response whose body is `undefined`. Headers, the Express router and the query-string parser are out of scope; query values are given already parsed.
- `/api/token` (server/routes/routes.js:11-13) and the four empty routes (server/routes/routes.js:47-53): they have no logic of their own.
- The prediction service, server/model_routes.py: it wraps a trained model loaded with joblib, which cannot be seen. Only its reply shapes appear, and only as inputs to `InterpretReply`.
- server/index.js: process start-up and listening on a port only.
- Multi-variable fetching or aggregation: none exists in the code.
