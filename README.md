# Sensor data API: a verified model of its request handling

The repository is a small Express service that stores environmental sensor
readings in MongoDB. It has two endpoints. `POST /api/sensor` creates a
reading and `GET /api/sensor` lists readings with pagination. This project
models the request-handling core in Dafny and proves what it does:

- **Request validation.** The strict zod schema for a new reading has four
  fields: `location`, `temperatureCelsius`, `humidityPercentage` and
  `pressureHpa`. The pagination check accepts `page` and `limit` only if
  `parseInt` of the text, printed back, gives the text again and is
  positive.
- **Express middleware as values.** Each middleware becomes a function that
  returns one of three outcomes: respond 400, call `next()`, or do neither.
- **The JavaScript primitives the checks rely on.** These are `parseInt`
  (section 19.2.5 of ECMA-262), `Number.prototype.toString` for integers,
  `String.prototype.trim` and `padStart`.
- **Two helpers in `utils/index.js`.** `remapItem` renames `_id` to `id`.
  `formatDateTime` renders the wall-clock components of a timestamp.
- **The route handlers.** The GET handler works out page and limit, the
  skip, the newest-first order, the projection and the slice, all as pure
  functions over a sequence of documents. The POST handler builds a record
  and appends it to a store. The store is a class whose `Post` method
  changes it.

Modules, one per source file plus three for JavaScript semantics:

| module | file | models |
|---|---|---|
| `JsValues` | `js_values.dfy` | JavaScript values, plain objects as maps, property access |
| `JsStrings` | `js_strings.dfy` | JavaScript white space, `trimStart`/`trimEnd`/`trim`, digit characters |
| `JsNumbers` | `js_numbers.dfy` | `parseInt` with no radix, integer `toString` |
| `Issues` | `issues.dfy` | a validation issue as the 400 responses carry it: a path and a message |
| `SensorModel` | `sensor_model.dfy` | `models/sensorData.js` |
| `Middleware` | `middleware.dfy` | `middleware/validations/sensorDataValidation.js` |
| `Utils` | `utils.dfy` | `utils/index.js` |
| `SensorRoutes` | `sensor_routes.dfy` | `routes/sensorRoutes.js` |

## Model

| member | source | states |
|---|---|---|
| JsValues.Get | routes/sensorRoutes.js:38-41 | reading a missing property gives `undefined`; a present one gives its value |
| JsStrings.TrimStart | models/sensorData.js:11 | the result is a suffix of the input (what is dropped is white space: TrimStartDropsWhiteSpace); it is empty exactly when the input is all white space; otherwise it starts with a character that is not white space |
| JsStrings.TrimEnd | models/sensorData.js:11 | the result is a prefix of the input (what is dropped is white space: TrimEndDropsWhiteSpace); it is empty exactly when the input is all white space; otherwise it ends with a character that is not white space |
| JsStrings.Trim | models/sensorData.js:11 | a slice of the input with only white space around it (TrimIsSlice); empty exactly when the input is all white space; otherwise it neither starts nor ends with white space |
| JsStrings.TrimStartDropsWhiteSpace | models/sensorData.js:11 | everything `trimStart` drops before its result is white space |
| JsStrings.TrimEndDropsWhiteSpace | models/sensorData.js:11 | everything `trimEnd` drops after its result is white space |
| JsStrings.TrimIsSlice | models/sensorData.js:11 | `trim` returns a slice `s[i..j]` of its input with only white space in `s[..i]` and in `s[j..]` |
| JsNumbers.ParseInt | middleware/validations/sensorDataValidation.js:16 | definition of `parseInt` with no radix; characterised by ParseIntSkipsWhiteSpace, ParseIntSign, ParseIntStopsAtNonDigit, ParseIntNaN and ParseIntToString |
| JsNumbers.IntToString | middleware/validations/sensorDataValidation.js:7 | definition of `toString` on integers; characterised by NatToStringShape and ParseIntToString |
| JsNumbers.DigitPrefix | middleware/validations/sensorDataValidation.js:16 | the longest prefix of digits in the radix: a prefix, all digits, and the next character (if any) is not a digit |
| JsNumbers.ParseDigits | middleware/validations/sensorDataValidation.js:16 | NaN exactly when the text does not start with a digit; otherwise a non-negative value |
| JsNumbers.NatToStringShape | middleware/validations/sensorDataValidation.js:7 | `n.toString()` is all decimal digits, denotes `n`, and for `n > 0` has no leading zero |
| JsNumbers.PositiveDecimalRoundTrip | middleware/validations/sensorDataValidation.js:7 | a canonical positive numeral prints back from its value as itself |
| JsNumbers.ParsePositiveDecimal | middleware/validations/sensorDataValidation.js:16 | `parseInt` reads a canonical positive numeral as its decimal value |
| JsNumbers.ParseOneDigit | middleware/validations/sensorDataValidation.js:16 | `parseInt` of a single digit is that digit |
| JsNumbers.ParseNegative | middleware/validations/sensorDataValidation.js:7 | `parseInt(String(n)) == n` for every negative `n` |
| JsNumbers.ParseIntToString | middleware/validations/sensorDataValidation.js:7 | `parseInt(String(n)) == n` for every integer `n` |
| JsNumbers.ParseIntSkipsWhiteSpace | middleware/validations/sensorDataValidation.js:16 | a leading white-space character does not change what `parseInt` reads |
| JsNumbers.ParseIntSign | middleware/validations/sensorDataValidation.js:16 | `+` is dropped; `-` negates the unsigned reading, and no digits after it is NaN |
| JsNumbers.ParseIntStopsAtNonDigit | middleware/validations/sensorDataValidation.js:16 | a digit run reads as its decimal value, leading zeros included, and reading stops at the first non-digit; the exception is `0x`, which starts a hexadecimal numeral |
| JsNumbers.ParseIntDecimal | middleware/validations/sensorDataValidation.js:16 | text that starts with a digit and has no `0x`/`0X` prefix is read in radix 10 |
| JsNumbers.ParseIntNaN | middleware/validations/sensorDataValidation.js:16 | text that is empty, or starts with something other than white space, a sign or a digit, gives NaN |
| Issues.Paths | middleware/validations/errorSchema/index.js:3-8 | the path of each reported issue, in order, one per issue |
| Issues.PathsConcat | middleware/validations/errorSchema/index.js:3-8 | the paths of two issue lists reported one after the other are the two path lists, concatenated |
| SensorModel.LocationIssue | models/sensorData.js:6-12 | definition of the `location` check; characterised by LocationIssueNone, LocationPaths and BlankLocationRejected |
| SensorModel.MeasurementIssue | models/sensorData.js:13-24 | definition of a measurement check; characterised by MeasurementPaths and WrongMeasurementRejected |
| SensorModel.StrictIssue | models/sensorData.js:26 | definition of `.strict()`; characterised by StrictIssueNone and ExtraKeysReported |
| SensorModel.FieldIssues | models/sensorData.js:5-24 | definition of the four field checks in order; characterised by FieldIssuesEmpty and FieldPaths |
| SensorModel.SensorDataIssues | models/sensorData.js:4-26 | a body that is not an object gets exactly one issue, a type issue at the root |
| SensorModel.LocationIssueNone | models/sensorData.js:6-12 | `location` passes exactly when it is a string with a character that is not white space |
| SensorModel.FieldIssuesEmpty | models/sensorData.js:5-24 | the four fields give no issue exactly when each holds an acceptable value |
| SensorModel.StrictIssueNone | models/sensorData.js:26 | `.strict()` raises no issue exactly when every key is one of the four schema keys |
| SensorModel.ReadingKeys | models/sensorData.js:4-26 | exactly the four keys, each acceptable, is the same as no other key plus four acceptable values; a missing key reads as `undefined`, which no field accepts |
| SensorModel.SensorDataAcceptedIff | models/sensorData.js:4-26 | the schema accepts a body exactly when it is an object with exactly the four keys, a non-blank location string and three numbers |
| SensorModel.FieldPaths | models/sensorData.js:5-24 | the four fields report the failing ones, each at its own path, in declaration order |
| SensorModel.FailingPathsExact | models/sensorData.js:4-26 | the reported paths are exactly the failing fields in schema order (not just the first), then the root when there are keys outside the schema |
| SensorModel.LocationPaths | models/sensorData.js:6-12 | `location` reports at `["location"]` exactly when it is not acceptable |
| SensorModel.MeasurementPaths | models/sensorData.js:13-24 | a measurement reports at its own path exactly when it is not a number |
| SensorModel.ExtraKeysReported | models/sensorData.js:26 | keys outside the schema are all reported in one root issue that names them |
| SensorModel.BlankLocationRejected | models/sensorData.js:11-12 | a location that is all white space fails with "Location must not be empty." |
| SensorModel.PaddedLocationAccepted | models/sensorData.js:11-12 | white space around a non-blank location is accepted |
| SensorModel.WrongMeasurementRejected | models/sensorData.js:13-24 | a present non-number measurement fails with that field's own text; a missing one fails with the library's "required" text |
| SensorModel.MeasurementMessages | models/sensorData.js:13-24 | the three measurement type texts as declared |
| SensorModel.StorageHumidityNameRejected | models/sensorData.js:17-32 | a request that uses the storage name `humidityPercent` is rejected |
| SensorModel.DocumentedErrorExample | routes/sensorRoutes.js:168-172 | a blank location together with a temperature sent as text reports both issues, location first, with the documented texts |
| SensorModel.StorageAndInputFields | models/sensorData.js:28-34 | the storage field set differs from the request's: `humidityPercent` and `timestamp` instead of `humidityPercentage` |
| Middleware.IsValidNumber | middleware/validations/sensorDataValidation.js:5-9 | definition of `isValidNumber`; characterised by ValidNumberIff |
| Middleware.ParamIssue | middleware/validations/sensorDataValidation.js:14-31 | definition of one refined string parameter; characterised by ParamIssueSpec |
| Middleware.PaginationIssues | middleware/validations/sensorDataValidation.js:13-33 | definition of the issues of the pagination schema; characterised by ValidatePaginationInput's contract |
| Middleware.ValidNumberIff | middleware/validations/sensorDataValidation.js:5-9 | `isValidNumber(parseInt(s), s)` holds exactly when `s` is non-empty, all decimal digits, with no leading `0` |
| Middleware.ZeroRejected | middleware/validations/sensorDataValidation.js:7 | `"0"` prints back as itself but is rejected for not being positive |
| Middleware.LeadingZeroRejected | middleware/validations/sensorDataValidation.js:7 | a text with a leading zero such as `"007"` is rejected |
| Middleware.NonDigitRejected | middleware/validations/sensorDataValidation.js:7 | a text with any non-digit is rejected: `"+5"`, `" 5"`, `"5x"`, `"1.5"`, `"-3"`, `"abc"` |
| Middleware.EmptyRejected | middleware/validations/sensorDataValidation.js:7 | the empty text gives NaN and is rejected |
| Middleware.ParamIssueSpec | middleware/validations/sensorDataValidation.js:14-31 | one parameter passes exactly when it is a canonical positive numeral string; its custom message is reported exactly when it is a string that is not one |
| Middleware.ObjectFailingPaths | middleware/validations/sensorDataValidation.js:40-43 | for an object body, the issues sent back point at exactly the failing paths |
| Middleware.ValidatePaginationInput | middleware/validations/sensorDataValidation.js:11-37 | never `next()`; no response exactly when both parameters are valid; otherwise 400 with issues, where the page/limit message appears exactly when that parameter is a string but not a canonical positive numeral |
| Middleware.ValidatePaginationInputIntended | middleware/validations/sensorDataValidation.js:33-36 | the corrected middleware: always responds or passes on; `next()` exactly when both parameters are valid; the same 400 response otherwise |
| Middleware.MissingParamRejected | middleware/validations/sensorDataValidation.js:14-31 | a missing `page` or `limit` is rejected, with the library's "required" text at that parameter's path |
| Middleware.IsOptionalParam | routes/sensorRoutes.js:60-72 | definition of a parameter as documented: absent, or a canonical positive numeral |
| Middleware.OptionalParamIssue | middleware/validations/sensorDataValidation.js:14-31 | an optional parameter raises no issue exactly when it is absent or a canonical positive numeral, and otherwise the declared check's issue |
| Middleware.ValidatePaginationInputOptional | middleware/validations/sensorDataValidation.js:11-37 | the documented middleware: `next()` exactly when each parameter is absent or valid; otherwise 400, with each custom message exactly where that parameter is a string but not a canonical positive numeral |
| Middleware.ValidateSensorDataInput | middleware/validations/sensorDataValidation.js:38-45 | `next()` exactly when the body is a valid reading; otherwise 400 with issues at exactly the failing paths |
| Utils.RemapItem | utils/index.js:7-13 | no `_id` in the output; keys are the input's minus `_id` plus `id`; every other key keeps its value; `id` is the input's `_id` unless the input has its own `id`, which wins |
| Utils.RestoreId | utils/index.js:7-13 | renaming `id` back to `_id` leaves no `id` and puts the value at `_id` |
| Utils.RemapRoundTrip | utils/index.js:7-13 | for a document with `_id` and no `id`, renaming back gives the document unchanged |
| Utils.PadStart | utils/index.js:27-31 | `padStart(width, fill)` has the larger of the two lengths, ends with the input and is `fill` before it |
| Utils.TwoDigits | utils/index.js:27-31 | two decimal digits whose value is the number |
| Utils.TwoDigitsIsPadStart | utils/index.js:27-31 | `String(n).padStart(2, "0")` is those two digits for every `n < 100` |
| Utils.Hour12 | utils/index.js:29 | the displayed hour is 1 to 12; it is 12 exactly for hours 0 and 12; it agrees with the hour modulo 12 |
| Utils.Meridiem | utils/index.js:32 | `AM` exactly when the hour is below 12, `PM` otherwise |
| Utils.FormatDateTime | utils/index.js:21-35 | the text is the year followed by exactly 17 characters; its fields are stated by FormatFields and FormatLayout |
| Utils.FormatFields | utils/index.js:26-34 | in the rendered text, the zero-padded month counted from 1, day, hour on the 12-hour clock, minutes and seconds sit at their places after the year, followed by `AM` or `PM` |
| Utils.TwelveHourClock | utils/index.js:29-32 | hour 0 renders as `12` with `AM`, hour 12 as `12` with `PM`, hour 13 as `01` with `PM` |
| Utils.AfterYearSlices | utils/index.js:27-34 | the text after the year holds each field's two digits, on the 12-hour clock for the hour, then the meridiem |
| Utils.AfterYear | utils/index.js:34 | what follows the year is exactly 17 characters |
| Utils.Hour24 | utils/index.js:29-32 | reading a 12-hour clock with its meridiem back gives an hour from 0 to 23 |
| Utils.ParseDateTime | utils/index.js:34 | a successful reading has at least 17 characters and a numeric year before them |
| Utils.FormatLayout | utils/index.js:34 | `year/MM/DD hh:mm:ss` then `AM`/`PM` with no space: the year first, separators at fixed offsets, digits in every field |
| Utils.AfterYearFields | utils/index.js:27-32 | month (1-based), day, minutes and seconds read back from their two digits; the hour digits read back as the 12-hour hour, the meridiem follows, and the two together give the 24-hour hour |
| Utils.Hour12RoundTrip | utils/index.js:29-32 | the 12-hour display and the meridiem together determine the 24-hour hour |
| Utils.FormatParseRoundTrip | utils/index.js:26-34 | reading a rendered timestamp back gives the components it was rendered from |
| Utils.FormatInjective | utils/index.js:26-34 | two valid local times render alike exactly when they are equal, so distinct hours on one date give distinct texts |
| Utils.Layout17 | utils/index.js:34 | the template after the year, position by position |
| SensorRoutes.Timestamp | routes/sensorRoutes.js:104 | definition of the sort key; a document without a `Date` timestamp has none |
| SensorRoutes.AtLeastAsNew | routes/sensorRoutes.js:104 | definition of the descending order on the sort key, with a missing key lowest; characterised by SortNewestFirst and NewestFirstPairs |
| SensorRoutes.Insert | routes/sensorRoutes.js:104 | inserting adds exactly one copy of the document, and the result starts with it or with the old first document |
| SensorRoutes.InsertKeepsOrder | routes/sensorRoutes.js:104 | inserting into a newest-first sequence keeps it newest first |
| SensorRoutes.SortNewestFirst | routes/sensorRoutes.js:104 | `sort({ timestamp: -1 })`: newest first, and a permutation of the documents |
| SensorRoutes.NewestFirstPairs | routes/sensorRoutes.js:104 | in a sorted sequence every earlier document is at least as new as every later one |
| SensorRoutes.Project | routes/sensorRoutes.js:102 | keeps exactly the listed fields a document has, with their values; never `_id` |
| SensorRoutes.ProjectAll | routes/sensorRoutes.js:102 | projects every document, position by position |
| SensorRoutes.OrDefault | routes/sensorRoutes.js:95-96 | `parseInt(x) \|\| d`: the parsed value when it is a nonzero number, otherwise `d` |
| SensorRoutes.Skip | routes/sensorRoutes.js:98 | page 1 skips nothing; a page from 1 on with a positive limit skips a non-negative count |
| SensorRoutes.Window | routes/sensorRoutes.js:105-106 | `.skip(k).limit(n)`: at most `n` documents, as many as remain after `k`, taken in order from position `k` |
| SensorRoutes.PageOf | routes/sensorRoutes.js:100-106 | a page holds the sorted documents from `skip` on, at most `n`, each projected, none with `_id` |
| SensorRoutes.ListReadings | routes/sensorRoutes.js:94-108 | the handler answers nothing exactly when the skip is negative; otherwise status 200 with the page of `\|limit\|` documents |
| SensorRoutes.PagesContiguous | routes/sensorRoutes.js:98-106 | pages `p` and `p + 1` together are the window of twice the size at page `p`: adjacent, with no overlap |
| SensorRoutes.PagesCover | routes/sensorRoutes.js:98-106 | pages 1 to `k`, read in order, are exactly the first `k * limit` documents |
| SensorRoutes.QueryNumber | routes/sensorRoutes.js:95-96 | definition of `parseInt(req.query.x)`; characterised by PageDefaults and LimitDefaults |
| SensorRoutes.PageNumber | routes/sensorRoutes.js:95 | definition of `parseInt(req.query.page) \|\| 1`; characterised by PageDefaults |
| SensorRoutes.LimitNumber | routes/sensorRoutes.js:96 | definition of `parseInt(req.query.limit) \|\| 10`; characterised by LimitDefaults |
| SensorRoutes.PageDefaults | routes/sensorRoutes.js:95 | `page` falls back to 1 when missing, `"0"` or not numeric; a valid parameter is used as parsed |
| SensorRoutes.LimitDefaults | routes/sensorRoutes.js:96 | `limit` falls back to 10 when missing, `"0"` or not numeric; a valid parameter is used as parsed |
| SensorRoutes.ParamNumber | routes/sensorRoutes.js:95-96 | `"0"` parses as 0, and a valid parameter parses as a number from 1 up |
| SensorRoutes.GetRoute | routes/sensorRoutes.js:94 | definition of the GET route: the pagination middleware, then the handler; characterised by GetRouteNeverLists |
| SensorRoutes.GetRouteIntended | routes/sensorRoutes.js:94-108 | definition of the GET route with the corrected middleware; characterised by GetRouteIntendedLists |
| SensorRoutes.GetRouteOptional | routes/sensorRoutes.js:60-108 | definition of the GET route with the documented optional parameters; characterised by GetRouteOptionalLists |
| SensorRoutes.GetRouteNeverLists | routes/sensorRoutes.js:94 | the GET route never lists: valid parameters get no answer at all, invalid ones a 400 with the issues |
| SensorRoutes.GetRouteIntendedLists | routes/sensorRoutes.js:94-108 | with the corrected middleware, valid parameters get status 200 with page `page` of `limit` documents; invalid ones get the same 400 |
| SensorRoutes.GetRouteOptionalLists | routes/sensorRoutes.js:60-108 | with optional parameters, a missing page lists page 1 and a missing limit lists 10 per page, a present parameter is used as parsed, and a malformed one gets a 400 |
| SensorRoutes.NewRecord | routes/sensorRoutes.js:36-42 | the record has exactly the five fields; its timestamp is the server's clock; the other four are copied from the body |
| SensorRoutes.RecordIgnoresOtherFields | routes/sensorRoutes.js:36-42 | bodies that agree on the four copied fields give the same record, whatever else they hold, a `timestamp` included |
| SensorRoutes.SensorStore.constructor | models/sensorData.js:36 | an empty collection |
| SensorRoutes.SensorStore.Post | routes/sensorRoutes.js:33-50 | rejected bodies get the 400 issue list and the store is unchanged; a failing save gets 400 with its message and the store is unchanged; otherwise 201 with an empty body and the record appended with a fresh `_id` |
| SensorRoutes.AppendKeepsIds | routes/sensorRoutes.js:45 | appending a document with the next id keeps every `_id` present, below the counter and distinct |

## Left out

- The threshold evaluator, the breach messages and the notification dispatch. `utils/threshold-notification.js` only logs an event, and the method that `sensorSimulator.js` calls is not defined in the files.
- `sensorSimulator.js`: cron scheduling, random data and its own database connection. This is timer-driven I/O.
- `app.js`, `config/db.js`, `config/swagger-config.js`, `config/twilio.js` and `config/thresholds.js`. These are bootstrap, connections, documentation wiring and environment parsing.
- `middleware/validations/errorSchema/index.js` is not part of this model as a parser. Its one effect is to keep each issue's path and message, and that shape is what `Issues.Issue` holds.
- The time-zone step of `formatDateTime`, `toLocaleString` in Asia/Manila re-read as a `Date`. `Utils.FormatDateTime` takes the Manila wall-clock components as input.
- MongoDB itself: query execution, mongoose casting and `__v`, and async/await.
  - The store is a sequence.
  - A failing `save()` is a `saveError` parameter.
  - The clock is a `now` parameter.
  - The `_id` values are a counter.
- Mongoose strict mode drops fields outside the storage schema. The record built by the POST handler is modelled as built, `humidityPercentage` included. `SensorModel.StorageAndInputFields` states the name mismatch.
- SensorRoutes.SortNewestFirst: the order of documents with equal timestamps is not fixed by MongoDB. The model picks one order, so callers should rely on its contract only.
- SensorRoutes.ListReadings: for a negative skip the driver rejects the query, and nothing catches the rejection, so no response is sent. A negative limit is read by its absolute value, as the driver does. Validation rules out both.
- SensorRoutes.QueryNumber: a query value that is an array or an object is read as NaN. `parseInt` would read its string form. Validation rejects such values before the handler.
- JsNumbers.ParseInt: numerals are read as exact integers. JavaScript doubles round numerals longer than 15 digits, and that rounding is not modelled. `-0` is folded into `0`; `toString`, `> 0` and `||` treat the two alike.
- Zod's own default texts, for a missing field, an object of the wrong type and unrecognized keys, are abstract `Message` variants. `required:` in `models/sensorData.js` is not an option zod reads, so those texts come from the library.
- JavaScript object key order is not modelled: objects are maps.
- Network, HTTP parsing and `express.json()` are not modelled. Bodies and queries arrive as values.

## Findings

| source | as written | input that shows it | evidently intended | confidence | as-written member | corrected member |
|---|---|---|---|---|---|---|
| middleware/validations/sensorDataValidation.js:33-36 | when both parameters are valid, `validatePaginationInput` returns without responding and without calling `next()`, so the GET handler never runs and the request is never answered | `GET /api/sensor?page=1&limit=10` | call `next()` after a successful parse, so the handler answers 200 with the requested page (as documented at routes/sensorRoutes.js:73-81) | high; not executed | SensorRoutes.GetRouteNeverLists | SensorRoutes.GetRouteIntendedLists |
| middleware/validations/sensorDataValidation.js:14-31 | `page` and `limit` are required strings, so a request without them is rejected with 400, while the route documents both as optional with defaults 1 and 10 (routes/sensorRoutes.js:60-72) and the handler falls back to those defaults (routes/sensorRoutes.js:95-96) | `GET /api/sensor` | treat both parameters as optional, so a request without them lists page 1 of 10 readings | medium; not executed | Middleware.MissingParamRejected | SensorRoutes.GetRouteOptionalLists |
