/** middleware/validations/sensorDataValidation.js: the two request
    validators. Each Express middleware either responds with an error,
    passes control on with `next()`, or does neither; that choice is the
    `Outcome` returned here. */
module Middleware {
  import opened JsValues
  import opened JsNumbers
  import opened Issues
  import SensorModel
  import JsStrings

  datatype Outcome =
    | Reject(status: int, issues: seq<Issue>)  // `res.status(400).json(issues)`
    | Next                                     // `next()`
    | NoResponse                               // returns without either

  /** `isValidNumber(parsedValue, value)`: not NaN, printed back it is the
      original text, and positive. */
  predicate IsValidNumber(parsed: Parsed, value: string)
  {
    parsed.Int? && IntToString(parsed.value) == value && parsed.value > 0
  }

  /** The check applied to a query text accepts exactly the canonical
      positive decimal numerals: non-empty, digits only, no leading zero. */
  lemma ValidNumberIff(s: string)
    ensures IsValidNumber(ParseInt(s), s) <==> IsPositiveDecimal(s)
  {
    if IsPositiveDecimal(s) {
      ParsePositiveDecimal(s);
      PositiveDecimalRoundTrip(s);
    }
    if IsValidNumber(ParseInt(s), s) {
      NatToStringShape(ParseInt(s).value);
    }
  }

  /** "0" prints back as itself but is not positive. */
  lemma ZeroRejected()
    ensures ParseInt("0") == Int(0) && IntToString(0) == "0"
    ensures !IsValidNumber(ParseInt("0"), "0")
  {
    ParseIntToString(0);
  }

  /** A leading zero is rejected: "007" reads as 7, which prints as "7". */
  lemma LeadingZeroRejected(s: string)
    requires |s| > 0 && s[0] == '0'
    ensures !IsValidNumber(ParseInt(s), s)
  {
    ValidNumberIff(s);
  }

  /** Any character that is not a decimal digit gets a text rejected, wherever
      it stands: a sign ("+5", "-3"), white space (" 5"), trailing letters
      ("5x"), a decimal point ("1.5") or no digits at all ("abc"). */
  lemma NonDigitRejected(s: string, i: int)
    requires 0 <= i < |s| && !JsStrings.IsDecimalDigit(s[i])
    ensures !IsValidNumber(ParseInt(s), s)
  {
    ValidNumberIff(s);
  }

  /** The empty text gives NaN and is rejected. */
  lemma EmptyRejected()
    ensures ParseInt("") == NaN
    ensures !IsValidNumber(ParseInt(""), "")
  {
    ParseIntNaN("");
  }

  const PageMessage := "Page must be a valid number."
  const LimitMessage := "Limit must be a valid number."

  /** One query parameter: `z.string().refine(isValidNumber ∘ parseInt)`.
      A missing or non-string value fails the string check with the
      library's own text; the refinement only runs on strings. */
  function ParamIssue(key: string, message: string, v: Value): Option<Issue>
  {
    match v
    case Undefined => Some(Issue([key], LibraryRequired))
    case Str(s) => if IsValidNumber(ParseInt(s), s) then None else Some(Issue([key], Custom(message)))
    case _ => Some(Issue([key], LibraryInvalidType))
  }

  lemma ParamIssueSpec(key: string, message: string, v: Value)
    ensures ParamIssue(key, message, v).None? <==> IsPaginationParam(v)
    ensures ParamIssue(key, message, v) == Some(Issue([key], Custom(message))) <==>
      v.Str? && !IsPositiveDecimal(v.s)
  {
    if v.Str? {
      ValidNumberIff(v.s);
    }
  }

  function PaginationIssues(query: Object): seq<Issue>
  {
    Listed(ParamIssue("page", PageMessage, Get(query, "page")))
    + Listed(ParamIssue("limit", LimitMessage, Get(query, "limit")))
  }

  lemma ObjectFailingPaths(body: Value)
    ensures body.Object? ==>
      Paths(SensorModel.SensorDataIssues(body)) == SensorModel.ExpectedFailingPaths(body.fields)
  {
    if body.Object? {
      SensorModel.FailingPathsExact(body.fields);
    }
  }

  /** A query value the pagination schema accepts. */
  predicate IsPaginationParam(v: Value)
  {
    v.Str? && IsPositiveDecimal(v.s)
  }

  predicate PaginationParamsValid(query: Object)
  {
    IsPaginationParam(Get(query, "page")) && IsPaginationParam(Get(query, "limit"))
  }

  /** `validatePaginationInput`: on a schema failure it responds 400 with the
      issues; on success it returns without calling `next()`, so the request
      is never answered. */
  function ValidatePaginationInput(query: Object): (r: Outcome)
    ensures r != Next
    ensures r == NoResponse <==> PaginationParamsValid(query)
    ensures r.Reject? ==> r.status == 400 && r.issues != []
    ensures r.Reject? ==>
      (Issue(["page"], Custom(PageMessage)) in r.issues <==>
        Get(query, "page").Str? && !IsPositiveDecimal(Get(query, "page").s))
    ensures r.Reject? ==>
      (Issue(["limit"], Custom(LimitMessage)) in r.issues <==>
        Get(query, "limit").Str? && !IsPositiveDecimal(Get(query, "limit").s))
  {
    var page, limit := Get(query, "page"), Get(query, "limit");
    ParamIssueSpec("page", PageMessage, page);
    ParamIssueSpec("limit", LimitMessage, limit);
    var issues := PaginationIssues(query);
    if issues == [] then NoResponse else Reject(400, issues)
  }

  /** `validatePaginationInput` as its route evidently intends it: the same
      400 response on a schema failure, and `next()` on success. */
  function ValidatePaginationInputIntended(query: Object): (r: Outcome)
    ensures r != NoResponse
    ensures r == Next <==> PaginationParamsValid(query)
    ensures r.Reject? ==> r == ValidatePaginationInput(query)
  {
    var asWritten := ValidatePaginationInput(query);
    if asWritten.NoResponse? then Next else asWritten
  }

  /** A missing parameter is rejected with the library's "required" text,
      although the route documents both parameters as optional, with
      defaults 1 and 10. */
  lemma MissingParamRejected(query: Object)
    requires Get(query, "page").Undefined? || Get(query, "limit").Undefined?
    ensures ValidatePaginationInput(query).Reject?
    ensures Get(query, "page").Undefined? ==> Issue(["page"], LibraryRequired) in ValidatePaginationInput(query).issues
    ensures Get(query, "limit").Undefined? ==> Issue(["limit"], LibraryRequired) in ValidatePaginationInput(query).issues
  {
    var issues := PaginationIssues(query);
    var p := Listed(ParamIssue("page", PageMessage, Get(query, "page")));
    assert issues == p + Listed(ParamIssue("limit", LimitMessage, Get(query, "limit")));
    if Get(query, "page").Undefined? {
      assert issues[0] == Issue(["page"], LibraryRequired);
    }
    if Get(query, "limit").Undefined? {
      assert issues[|p|] == Issue(["limit"], LibraryRequired);
    }
  }

  /** A query value the documented pagination accepts: absent, or a
      canonical positive numeral string. */
  predicate IsOptionalParam(v: Value)
  {
    v.Undefined? || IsPaginationParam(v)
  }

  /** One parameter of the documented pagination: `.optional()` on top of the
      declared check, so an absent parameter raises no issue. */
  function OptionalParamIssue(key: string, message: string, v: Value): (r: Option<Issue>)
    ensures r.None? <==> IsOptionalParam(v)
    ensures r.Some? ==> r == ParamIssue(key, message, v) && r.value.path == [key]
  {
    ParamIssueSpec(key, message, v);
    if v.Undefined? then None else ParamIssue(key, message, v)
  }

  /** `validatePaginationInput` as the route documents it: both parameters
      optional, `next()` on success, and the same 400 response for a
      parameter that is present but not a canonical positive numeral. */
  function ValidatePaginationInputOptional(query: Object): (r: Outcome)
    ensures r != NoResponse
    ensures r == Next <==> IsOptionalParam(Get(query, "page")) && IsOptionalParam(Get(query, "limit"))
    ensures r.Reject? ==> r.status == 400 && r.issues != []
    ensures r.Reject? ==>
      (Issue(["page"], Custom(PageMessage)) in r.issues <==>
        Get(query, "page").Str? && !IsPositiveDecimal(Get(query, "page").s))
    ensures r.Reject? ==>
      (Issue(["limit"], Custom(LimitMessage)) in r.issues <==>
        Get(query, "limit").Str? && !IsPositiveDecimal(Get(query, "limit").s))
  {
    var p := Listed(OptionalParamIssue("page", PageMessage, Get(query, "page")));
    var l := Listed(OptionalParamIssue("limit", LimitMessage, Get(query, "limit")));
    ParamIssueSpec("page", PageMessage, Get(query, "page"));
    ParamIssueSpec("limit", LimitMessage, Get(query, "limit"));
    if p + l == [] then Next else Reject(400, p + l)
  }

  /** `validateSensorDataInput`: `next()` exactly when the body satisfies the
      request schema, otherwise a 400 response with the issues. */
  function ValidateSensorDataInput(body: Value): (r: Outcome)
    ensures r != NoResponse
    ensures r.Next? <==> SensorModel.IsSensorReading(body)
    ensures r.Reject? ==> r.status == 400 && r.issues != []
    ensures r.Reject? && body.Object? ==> Paths(r.issues) == SensorModel.ExpectedFailingPaths(body.fields)
  {
    SensorModel.SensorDataAcceptedIff(body);
    ObjectFailingPaths(body);
    var issues := SensorModel.SensorDataIssues(body);
    if issues == [] then Next else Reject(400, issues)
  }
}
