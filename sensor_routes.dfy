/** routes/sensorRoutes.js: the GET listing (page and limit defaults, skip,
    newest-first order, projection and slice) and the POST handler that
    builds a record from a validated body and appends it to the store. */
module SensorRoutes {
  import opened JsValues
  import opened JsNumbers
  import opened Issues
  import Middleware
  import SensorModel

  /** A stored document: field name to value, `_id` included. */
  type Document = map<string, Value>

  /** What the client eventually receives: no answer at all, or a status code with a JSON body. */
  datatype Reply = Pending | Json(status: int, payload: Payload)

  datatype Payload =
    | Empty
    | IssueList(issues: seq<Issue>)
    | ErrorMessage(message: string)
    | Items(items: seq<Document>)

  // ----- sort({ timestamp: -1 }) -----

  /** The sort key: a `Date` timestamp, or nothing (which sorts lowest). */
  function Timestamp(d: Document): Option<int>
  {
    if "timestamp" in d && d["timestamp"].Date? then Some(d["timestamp"].time) else None
  }

  /** `a` may come before `b` when sorting by timestamp, newest first. */
  predicate AtLeastAsNew(a: Document, b: Document)
  {
    match (Timestamp(a), Timestamp(b))
    case (_, None) => true
    case (None, Some(_)) => false
    case (Some(x), Some(y)) => x >= y
  }

  /** Newest first, stated on neighbours. */
  predicate NewestFirst(s: seq<Document>)
  {
    forall i :: 0 < i < |s| ==> AtLeastAsNew(s[i - 1], s[i])
  }

  /** Puts `d` in front of the first document that is not newer than it. */
  function Insert(d: Document, s: seq<Document>): (r: seq<Document>)
    ensures multiset(r) == multiset(s) + multiset{d} && |r| == |s| + 1
    ensures r[0] == d || (s != [] && r[0] == s[0])
  {
    if s == [] || AtLeastAsNew(d, s[0]) then [d] + s
    else
      assert s == [s[0]] + s[1..];
      [s[0]] + Insert(d, s[1..])
  }

  /** Inserting into a newest-first sequence keeps it newest first. */
  lemma {:induction false} InsertKeepsOrder(d: Document, s: seq<Document>)
    requires NewestFirst(s)
    ensures NewestFirst(Insert(d, s))
  {
    if s != [] && !AtLeastAsNew(d, s[0]) {
      var tail := s[1..];
      assert NewestFirst(tail) by {
        forall i | 0 < i < |tail| ensures AtLeastAsNew(tail[i - 1], tail[i]) {
          assert tail[i - 1] == s[i] && tail[i] == s[i + 1];
        }
      }
      InsertKeepsOrder(d, tail);
      var t := Insert(d, tail);
      assert AtLeastAsNew(s[0], t[0]) by {
        if t[0] != d { assert t[0] == s[1]; }
      }
      var r := [s[0]] + t;
      assert r == Insert(d, s);
      forall i | 0 < i < |r| ensures AtLeastAsNew(r[i - 1], r[i]) {
        if i > 1 { assert r[i - 1] == t[i - 2] && r[i] == t[i - 1]; }
      }
    }
  }

  /** The documents in timestamp-descending order. */
  function SortNewestFirst(s: seq<Document>): (r: seq<Document>)
    ensures NewestFirst(r)
    ensures multiset(r) == multiset(s) && |r| == |s|
  {
    if s == [] then []
    else
      assert s == [s[0]] + s[1..];
      var sorted := SortNewestFirst(s[1..]);
      InsertKeepsOrder(s[0], sorted);
      Insert(s[0], sorted)
  }

  /** Ordered neighbours make every earlier document at least as new as every later one. */
  lemma {:induction false} NewestFirstPairs(s: seq<Document>, i: int, j: int)
    requires NewestFirst(s) && 0 <= i < j < |s|
    ensures AtLeastAsNew(s[i], s[j])
    decreases j - i
  {
    if i + 1 < j {
      NewestFirstPairs(s, i + 1, j);
      assert AtLeastAsNew(s[i], s[i + 1]);
    }
  }

  // ----- the projection "-_id timestamp location temperatureCelsius humidityPercentage pressureHpa" -----

  const ProjectedFields: set<string> := {"timestamp", "location", "temperatureCelsius", "humidityPercentage", "pressureHpa"}

  /** Keeps the listed fields a document has and drops everything else, `_id` included. */
  function Project(d: Document): (p: Document)
    ensures p.Keys == d.Keys * ProjectedFields
    ensures "_id" !in p
    ensures forall k :: k in p ==> p[k] == d[k]
  {
    map k | k in d.Keys * ProjectedFields :: d[k]
  }

  function ProjectAll(s: seq<Document>): (r: seq<Document>)
    ensures |r| == |s|
    ensures forall i :: 0 <= i < |s| ==> r[i] == Project(s[i])
  {
    if s == [] then [] else [Project(s[0])] + ProjectAll(s[1..])
  }

  // ----- page, limit and skip -----

  /** `parseInt(x) || fallback`: NaN and 0 are falsy, so both give the fallback. */
  function OrDefault(p: Parsed, fallback: int): (n: int)
    ensures fallback != 0 ==> n != 0
    ensures p.Int? && p.value != 0 ==> n == p.value
    ensures p.NaN? || p.value == 0 ==> n == fallback
  {
    if p.Int? && p.value != 0 then p.value else fallback
  }

  /** `parseInt(req.query.x)`: a missing parameter is `parseInt(undefined)`, which is NaN. */
  function QueryNumber(query: Object, key: string): Parsed
  {
    match Get(query, key)
    case Str(s) => ParseInt(s)
    case _ => NaN
  }

  function PageNumber(query: Object): int
  {
    OrDefault(QueryNumber(query, "page"), 1)
  }

  function LimitNumber(query: Object): int
  {
    OrDefault(QueryNumber(query, "limit"), 10)
  }

  /** `(page - 1) * limit`. */
  function Skip(page: int, limit: int): (skip: int)
    ensures page == 1 ==> skip == 0
    ensures page >= 1 && limit > 0 ==> skip >= 0
  {
    (page - 1) * limit
  }

  /** `.skip(skip).limit(n)`: at most `n` documents, starting at position `skip`. */
  function Window(s: seq<Document>, skip: nat, n: nat): (w: seq<Document>)
    ensures |w| <= n
    ensures |w| == if skip >= |s| then 0 else if |s| - skip < n then |s| - skip else n
    ensures forall i :: 0 <= i < |w| ==> w[i] == s[skip + i]
  {
    var from := if skip < |s| then skip else |s|;
    var to := if skip + n < |s| then skip + n else |s|;
    s[from..to]
  }

  /** One page of the listing: the documents sorted newest first, from
      position `skip` on, at most `n` of them, each projected. */
  function PageOf(docs: seq<Document>, skip: nat, n: nat): (items: seq<Document>)
    ensures |items| <= n
    ensures |items| == |Window(SortNewestFirst(docs), skip, n)|
    ensures forall i :: 0 <= i < |items| ==> skip + i < |docs| && items[i] == Project(SortNewestFirst(docs)[skip + i])
    ensures forall i :: 0 <= i < |items| ==> "_id" !in items[i] && items[i].Keys <= ProjectedFields
  {
    ProjectAll(Window(SortNewestFirst(docs), skip, n))
  }

  /** The body of the GET handler. A negative skip makes the query fail; the
      rejection is never caught, so no response is sent. A negative limit is
      taken by its absolute value, as the driver does. */
  function ListReadings(query: Object, docs: seq<Document>): (r: Reply)
    ensures var page, limit := PageNumber(query), LimitNumber(query);
      && (r.Pending? <==> Skip(page, limit) < 0)
      && (r.Json? ==>
            r.status == 200 && r.payload.Items?
            && r.payload.items == PageOf(docs, Skip(page, limit), if limit < 0 then -limit else limit))
  {
    var page := PageNumber(query);
    var limit := LimitNumber(query);
    var skip := Skip(page, limit);
    if skip < 0 then Pending
    else Json(200, Items(PageOf(docs, skip, if limit < 0 then -limit else limit)))
  }

  /** Pages `p` and `p + 1` are adjacent windows: together they are the
      window of twice the size that starts where page `p` starts. */
  lemma PagesContiguous(s: seq<Document>, page: int, limit: int)
    requires page >= 1 && limit > 0
    ensures Window(s, Skip(page, limit), limit) + Window(s, Skip(page + 1, limit), limit)
      == Window(s, Skip(page, limit), 2 * limit)
  {
    var a := Window(s, Skip(page, limit), limit);
    var b := Window(s, Skip(page + 1, limit), limit);
    var c := Window(s, Skip(page, limit), 2 * limit);
    assert Skip(page + 1, limit) == Skip(page, limit) + limit;
    assert |a + b| == |c|;
    forall i | 0 <= i < |c| ensures (a + b)[i] == c[i] {
      if i >= |a| {
        assert |a| == limit;
      }
    }
  }

  /** Pages 1 to `k` read in order are exactly the first `k * limit` documents. */
  lemma {:induction false} PagesCover(s: seq<Document>, limit: int, k: nat)
    requires limit > 0
    ensures Pages(s, limit, k) == Window(s, 0, k * limit)
  {
    if k > 0 {
      PagesCover(s, limit, k - 1);
      var w := Window(s, 0, (k - 1) * limit);
      var p := Window(s, Skip(k, limit), limit);
      var c := Window(s, 0, k * limit);
      assert Skip(k, limit) == (k - 1) * limit;
      assert k * limit == (k - 1) * limit + limit;
      assert |w + p| == |c|;
      forall i | 0 <= i < |c| ensures (w + p)[i] == c[i] {
        if i >= |w| {
          assert |w| == (k - 1) * limit;
        }
      }
    }
  }

  /** Pages 1 to `k` of `limit` documents each, one after the other. */
  function Pages(s: seq<Document>, limit: int, k: nat): seq<Document>
    requires limit > 0
  {
    if k == 0 then [] else Pages(s, limit, k - 1) + Window(s, Skip(k, limit), limit)
  }

  /** The page the handler uses: the parsed number when it is nonzero,
      otherwise 1. `"0"`, a missing parameter and a non-numeric one all
      fall back; a valid parameter is used as it is. */
  lemma PageDefaults(query: Object)
    ensures Get(query, "page").Undefined? ==> PageNumber(query) == 1
    ensures Get(query, "page") == Str("0") ==> PageNumber(query) == 1
    ensures Get(query, "page").Str? && ParseInt(Get(query, "page").s).NaN? ==> PageNumber(query) == 1
    ensures Middleware.IsPaginationParam(Get(query, "page")) ==>
      ParseInt(Get(query, "page").s) == Int(PageNumber(query)) && PageNumber(query) >= 1
  {
    ParamNumber(Get(query, "page"));
  }

  /** The limit the handler uses: as for the page, with 10 as the fallback. */
  lemma LimitDefaults(query: Object)
    ensures Get(query, "limit").Undefined? ==> LimitNumber(query) == 10
    ensures Get(query, "limit") == Str("0") ==> LimitNumber(query) == 10
    ensures Get(query, "limit").Str? && ParseInt(Get(query, "limit").s).NaN? ==> LimitNumber(query) == 10
    ensures Middleware.IsPaginationParam(Get(query, "limit")) ==>
      ParseInt(Get(query, "limit").s) == Int(LimitNumber(query)) && LimitNumber(query) >= 1
  {
    ParamNumber(Get(query, "limit"));
  }

  lemma ParamNumber(v: Value)
    ensures v == Str("0") ==> ParseInt(v.s) == Int(0)
    ensures Middleware.IsPaginationParam(v) ==> ParseInt(v.s).Int? && ParseInt(v.s).value >= 1
  {
    if v == Str("0") {
      ParseOneDigit('0');
    }
    if Middleware.IsPaginationParam(v) {
      Middleware.ValidNumberIff(v.s);
    }
  }

  // ----- the routes with their middleware -----

  /** `GET /api/sensor`: the pagination middleware, then the handler. */
  function GetRoute(query: Object, docs: seq<Document>): (r: Reply)
  {
    match Middleware.ValidatePaginationInput(query)
    case Reject(status, issues) => Json(status, IssueList(issues))
    case NoResponse => Pending
    case Next => ListReadings(query, docs)
  }

  /** The middleware never passes a request on, so the listing is never
      sent: invalid parameters get a 400 with the issues and valid ones get
      no answer at all. */
  lemma GetRouteNeverLists(query: Object, docs: seq<Document>)
    ensures var r := GetRoute(query, docs);
      && (r.Pending? <==> Middleware.PaginationParamsValid(query))
      && (r.Json? ==> r.status == 400 && r.payload.IssueList? && r.payload.issues != [])
  {
  }

  /** `GET /api/sensor` with a middleware that calls `next()` on success. */
  function GetRouteIntended(query: Object, docs: seq<Document>): Reply
  {
    match Middleware.ValidatePaginationInputIntended(query)
    case Reject(status, issues) => Json(status, IssueList(issues))
    case NoResponse => Pending
    case Next => ListReadings(query, docs)
  }

  /** With the intended middleware, valid parameters get page `page` of
      `limit` newest-first documents with status 200, and invalid ones the
      same 400 response as before. */
  lemma GetRouteIntendedLists(query: Object, docs: seq<Document>)
    ensures Middleware.PaginationParamsValid(query) ==>
      var page, limit := PageNumber(query), LimitNumber(query);
      && ParseInt(Get(query, "page").s) == Int(page) && page >= 1
      && ParseInt(Get(query, "limit").s) == Int(limit) && limit >= 1
      && GetRouteIntended(query, docs) == Json(200, Items(PageOf(docs, Skip(page, limit), limit)))
    ensures !Middleware.PaginationParamsValid(query) ==> GetRouteIntended(query, docs) == GetRoute(query, docs)
  {
    PageDefaults(query);
    LimitDefaults(query);
  }

  /** `GET /api/sensor` with the pagination the route documents: both
      parameters optional, and `next()` on success. */
  function GetRouteOptional(query: Object, docs: seq<Document>): Reply
  {
    match Middleware.ValidatePaginationInputOptional(query)
    case Reject(status, issues) => Json(status, IssueList(issues))
    case NoResponse => Pending
    case Next => ListReadings(query, docs)
  }

  /** With optional parameters, a query without `page` lists page 1 and one
      without `limit` lists 10 documents per page, as documented; a present
      parameter is used as parsed, and a malformed one still gets a 400. */
  lemma GetRouteOptionalLists(query: Object, docs: seq<Document>)
    ensures Middleware.IsOptionalParam(Get(query, "page")) && Middleware.IsOptionalParam(Get(query, "limit")) ==>
      var page, limit := PageNumber(query), LimitNumber(query);
      && (Get(query, "page").Undefined? ==> page == 1)
      && (Get(query, "limit").Undefined? ==> limit == 10)
      && (Get(query, "page").Str? ==> ParseInt(Get(query, "page").s) == Int(page))
      && (Get(query, "limit").Str? ==> ParseInt(Get(query, "limit").s) == Int(limit))
      && page >= 1 && limit >= 1
      && GetRouteOptional(query, docs) == Json(200, Items(PageOf(docs, Skip(page, limit), limit)))
    ensures !(Middleware.IsOptionalParam(Get(query, "page")) && Middleware.IsOptionalParam(Get(query, "limit"))) ==>
      var r := GetRouteOptional(query, docs);
      r.Json? && r.status == 400 && r.payload.IssueList? && r.payload.issues != []
  {
    PageDefaults(query);
    LimitDefaults(query);
  }

  /** The record the POST handler builds: a server-side timestamp and the
      four fields copied from the body. */
  function NewRecord(body: Object, now: int): (d: Document)
    ensures d.Keys == {"timestamp", "location", "temperatureCelsius", "humidityPercentage", "pressureHpa"}
    ensures d["timestamp"] == Date(now)
    ensures forall k :: k in d && k != "timestamp" ==> d[k] == Get(body, k)
  {
    map[
      "timestamp" := Date(now),
      "location" := Get(body, "location"),
      "temperatureCelsius" := Get(body, "temperatureCelsius"),
      "humidityPercentage" := Get(body, "humidityPercentage"),
      "pressureHpa" := Get(body, "pressureHpa")]
  }

  /** A timestamp in the body has no say: two bodies that agree on the four
      copied fields give the same record. */
  lemma RecordIgnoresOtherFields(b1: Object, b2: Object, now: int)
    requires forall k :: k in SensorModel.InputFieldSet ==> Get(b1, k) == Get(b2, k)
    ensures NewRecord(b1, now) == NewRecord(b2, now)
  {
    assert "location" in SensorModel.InputFieldSet;
    assert "temperatureCelsius" in SensorModel.InputFieldSet;
    assert "humidityPercentage" in SensorModel.InputFieldSet;
    assert "pressureHpa" in SensorModel.InputFieldSet;
  }

  /** The collection as the POST route sees it. */
  class SensorStore {
    var documents: seq<Document>
    var nextId: nat

    /** Every document carries an `_id` below `nextId`, and no two share one. */
    ghost predicate Valid()
      reads this
    {
      IdsBelow(documents, nextId)
    }

    constructor ()
      ensures Valid() && documents == [] && nextId == 0
    {
      documents := [];
      nextId := 0;
    }

    /** `POST /api/sensor`: validation, then `save()`. A failing `save()` is
        modelled by `saveError`, the message of the error it throws. */
    method Post(body: Value, now: int, saveError: Option<string>) returns (reply: Reply)
      requires Valid()
      modifies this
      ensures Valid()
      ensures match Middleware.ValidateSensorDataInput(body)
        case Reject(status, issues) =>
          reply == Json(status, IssueList(issues)) && documents == old(documents) && nextId == old(nextId)
        case Next =>
          (saveError.Some? ==>
            reply == Json(400, ErrorMessage(saveError.value)) && documents == old(documents) && nextId == old(nextId))
          && (saveError.None? ==>
            reply == Json(201, Empty)
            && documents == old(documents) + [NewRecord(body.fields, now)["_id" := ObjectId(old(nextId))]]
            && nextId == old(nextId) + 1)
        case NoResponse => false
    {
      var outcome := Middleware.ValidateSensorDataInput(body);
      if outcome.Reject? {
        return Json(outcome.status, IssueList(outcome.issues));
      }
      assert body.Object?;
      if saveError.Some? {
        return Json(400, ErrorMessage(saveError.value));
      }
      var doc := NewRecord(body.fields, now)["_id" := ObjectId(nextId)];
      AppendKeepsIds(documents, nextId, doc);
      documents := documents + [doc];
      nextId := nextId + 1;
      reply := Json(201, Empty);
    }
  }

  predicate HasIdBelow(d: Document, bound: nat)
  {
    "_id" in d && d["_id"].ObjectId? && d["_id"].id < bound
  }

  /** Every document carries an `_id` below `bound`, and no two share one. */
  predicate IdsBelow(docs: seq<Document>, bound: nat)
  {
    && (forall i :: 0 <= i < |docs| ==> HasIdBelow(docs[i], bound))
    && (forall i, j :: 0 <= i < j < |docs| ==> docs[i]["_id"] != docs[j]["_id"])
  }

  /** Appending a document with the next fresh `_id` keeps the ids distinct. */
  lemma AppendKeepsIds(docs: seq<Document>, next: nat, doc: Document)
    requires IdsBelow(docs, next)
    requires "_id" in doc && doc["_id"] == ObjectId(next)
    ensures IdsBelow(docs + [doc], next + 1)
  {
    var r := docs + [doc];
    forall i | 0 <= i < |r| ensures HasIdBelow(r[i], next + 1) {
      if i < |docs| {
        assert HasIdBelow(docs[i], next);
      }
    }
    forall i, j | 0 <= i < j < |r| ensures r[i]["_id"] != r[j]["_id"] {
      if j == |docs| {
        assert HasIdBelow(docs[i], next);
      }
    }
  }
}
