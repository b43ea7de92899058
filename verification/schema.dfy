/**
 * The request and response shapes of the translation API: validation of a
 * translate request, construction from and conversion to a dict, and the
 * dicts the success, error and validation-error responses are made of.
 * A dict is its items in insertion order; field values are decoded JSON
 * values, since the request body may carry any JSON type.
 */
module Schema {
  import opened Opt
  import opened Text
  import opened Json

  type Dict = seq<(string, Value)>

  /** No key occurs twice among the items. */
  predicate DistinctKeys(d: Dict) {
    forall i, j :: 0 <= i < j < |d| ==> d[i].0 != d[j].0
  }

  /** `{k: v for k, v in items if v is not None}`. */
  function DropNone(items: Dict): (r: Dict)
    ensures |r| <= |items|
    ensures forall i :: 0 <= i < |r| ==> r[i].1 != JNull
    ensures forall kv :: kv in r <==> kv in items && kv.1 != JNull
  {
    if items == [] then []
    else
      var rest := DropNone(items[1..]);
      assert forall kv :: kv in items <==> kv == items[0] || kv in items[1..];
      if items[0].1 == JNull then rest else [items[0]] + rest
  }

  lemma {:induction false} DropNoneKeys(items: Dict)
    requires DistinctKeys(items)
    ensures DistinctKeys(DropNone(items))
  {
    if items != [] {
      var rest := DropNone(items[1..]);
      assert DistinctKeys(items[1..]) by {
        forall i, j | 0 <= i < j < |items[1..]| ensures items[1..][i].0 != items[1..][j].0 {
          assert items[1..][i] == items[i + 1] && items[1..][j] == items[j + 1];
        }
      }
      DropNoneKeys(items[1..]);
      if items[0].1 != JNull {
        forall j | 0 <= j < |rest| ensures rest[j].0 != items[0].0 {
          assert rest[j] in items[1..];
          var m :| 0 <= m < |items[1..]| && items[1..][m] == rest[j];
          assert items[m + 1] == rest[j];
        }
        var r := [items[0]] + rest;
        forall i, j | 0 <= i < j < |r| ensures r[i].0 != r[j].0 {
          if i > 0 { assert r[i] == rest[i - 1]; }
          assert r[j] == rest[j - 1];
        }
      }
    }
  }

  /** `get` on a dict whose first item is `kv`. */
  lemma GetCons(kv: (string, Value), rest: Dict, key: string, default: Value)
    ensures Get([kv] + rest, key, default) == if kv.0 == key then kv.1 else Get(rest, key, default)
  {
    var d := [kv] + rest;
    assert d[1..] == rest;
  }

  /** Reading a key back after dropping the `None` values: the value when it
      was not `None`, else the default. */
  lemma {:induction false} GetDropNone(items: Dict, key: string, default: Value)
    requires DistinctKeys(items)
    ensures Get(DropNone(items), key, default) ==
            (var v := Get(items, key, JNull); if v == JNull then default else v)
  {
    if items != [] {
      var rest := items[1..];
      assert items == [items[0]] + rest;
      assert DistinctKeys(rest) by {
        forall i, j | 0 <= i < j < |rest| ensures rest[i].0 != rest[j].0 {
          assert rest[i] == items[i + 1] && rest[j] == items[j + 1];
        }
      }
      GetDropNone(rest, key, default);
      GetCons(items[0], rest, key, JNull);
      if items[0].1 != JNull {
        GetCons(items[0], DropNone(rest), key, default);
      }
      if items[0].0 == key && HasKey(rest, key) {
        var j :| 0 <= j < |rest| && rest[j].0 == key;
        assert items[j + 1] == rest[j];
      }
    }
  }

  /** After dropping the `None` values, a key is present exactly when its
      value was not `None`. */
  lemma HasKeyDropNone(items: Dict, key: string)
    requires DistinctKeys(items)
    ensures HasKey(DropNone(items), key) <==> Get(items, key, JNull) != JNull
  {
    GetDropNone(items, key, JNull);
    var r := DropNone(items);
    if HasKey(r, key) {
      var k :| 0 <= k < |r| && r[k].0 == key && Get(r, key, JNull) == r[k].1;
    }
  }

  /** With distinct keys, each item is what its key reads back. */
  lemma GetAt(d: Dict, i: nat, default: Value)
    requires DistinctKeys(d) && i < |d|
    ensures Get(d, d[i].0, default) == d[i].1
  {
    var k :| 0 <= k < |d| && d[k].0 == d[i].0 && Get(d, d[i].0, default) == d[k].1;
    assert k == i;
  }

  // ---------------------------------------------------------------------
  // `TranslateRequest`.

  datatype Request = Request(content: Value, url: Value, title: Value, domain: Value, syncToNotion: Value)

  const ValidDomains: seq<string> := ["tech", "business", "academic"]

  /** The checks of `validate`, in the order they run. */
  datatype Problem = Missing | Both | BadDomain | BadUrl

  function Rank(p: Problem): nat {
    match p
    case Missing => 0
    case Both => 1
    case BadDomain => 2
    case BadUrl => 3
  }

  function Message(p: Problem): string {
    match p
    case Missing => "Either 'content' or 'url' must be provided"
    case Both => "Only one of 'content' or 'url' can be provided"
    case BadDomain => "Invalid domain. Must be one of: " + Join(", ", ValidDomains)
    case BadUrl => "URL must start with http:// or https://"
  }

  predicate HttpUrl(v: Value) {
    v.JStr? && (StartsWith(v.s, "http://") || StartsWith(v.s, "https://"))
  }

  predicate KnownDomain(v: Value) {
    v.JStr? && v.s in ValidDomains
  }

  /** Each check on its own: what makes the request fail it. */
  predicate Fails(req: Request, p: Problem) {
    match p
    case Missing => !Json.Truthy(req.content) && !Json.Truthy(req.url)
    case Both => Json.Truthy(req.content) && Json.Truthy(req.url)
    case BadDomain => !KnownDomain(req.domain)
    case BadUrl => Json.Truthy(req.url) && !HttpUrl(req.url)
  }

  /** `startswith` on a URL that is truthy but not a string raises. */
  predicate Raises(req: Request) {
    Json.Truthy(req.url) && !req.url.JStr?
  }

  predicate InRankOrder(ps: seq<Problem>) {
    forall i, j :: 0 <= i < j < |ps| ==> Rank(ps[i]) < Rank(ps[j])
  }

  /** `validate`: the failed checks in order, or `None` where the URL test
      raises. */
  function Validate(req: Request): (r: Option<seq<Problem>>)
    ensures r.None? <==> Raises(req)
    ensures r.Some? ==> (forall p :: p in r.value <==> Fails(req, p))
    ensures r.Some? ==> InRankOrder(r.value)
    ensures r.Some? ==> (r.value == [] <==>
      (Json.Truthy(req.content) != Json.Truthy(req.url)) && KnownDomain(req.domain)
      && (Json.Truthy(req.url) ==> HttpUrl(req.url)))
  {
    if Raises(req) then None
    else
      Some((if Fails(req, Missing) then [Missing] else [])
           + (if Fails(req, Both) then [Both] else [])
           + (if Fails(req, BadDomain) then [BadDomain] else [])
           + (if Fails(req, BadUrl) then [BadUrl] else []))
  }

  /** The two presence errors never come together. */
  lemma PresenceErrorsExclusive(req: Request)
    requires !Raises(req)
    ensures !(Missing in Validate(req).value && Both in Validate(req).value)
  {
  }

  function ErrorMessages(ps: seq<Problem>): (r: seq<string>)
    ensures |r| == |ps|
    ensures forall i :: 0 <= i < |r| ==> r[i] == Message(ps[i])
  {
    seq(|ps|, i requires 0 <= i < |ps| => Message(ps[i]))
  }

  /** `TranslateRequest.from_dict`: absent keys read as `None`, except the
      domain ("tech") and the Notion flag (false). */
  function RequestFromDict(d: Dict): (r: Request)
    ensures !HasKey(d, "domain") ==> r.domain == JStr("tech")
    ensures !HasKey(d, "sync_to_notion") ==> r.syncToNotion == JBool(false)
    ensures !HasKey(d, "content") ==> r.content == JNull
  {
    Request(Get(d, "content", JNull), Get(d, "url", JNull), Get(d, "title", JNull),
            Get(d, "domain", JStr("tech")), Get(d, "sync_to_notion", JBool(false)))
  }

  function RequestItems(req: Request): Dict {
    [("content", req.content), ("url", req.url), ("title", req.title),
     ("domain", req.domain), ("sync_to_notion", req.syncToNotion)]
  }

  lemma ItemsDistinct(req: Request)
    ensures DistinctKeys(RequestItems(req))
  {
  }

  lemma ItemsGet(req: Request)
    ensures Get(RequestItems(req), "content", JNull) == req.content
    ensures Get(RequestItems(req), "url", JNull) == req.url
    ensures Get(RequestItems(req), "title", JNull) == req.title
    ensures Get(RequestItems(req), "domain", JNull) == req.domain
    ensures Get(RequestItems(req), "sync_to_notion", JNull) == req.syncToNotion
  {
    var items := RequestItems(req);
    ItemsDistinct(req);
    GetAt(items, 0, JNull);
    GetAt(items, 1, JNull);
    GetAt(items, 2, JNull);
    GetAt(items, 3, JNull);
    GetAt(items, 4, JNull);
  }

  /** `TranslateRequest.to_dict`: the fields without the `None` ones. */
  function RequestToDict(req: Request): (r: Dict)
    ensures DistinctKeys(r)
    ensures forall kv :: kv in r <==> kv in RequestItems(req) && kv.1 != JNull
  {
    ItemsDistinct(req);
    DropNoneKeys(RequestItems(req));
    DropNone(RequestItems(req))
  }

  /** Going through a dict and back restores the request, except where the
      domain or the flag was `None`: those are dropped and come back as
      their defaults. */
  lemma RequestRoundTrip(req: Request)
    ensures RequestFromDict(RequestToDict(req)) == req <==>
            req.domain != JNull && req.syncToNotion != JNull
  {
    var items := RequestItems(req);
    ItemsDistinct(req);
    ItemsGet(req);
    GetDropNone(items, "content", JNull);
    GetDropNone(items, "url", JNull);
    GetDropNone(items, "title", JNull);
    GetDropNone(items, "domain", JStr("tech"));
    GetDropNone(items, "sync_to_notion", JBool(false));
  }

  // ---------------------------------------------------------------------
  // `NotionSyncRequest`.

  datatype SyncRequest = SyncRequest(taskId: Value, title: Value)

  const TaskIdRequired := "'task_id' is required"

  /** `NotionSyncRequest.from_dict`: a missing task id reads as "", a
      missing title as `None`; present values are taken as they are. */
  function SyncFromDict(d: Dict): (r: SyncRequest)
    ensures !HasKey(d, "task_id") ==> r.taskId == JStr("")
    ensures HasKey(d, "task_id") ==> r.taskId == Get(d, "task_id", JNull)
    ensures r.title == Get(d, "title", JNull)
  {
    SyncRequest(Get(d, "task_id", JStr("")), Get(d, "title", JNull))
  }

  function SyncValidate(req: SyncRequest): (r: seq<string>)
    ensures r == [] <==> Json.Truthy(req.taskId)
    ensures r != [] ==> r == [TaskIdRequired]
  {
    if !Json.Truthy(req.taskId) then [TaskIdRequired] else []
  }

  function SyncToDict(req: SyncRequest): (r: Dict)
    ensures forall kv :: kv in r <==> kv in SyncItems(req) && kv.1 != JNull
  {
    DropNone(SyncItems(req))
  }

  function SyncItems(req: SyncRequest): Dict {
    [("task_id", req.taskId), ("title", req.title)]
  }

  /** Through a dict and back, a sync request comes back unchanged unless
      its task id was `None`, which is dropped and returns as "". */
  lemma SyncRoundTrip(req: SyncRequest)
    ensures SyncFromDict(SyncToDict(req)) == req <==> req.taskId != JNull
  {
    var items := SyncItems(req);
    assert DistinctKeys(items);
    GetAt(items, 0, JNull);
    GetAt(items, 1, JNull);
    GetDropNone(items, "task_id", JNull);
    GetDropNone(items, "title", JNull);
    HasKeyDropNone(items, "task_id");
  }

  /** A sync request without a task id is refused. */
  lemma SyncNeedsTaskId(d: Dict)
    requires !HasKey(d, "task_id")
    ensures SyncValidate(SyncFromDict(d)) == [TaskIdRequired]
  {
  }

  // ---------------------------------------------------------------------
  // Response data.

  function OptStr(o: Option<string>): Value {
    if o.Some? then JStr(o.value) else JNull
  }

  function Keys(d: Dict): (r: seq<string>)
    ensures |r| == |d|
    ensures forall i :: 0 <= i < |r| ==> r[i] == d[i].0
  {
    seq(|d|, i requires 0 <= i < |d| => d[i].0)
  }

  /** `TranslateResponseData`; the cost is a float and stays an opaque value. */
  datatype TranslateData = TranslateData(
    taskId: string, originalContent: string, translatedContent: string,
    title: Option<string>, sourceUrl: Option<string>, domain: Option<string>,
    notionPageUrl: Option<string>, costUsd: Value)

  /** `asdict`: every field, `None` included. */
  function TranslateDataDict(d: TranslateData): (r: Dict)
    ensures Keys(r) == ["task_id", "original_content", "translated_content", "title",
                        "source_url", "domain", "notion_page_url", "cost_usd"]
    ensures r[0].1 == JStr(d.taskId) && r[1].1 == JStr(d.originalContent)
    ensures r[2].1 == JStr(d.translatedContent) && r[3].1 == OptStr(d.title)
    ensures r[4].1 == OptStr(d.sourceUrl) && r[5].1 == OptStr(d.domain)
    ensures r[6].1 == OptStr(d.notionPageUrl) && r[7].1 == d.costUsd
  {
    [("task_id", JStr(d.taskId)), ("original_content", JStr(d.originalContent)),
     ("translated_content", JStr(d.translatedContent)), ("title", OptStr(d.title)),
     ("source_url", OptStr(d.sourceUrl)), ("domain", OptStr(d.domain)),
     ("notion_page_url", OptStr(d.notionPageUrl)), ("cost_usd", d.costUsd)]
  }

  /** The translate response data has one item per field, so a client
      reads every field back under its own name, `None` included. */
  lemma TranslateDataReadBack(d: TranslateData)
    ensures DistinctKeys(TranslateDataDict(d))
    ensures var r := TranslateDataDict(d);
      && Get(r, "task_id", JNull) == JStr(d.taskId)
      && Get(r, "translated_content", JNull) == JStr(d.translatedContent)
      && Get(r, "title", JNull) == OptStr(d.title)
      && Get(r, "notion_page_url", JNull) == OptStr(d.notionPageUrl)
  {
    var r := TranslateDataDict(d);
    assert DistinctKeys(r) by {
      forall i, j | 0 <= i < j < |r| ensures r[i].0 != r[j].0 {
        assert Keys(r)[i] == r[i].0 && Keys(r)[j] == r[j].0;
      }
    }
    GetAt(r, 0, JNull);
    GetAt(r, 2, JNull);
    GetAt(r, 3, JNull);
    GetAt(r, 6, JNull);
  }

  /** `NotionSyncResponseData`: `asdict`, `None` included. */
  function SyncDataDict(notionPageUrl: string, pageId: Option<string>): (r: Dict)
    ensures Keys(r) == ["notion_page_url", "page_id"]
    ensures Get(r, "notion_page_url", JNull) == JStr(notionPageUrl)
    ensures Get(r, "page_id", JNull) == OptStr(pageId)
  {
    var r := [("notion_page_url", JStr(notionPageUrl)), ("page_id", OptStr(pageId))];
    assert DistinctKeys(r);
    GetAt(r, 0, JNull);
    GetAt(r, 1, JNull);
    r
  }

  datatype ResumeData = ResumeData(
    taskId: string, status: string, progress: int,
    partialResult: Option<string>, originalContent: Option<string>, error: Option<string>)

  function ResumeItems(d: ResumeData): Dict {
    [("task_id", JStr(d.taskId)), ("status", JStr(d.status)),
     ("progress", JInt(d.progress)), ("partial_result", OptStr(d.partialResult)),
     ("original_content", OptStr(d.originalContent)), ("error", OptStr(d.error))]
  }

  lemma ResumeItemsDistinct(d: ResumeData)
    ensures DistinctKeys(ResumeItems(d))
  {
  }

  /** `ResumeResponseData.to_dict`: the `None` fields dropped, "" kept. */
  function ResumeDataDict(d: ResumeData): (r: Dict)
    ensures forall kv :: kv in r <==> kv in ResumeItems(d) && kv.1 != JNull
    ensures DistinctKeys(r)
    ensures ("task_id", JStr(d.taskId)) in r && ("status", JStr(d.status)) in r && ("progress", JInt(d.progress)) in r
    ensures HasKey(r, "partial_result") <==> d.partialResult.Some?
    ensures HasKey(r, "original_content") <==> d.originalContent.Some?
    ensures HasKey(r, "error") <==> d.error.Some?
    ensures Get(r, "partial_result", JNull) == OptStr(d.partialResult)
    ensures Get(r, "original_content", JNull) == OptStr(d.originalContent)
    ensures Get(r, "error", JNull) == OptStr(d.error)
  {
    var items := ResumeItems(d);
    ResumeItemsDistinct(d);
    DropNoneKeys(items);
    GetAt(items, 3, JNull);
    GetAt(items, 4, JNull);
    GetAt(items, 5, JNull);
    GetDropNone(items, "partial_result", JNull);
    GetDropNone(items, "original_content", JNull);
    GetDropNone(items, "error", JNull);
    HasKeyDropNone(items, "partial_result");
    HasKeyDropNone(items, "original_content");
    HasKeyDropNone(items, "error");
    assert items[0] in items && items[1] in items && items[2] in items;
    DropNone(items)
  }

  // ---------------------------------------------------------------------
  // Envelopes.

  /** The `success`/`data`/`error` envelope of the translate, Notion-sync
      and resume responses. A data object is always truthy; an error dict
      only when it has items. */
  function EnvelopeDict(success: bool, data: Option<Dict>, error: Option<Dict>): (r: Dict)
    ensures 1 <= |r| <= 3 && r[0] == ("success", JBool(success))
    ensures HasKey(r, "data") <==> data.Some?
    ensures HasKey(r, "error") <==> error.Some? && error.value != []
    ensures Get(r, "success", JNull) == JBool(success)
    ensures data.Some? ==> Get(r, "data", JNull) == JObj(data.value)
    ensures error.Some? && error.value != [] ==> Get(r, "error", JNull) == JObj(error.value)
  {
    var r := [("success", JBool(success))]
      + (if data.Some? then [("data", JObj(data.value))] else [])
      + (if error.Some? && error.value != [] then [("error", JObj(error.value))] else []);
    assert HasKey(r, "data") ==> data.Some? by {
      if HasKey(r, "data") { var j :| 0 <= j < |r| && r[j].0 == "data"; }
    }
    assert HasKey(r, "error") ==> error.Some? && error.value != [] by {
      if HasKey(r, "error") { var j :| 0 <= j < |r| && r[j].0 == "error"; }
    }
    assert data.Some? ==> r[1].0 == "data";
    assert error.Some? && error.value != [] ==> r[|r| - 1].0 == "error";
    assert DistinctKeys(r);
    GetAt(r, 0, JNull);
    assert data.Some? ==> Get(r, "data", JNull) == JObj(data.value) by {
      if data.Some? { GetAt(r, 1, JNull); }
    }
    assert error.Some? && error.value != [] ==> Get(r, "error", JNull) == JObj(error.value) by {
      if error.Some? && error.value != [] { GetAt(r, |r| - 1, JNull); }
    }
    r
  }

  /** A successful response object with data gives the same dict as
      `success_response` on that data. */
  lemma SuccessEnvelope(data: Dict)
    ensures EnvelopeDict(true, Some(data), None) == SuccessResponse(data)
  {
  }

  /** A failed response object with an error body gives the same dict as
      `error_response` with that body. */
  lemma ErrorEnvelope(code: string, message: string, details: Option<Dict>)
    ensures EnvelopeDict(false, None, Some(ErrorBody(code, message, details))) == ErrorResponse(code, message, details)
  {
  }

  /** `ErrorResponse.create`: code and message, and the details only when
      they have items. */
  function ErrorBody(code: string, message: string, details: Option<Dict>): (r: Dict)
    ensures |r| >= 2 && r[..2] == [("code", JStr(code)), ("message", JStr(message))]
    ensures Get(r, "code", JNull) == JStr(code) && Get(r, "message", JNull) == JStr(message)
    ensures HasKey(r, "details") <==> details.Some? && details.value != []
    ensures HasKey(r, "details") ==> Get(r, "details", JNull) == JObj(details.value)
  {
    var r := [("code", JStr(code)), ("message", JStr(message))]
      + (if details.Some? && details.value != [] then [("details", JObj(details.value))] else []);
    assert HasKey(r, "details") ==> details.Some? && details.value != [] by {
      if HasKey(r, "details") { var j :| 0 <= j < |r| && r[j].0 == "details"; }
    }
    assert details.Some? && details.value != [] ==> r[2].0 == "details";
    assert r[0].0 != r[1].0;
    GetUnique(r, 0, JNull);
    GetUnique(r, 1, JNull);
    assert |r| == 3 ==> Get(r, "details", JNull) == r[2].1 by {
      if |r| == 3 {
        assert r[2].0 != r[0].0 && r[2].0 != r[1].0;
        GetUnique(r, 2, JNull);
      }
    }
    r
  }

  /** `error_response`: a client reads `success` as false and finds the
      error body under `error`, and there is no `data`. */
  function ErrorResponse(code: string, message: string, details: Option<Dict>): (r: Dict)
    ensures Get(r, "success", JNull) == JBool(false)
    ensures Get(r, "error", JNull) == JObj(ErrorBody(code, message, details))
    ensures !HasKey(r, "data")
  {
    var r := [("success", JBool(false)), ("error", JObj(ErrorBody(code, message, details)))];
    assert r[0].0 != r[1].0;
    GetUnique(r, 0, JNull);
    GetUnique(r, 1, JNull);
    assert !HasKey(r, "data") by {
      forall i | 0 <= i < |r| ensures r[i].0 != "data" { }
    }
    r
  }

  /** `success_response`: a client reads `success` as true and finds the
      payload under `data`, and there is no `error`. */
  function SuccessResponse(data: Dict): (r: Dict)
    ensures Get(r, "success", JNull) == JBool(true)
    ensures Get(r, "data", JNull) == JObj(data)
    ensures !HasKey(r, "error")
  {
    var r := [("success", JBool(true)), ("data", JObj(data))];
    assert r[0].0 != r[1].0;
    GetUnique(r, 0, JNull);
    GetUnique(r, 1, JNull);
    assert !HasKey(r, "error") by {
      forall i | 0 <= i < |r| ensures r[i].0 != "error" { }
    }
    r
  }

  const ValidationErrorCode := "VALIDATION_ERROR"

  function StringList(xs: seq<string>): (r: seq<Value>)
    ensures |r| == |xs|
    ensures forall i :: 0 <= i < |r| ==> r[i] == JStr(xs[i])
  {
    seq(|xs|, i requires 0 <= i < |xs| => JStr(xs[i]))
  }

  /** `validation_error`. */
  function ValidationError(errors: seq<string>): Dict {
    ErrorResponse(ValidationErrorCode, "Request validation failed", Some([("errors", JList(StringList(errors)))]))
  }

  /** A validation error always carries its details, holding the messages
      in order, even when the list is empty. */
  lemma ValidationErrorShape(errors: seq<string>)
    ensures var body := ErrorBody(ValidationErrorCode, "Request validation failed",
                                  Some([("errors", JList(StringList(errors)))]));
      && Get(ValidationError(errors), "error", JNull) == JObj(body)
      && Get(body, "code", JNull) == JStr(ValidationErrorCode)
      && Get(body, "details", JNull) == JObj([("errors", JList(StringList(errors)))])
  {
  }

  /** A request whose checks fail is answered with exactly their messages. */
  lemma RejectedRequest(req: Request)
    requires !Raises(req) && Validate(req).value != []
    ensures var msgs := ErrorMessages(Validate(req).value);
      msgs != [] && Get(ValidationError(msgs), "success", JNull) == JBool(false)
  {
  }
}
