/** The `/api/rss` handler (server/routes.ts, repeated verbatim in the server bundle): clean the
    aggregator's items, validate the result against `rssResponseSchema`, insist on status "ok",
    and turn every failure into one 500 body. The outbound fetch is an input, `Upstream`. */
module Routes {
  import opened Wrappers
  import opened JsValues
  import opened Text
  import opened Schema

  /** What the single outbound fetch produced. */
  datatype Upstream =
    | Unreachable             // `fetch` rejected
    | HttpNotOk(code: int)    // `response.ok` is false: a status outside 200-299
    | NotJson                 // `response.json()` rejected
    | Parsed(data: Value)     // the parsed body

  /** Everything the handler's `try` block can throw. */
  datatype Failure =
    | FetchFailed
    | HttpError(code: int)                  // "HTTP error! status: <code>"
    | BodyNotJson
    | Script(err: TypeError)                // a property read of null, a `.map` of a non-array
    | ValidationFailed(issues: seq<Issue>)  // "Validation failed: <zod's rendering of issues>"
    | FeedNotOk                             // "Failed to parse RSS feed"

  datatype Response =
    | Ok(body: RssResponse)                                  // 200, `res.json(result)`
    | ServerError(status: int, message: string, error: Failure)

  const FailureMessage := "Failed to fetch RSS feed"

  function Fail(f: Failure): Response {
    ServerError(500, FailureMessage, f)
  }

  /** The five keys that default to `""` when the raw value is falsy. */
  const DefaultedKeys: set<string> := {"title", "link", "pubDate", "description", "content"}
  /** The keys every cleaned item has; `thumbnail` is added only when kept. */
  const CleanedKeys: set<string> := DefaultedKeys + {"guid"}
  /** Every key the cleaning reads. */
  const ReadKeys: set<string> := CleanedKeys + {"thumbnail"}

  /** The source's four-part test for keeping a thumbnail, as written. */
  predicate KeepThumbnail(t: Option<Value>) {
    && TruthyOpt(t) && t.value.Str?
    && Trim(t.value.s) != ""
    && StartsWith(t.value.s, "http")
  }

  /** `cleaned[k]` is `item[k] || ''`: the raw value when truthy, otherwise the empty string. */
  predicate DefaultedFrom(cleaned: Value, item: Value, k: string)
    requires item != Null
  {
    && cleaned.Obj? && k in cleaned.fields
    && cleaned.fields[k] == (if TruthyOpt(Prop(item, k)) then Prop(item, k).value else Str(""))
  }

  /** The record built before the thumbnail test: the five defaulted keys and `guid`. */
  function BaseRecord(item: Value): (m: map<string, Value>)
    requires item != Null
    ensures m.Keys == CleanedKeys
    ensures forall k :: k in DefaultedKeys ==> DefaultedFrom(Obj(m), item, k)
    ensures m["guid"] == Or(Prop(item, "guid"), Or(Prop(item, "link"), Str("")))
  {
    var m := map[
      "title" := Or(Prop(item, "title"), Str("")),
      "link" := Or(Prop(item, "link"), Str("")),
      "pubDate" := Or(Prop(item, "pubDate"), Str("")),
      "description" := Or(Prop(item, "description"), Str("")),
      "content" := Or(Prop(item, "content"), Str("")),
      // `item.guid || item.link || ''`; `||` is associative in its result
      "guid" := Or(Prop(item, "guid"), Or(Prop(item, "link"), Str("")))];
    assert m.Keys == CleanedKeys;
    assert DefaultedFrom(Obj(m), item, "title") && DefaultedFrom(Obj(m), item, "link");
    assert DefaultedFrom(Obj(m), item, "pubDate") && DefaultedFrom(Obj(m), item, "description");
    assert DefaultedFrom(Obj(m), item, "content");
    m
  }

  /** One raw item as its cleaned record: five keys defaulted to `""`, `guid` falling back to
      `link`, and `thumbnail` added after construction only when it passes `KeepThumbnail`.
      Reading a property of a `null` item throws. */
  function CleanItem(item: Value): (r: Result<Value, TypeError>)
    ensures r.Failure? <==> item == Null
    ensures r.Success? ==> r.value.Obj?
    ensures r.Success? ==>
      r.value.fields.Keys == (if KeepThumbnail(Prop(item, "thumbnail")) then ReadKeys else CleanedKeys)
    ensures r.Success? ==> forall k :: k in DefaultedKeys ==> DefaultedFrom(r.value, item, k)
    ensures r.Success? ==>
      r.value.fields["guid"] ==
        if TruthyOpt(Prop(item, "guid")) then Prop(item, "guid").value
        else if TruthyOpt(Prop(item, "link")) then Prop(item, "link").value
        else Str("")
    ensures r.Success? && KeepThumbnail(Prop(item, "thumbnail")) ==>
      r.value.fields["thumbnail"] == Str(Trim(Prop(item, "thumbnail").value.s))
  {
    if item == Null then Failure(TypeError("item.title"))
    else
      var cleaned := BaseRecord(item);
      var t := Prop(item, "thumbnail");
      if KeepThumbnail(t) then Success(Obj(AddThumbnail(cleaned, Str(Trim(t.value.s)))))
      else Success(Obj(cleaned))
  }

  /** `cleanedItem.thumbnail = ...`: one key added, the six others untouched. */
  function AddThumbnail(m: map<string, Value>, thumbnail: Value): (r: map<string, Value>)
    requires m.Keys == CleanedKeys
    ensures r.Keys == ReadKeys && r["thumbnail"] == thumbnail
    ensures forall k :: k in CleanedKeys ==> r[k] == m[k]
  {
    assert "thumbnail" !in CleanedKeys;
    m["thumbnail" := thumbnail]
  }

  /** The `if (data.items)` block: a falsy `items` leaves `data` as it is; a truthy one is
      replaced by its cleaned items, every other key kept. */
  function CleanData(data: Value): (r: Result<Value, TypeError>)
    ensures r.Failure? <==>
      || data == Null
      || (TruthyOpt(Prop(data, "items")) &&
          (!Prop(data, "items").value.Arr? || ArrayMap(CleanItem, Prop(data, "items").value.elems).Failure?))
    ensures data != Null && !TruthyOpt(Prop(data, "items")) ==> r == Success(data)
    ensures r.Success? && data != Null && TruthyOpt(Prop(data, "items")) ==>
      && data.Obj? && data.fields["items"].Arr? && r.value.Obj?
      && r.value.fields.Keys == data.fields.Keys
      && (forall k :: k in data.fields && k != "items" ==> r.value.fields[k] == data.fields[k])
      && r.value.fields["items"].Arr?
      && ArrayMap(CleanItem, data.fields["items"].elems) == Success(r.value.fields["items"].elems)
  {
    if data == Null then Failure(TypeError("data.items"))
    else
      var items := Prop(data, "items");
      if !TruthyOpt(items) then Success(data)
      else if !items.value.Arr? then Failure(TypeError("data.items.map"))
      else
        assert data.Obj? && items.value == data.fields["items"];
        var mapped := ArrayMap(CleanItem, items.value.elems);
        if mapped.Failure? then Failure(mapped.error)
        else Success(Obj(data.fields["items" := Arr(mapped.value)]))
  }

  /** The handler's outcome for one upstream result. A 200 carries the parsed response and only
      happens when the cleaned data is valid and its status is "ok"; every failure is the same
      500 body, which carries what was thrown. */
  function Respond(isUrl: string -> bool, upstream: Upstream): (r: Response)
    ensures r.ServerError? ==> r.status == 500 && r.message == FailureMessage
    ensures upstream.Unreachable? ==> r == Fail(FetchFailed)
    ensures upstream.HttpNotOk? ==> r == Fail(HttpError(upstream.code))
    ensures upstream.NotJson? ==> r == Fail(BodyNotJson)
    ensures upstream.Parsed? && CleanData(upstream.data).Failure? ==>
      r == Fail(Script(CleanData(upstream.data).error))
    ensures upstream.Parsed? && CleanData(upstream.data).Success? ==>
      var cleaned := CleanData(upstream.data).value;
      && (!ValidResponse(isUrl, cleaned) ==> r == Fail(ValidationFailed(ResponseIssues(isUrl, cleaned))))
      && (ValidResponse(isUrl, cleaned) && cleaned.fields["status"].s != "ok" ==> r == Fail(FeedNotOk))
    ensures r.Ok? <==>
      && upstream.Parsed?
      && CleanData(upstream.data).Success?
      && ValidResponse(isUrl, CleanData(upstream.data).value)
      && CleanData(upstream.data).value.fields["status"].s == "ok"
    ensures r.Ok? ==>
      && r.body.status == "ok"
      && ResponseJson(r.body) == StripResponse(isUrl, CleanData(upstream.data).value)
  {
    match upstream
    case Unreachable => Fail(FetchFailed)
    case HttpNotOk(code) => Fail(HttpError(code))
    case NotJson => Fail(BodyNotJson)
    case Parsed(data) =>
      match CleanData(data)
      case Failure(e) => Fail(Script(e))
      case Success(cleaned) =>
        match SafeParse(isUrl, cleaned)
        case Failure(issues) => Fail(ValidationFailed(issues))
        case Success(result) =>
          if result.status != "ok" then Fail(FeedNotOk) else Ok(result)
  }

  /** The handler body as the source runs it: `data.items` is overwritten with the cleaned items
      (one item per step), then the object is validated and its status checked. */
  method HandleRss(isUrl: string -> bool, upstream: Upstream) returns (resp: Response)
    ensures resp == Respond(isUrl, upstream)
  {
    if upstream.Unreachable? { return Fail(FetchFailed); }
    if upstream.HttpNotOk? { return Fail(HttpError(upstream.code)); }
    if upstream.NotJson? { return Fail(BodyNotJson); }
    var data := upstream.data;
    if data == Null { return Fail(Script(TypeError("data.items"))); }
    var items := Prop(data, "items");
    if TruthyOpt(items) {
      if !items.value.Arr? { return Fail(Script(TypeError("data.items.map"))); }
      var cleaned := CleanItems(items.value.elems);
      if cleaned.Failure? { return Fail(Script(cleaned.error)); }
      data := Obj(data.fields["items" := Arr(cleaned.value)]);
    }
    var validated := SafeParse(isUrl, data);
    if validated.Failure? { return Fail(ValidationFailed(validated.error)); }
    var result := validated.value;
    if result.status != "ok" { return Fail(FeedNotOk); }
    return Ok(result);
  }

  /** `data.items.map(...)` as a loop over the items: the cleaned items in order, or the first
      error thrown. */
  method CleanItems(raw: seq<Value>) returns (r: Result<seq<Value>, TypeError>)
    ensures r == ArrayMap(CleanItem, raw)
  {
    var cleaned: seq<Value> := [];
    var i := 0;
    while i < |raw|
      invariant 0 <= i <= |raw|
      invariant ArrayMap(CleanItem, raw[..i]) == Success(cleaned)
    {
      var c := CleanItem(raw[i]);
      ArrayMapStep(CleanItem, raw, i, cleaned);
      if c.Failure? {
        return Failure(c.error);
      }
      cleaned := cleaned + [c.value];
      i := i + 1;
    }
    assert raw[..|raw|] == raw;
    return Success(cleaned);
  }

  /** The four-part thumbnail test comes down to one: a string that starts with "http" (such a
      string is non-empty and not blank). What is stored is its trimmed form, which still starts
      with "http". */
  lemma ThumbnailKeptIff(t: Option<Value>)
    ensures KeepThumbnail(t) <==> t.Some? && t.value.Str? && StartsWith(t.value.s, "http")
    ensures KeepThumbnail(t) ==> StartsWith(Trim(t.value.s), "http")
  {
    if t.Some? && t.value.Str? && StartsWith(t.value.s, "http") {
      var s := t.value.s;
      assert !IsSpace('h') && !IsSpace('p');
      TrimKeepsPrefix(s, "http");
      var r := Trim(s);
      assert |r| >= 4;
      assert r != "" && s != [];
      assert TruthyOpt(t);
    } else {
      assert !KeepThumbnail(t);
    }
  }

  /** A value with leading white space before "http" is dropped, not trimmed and kept. */
  lemma LeadingSpaceThumbnailDropped()
    ensures !KeepThumbnail(Some(Str(" http://x")))
    ensures CleanItem(Obj(map["thumbnail" := Str(" http://x")])).value.fields.Keys == CleanedKeys
  {
    var raw := " http://x";
    assert raw[..4][0] == ' ';
    assert !StartsWith(raw, "http");
    var item := Obj(map["thumbnail" := Str(raw)]);
    assert Prop(item, "thumbnail") == Some(Str(raw));
  }

  /** When every key the cleaning reads is absent, falsy or a string, the cleaned item has only
      string fields, so `blogPostSchema` can reject it only through the URL check on `link`. */
  lemma CleanedItemFailsOnlyOnLink(isUrl: string -> bool, item: Value, path: seq<Seg>)
    requires item != Null
    requires forall k :: k in ReadKeys ==> !TruthyOpt(Prop(item, k)) || Prop(item, k).value.Str?
    ensures CleanItem(item).Success?
    ensures var c := CleanItem(item).value;
      && c.fields["link"].Str?
      && (ValidPost(isUrl, c) <==> isUrl(c.fields["link"].s))
      && PostIssues(isUrl, path, c) ==
           if isUrl(c.fields["link"].s) then [] else [InvalidUrl(path + [Key("link")])]
  {
    CleanedItemIsStrings(item);
    StringRecordIssues(isUrl, path, CleanItem(item).value);
  }

  /** Under the same condition every field of the cleaned item is a string. */
  lemma CleanedItemIsStrings(item: Value)
    requires item != Null
    requires forall k :: k in ReadKeys ==> !TruthyOpt(Prop(item, k)) || Prop(item, k).value.Str?
    ensures CleanItem(item).Success?
    ensures var c := CleanItem(item).value;
      && CleanedKeys <= c.fields.Keys
      && forall k :: k in c.fields ==> c.fields[k].Str?
  {
    var m := BaseRecord(item);
    BaseRecordIsStrings(item);
    var t := Prop(item, "thumbnail");
    if KeepThumbnail(t) {
      var r := AddThumbnail(m, Str(Trim(t.value.s)));
      assert CleanItem(item) == Success(Obj(r));
      forall k | k in r ensures r[k].Str? {
        if k != "thumbnail" {
          assert k in CleanedKeys;
        }
      }
    } else {
      assert CleanItem(item) == Success(Obj(m));
    }
  }

  /** The record before the thumbnail test has only string fields. */
  lemma BaseRecordIsStrings(item: Value)
    requires item != Null
    requires forall k :: k in ReadKeys ==> !TruthyOpt(Prop(item, k)) || Prop(item, k).value.Str?
    ensures forall k :: k in BaseRecord(item) ==> BaseRecord(item)[k].Str?
  {
    var m := BaseRecord(item);
    forall k | k in m ensures m[k].Str? {
      assert k in ReadKeys;
      if k in DefaultedKeys {
        assert DefaultedFrom(Obj(m), item, k);
      } else {
        assert k == "guid" && "link" in ReadKeys;
      }
    }
  }

  /** A record with the six keys every cleaned item has, all of whose fields are strings, fails
      `blogPostSchema` at most through the URL check on `link`. */
  lemma StringRecordIssues(isUrl: string -> bool, path: seq<Seg>, c: Value)
    requires c.Obj? && CleanedKeys <= c.fields.Keys
    requires forall k :: k in c.fields ==> c.fields[k].Str?
    ensures c.fields["link"].Str?
    ensures ValidPost(isUrl, c) <==> isUrl(c.fields["link"].s)
    ensures PostIssues(isUrl, path, c) ==
      if isUrl(c.fields["link"].s) then [] else [InvalidUrl(path + [Key("link")])]
  {
    assert "title" in c.fields && "link" in c.fields && "pubDate" in c.fields && "guid" in c.fields;
  }

  /** A well-formed envelope whose status is not "ok" is refused after validation. */
  lemma NotOkEnvelopeRefused(isUrl: string -> bool, data: Value)
    requires CleanData(data).Success? && ValidResponse(isUrl, CleanData(data).value)
    requires CleanData(data).value.fields["status"].s != "ok"
    ensures Respond(isUrl, Parsed(data)) == Fail(FeedNotOk)
  {
  }
}
