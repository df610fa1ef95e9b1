/** The shared zod schemas, `blogPostSchema` and `rssResponseSchema`: which JSON values are a
    valid feed response, the issues zod reports for one that is not, and the typed value a
    successful parse returns. zod's `.url()` check is the parameter `isUrl`. */
module Schema {
  import opened Wrappers
  import opened JsValues

  /** The type names zod reports; `Undefined` is an absent key. */
  datatype Kind = Undefined | KNull | KBoolean | KNumber | KString | KArray | KObject | KFunction

  function KindOf(o: Option<Value>): Kind {
    match o
    case None => Undefined
    case Some(v) =>
      match v
      case Null => KNull
      case Bool(_) => KBoolean
      case Num(_) => KNumber
      case Str(_) => KString
      case Arr(_) => KArray
      case Obj(_) => KObject
      case BuiltinFn => KFunction
  }

  /** One step of an issue's path: an object key or an array index. */
  datatype Seg = Key(name: string) | Index(i: nat)

  /** One zod issue: a value of the wrong type (a missing required key is one, received
      `Undefined`), or a string that fails the URL check. */
  datatype Issue =
    | InvalidType(path: seq<Seg>, expected: Kind, received: Kind)
    | InvalidUrl(path: seq<Seg>)
  {
    function Path(): seq<Seg> {
      match this
      case InvalidType(p, _, _) => p
      case InvalidUrl(p) => p
    }

    /** The issue is about `prefix` or something inside it. */
    predicate Under(prefix: seq<Seg>) {
      |prefix| <= |Path()| && Path()[..|prefix|] == prefix
    }
  }

  /** `BlogPost`, the type inferred from `blogPostSchema`. */
  datatype Post = Post(
    title: string, link: string, pubDate: string,
    description: Option<string>, content: Option<string>, thumbnail: Option<string>,
    guid: string)

  datatype Feed = Feed(title: string, description: string, link: string)

  /** `RSSResponse`, the type inferred from `rssResponseSchema`. */
  datatype RssResponse = RssResponse(status: string, feed: Feed, items: seq<Post>)

  const PostKeys: set<string> :=
    {"title", "link", "pubDate", "description", "content", "thumbnail", "guid"}
  const FeedKeys: set<string> := {"title", "description", "link"}

  /** `z.string()` */
  predicate IsStr(o: Option<Value>) {
    o.Some? && o.value.Str?
  }

  /** `z.string().optional()`: absent, or a string (a `null` is neither). */
  predicate IsOptStr(o: Option<Value>) {
    o.None? || o.value.Str?
  }

  /** `blogPostSchema` accepts `v`. */
  predicate ValidPost(isUrl: string -> bool, v: Value) {
    && v.Obj?
    && IsStr(Prop(v, "title"))
    && IsStr(Prop(v, "link")) && isUrl(Prop(v, "link").value.s)
    && IsStr(Prop(v, "pubDate"))
    && IsOptStr(Prop(v, "description"))
    && IsOptStr(Prop(v, "content"))
    && IsOptStr(Prop(v, "thumbnail"))
    && IsStr(Prop(v, "guid"))
  }

  /** The nested `feed` object schema: three strings, `link` with no URL check. */
  predicate ValidFeed(o: Option<Value>) {
    && o.Some? && o.value.Obj?
    && IsStr(Prop(o.value, "title"))
    && IsStr(Prop(o.value, "description"))
    && IsStr(Prop(o.value, "link"))
  }

  /** `z.array(blogPostSchema)`: an array every element of which is a valid post. */
  predicate ValidItems(isUrl: string -> bool, o: Option<Value>) {
    && o.Some? && o.value.Arr?
    && forall i :: 0 <= i < |o.value.elems| ==> ValidPost(isUrl, o.value.elems[i])
  }

  /** `rssResponseSchema` accepts `v`. */
  predicate ValidResponse(isUrl: string -> bool, v: Value) {
    && v.Obj?
    && IsStr(Prop(v, "status"))
    && ValidFeed(Prop(v, "feed"))
    && ValidItems(isUrl, Prop(v, "items"))
  }

  /* ---------------- The issues zod collects, in schema order ---------------- */

  function StringIssues(path: seq<Seg>, o: Option<Value>): (r: seq<Issue>)
    ensures r == [] <==> IsStr(o)
    ensures |r| <= 1 && forall k :: 0 <= k < |r| ==> r[k].Path() == path
  {
    if IsStr(o) then [] else [InvalidType(path, KString, KindOf(o))]
  }

  function OptStringIssues(path: seq<Seg>, o: Option<Value>): (r: seq<Issue>)
    ensures r == [] <==> IsOptStr(o)
    ensures |r| <= 1 && forall k :: 0 <= k < |r| ==> r[k].Path() == path
  {
    if IsOptStr(o) then [] else [InvalidType(path, KString, KindOf(o))]
  }

  /** `z.string().url()`: the URL check runs only on a string. */
  function UrlIssues(isUrl: string -> bool, path: seq<Seg>, o: Option<Value>): (r: seq<Issue>)
    ensures r == [] <==> IsStr(o) && isUrl(o.value.s)
    ensures |r| <= 1 && forall k :: 0 <= k < |r| ==> r[k].Path() == path
  {
    if !IsStr(o) then [InvalidType(path, KString, KindOf(o))]
    else if isUrl(o.value.s) then []
    else [InvalidUrl(path)]
  }

  function PostIssues(isUrl: string -> bool, path: seq<Seg>, v: Value): (r: seq<Issue>)
    ensures r == [] <==> ValidPost(isUrl, v)
    ensures AllUnder(r, path)
  {
    if !v.Obj? then
      var r := [InvalidType(path, KObject, KindOf(Some(v)))];
      assert r[0].Under(path) by { assert path[..|path|] == path; }
      r
    else
      var title := StringIssues(path + [Key("title")], Prop(v, "title"));
      var link := UrlIssues(isUrl, path + [Key("link")], Prop(v, "link"));
      var pubDate := StringIssues(path + [Key("pubDate")], Prop(v, "pubDate"));
      var description := OptStringIssues(path + [Key("description")], Prop(v, "description"));
      var content := OptStringIssues(path + [Key("content")], Prop(v, "content"));
      var thumbnail := OptStringIssues(path + [Key("thumbnail")], Prop(v, "thumbnail"));
      var guid := StringIssues(path + [Key("guid")], Prop(v, "guid"));
      FieldIssuesUnder(title, path, Key("title"));
      FieldIssuesUnder(link, path, Key("link"));
      FieldIssuesUnder(pubDate, path, Key("pubDate"));
      FieldIssuesUnder(description, path, Key("description"));
      FieldIssuesUnder(content, path, Key("content"));
      FieldIssuesUnder(thumbnail, path, Key("thumbnail"));
      FieldIssuesUnder(guid, path, Key("guid"));
      var r := title + link + pubDate + description + content + thumbnail + guid;
      AllUnderConcat(title, link, path);
      AllUnderConcat(title + link, pubDate, path);
      AllUnderConcat(title + link + pubDate, description, path);
      AllUnderConcat(title + link + pubDate + description, content, path);
      AllUnderConcat(title + link + pubDate + description + content, thumbnail, path);
      AllUnderConcat(title + link + pubDate + description + content + thumbnail, guid, path);
      r
  }

  /** Every issue in the list lies under `prefix`. */
  predicate AllUnder(issues: seq<Issue>, prefix: seq<Seg>) {
    forall k :: 0 <= k < |issues| ==> issues[k].Under(prefix)
  }

  lemma AllUnderConcat(a: seq<Issue>, b: seq<Issue>, prefix: seq<Seg>)
    requires AllUnder(a, prefix) && AllUnder(b, prefix)
    ensures AllUnder(a + b, prefix)
  {
    forall k | 0 <= k < |a + b| ensures (a + b)[k].Under(prefix) {
      if k < |a| { assert (a + b)[k] == a[k]; } else { assert (a + b)[k] == b[k - |a|]; }
    }
  }

  /** Issues reported at a field's own path lie under the object's path. */
  lemma FieldIssuesUnder(issues: seq<Issue>, prefix: seq<Seg>, seg: Seg)
    requires forall k :: 0 <= k < |issues| ==> issues[k].Path() == prefix + [seg]
    ensures AllUnder(issues, prefix)
  {
    assert (prefix + [seg])[..|prefix|] == prefix;
  }

  /** The issues of the elements of an array, element `i` reported under `path + [Index(i)]`. */
  function ElemsIssues(isUrl: string -> bool, path: seq<Seg>, es: seq<Value>): (r: seq<Issue>)
    ensures r == [] <==> forall i :: 0 <= i < |es| ==> ValidPost(isUrl, es[i])
    ensures AllUnder(r, path)
    decreases |es|
  {
    if es == [] then []
    else
      var n := |es| - 1;
      var front := ElemsIssues(isUrl, path, es[..n]);
      var last := PostIssues(isUrl, path + [Index(n)], es[n]);
      AllValidSplit(isUrl, es, n);
      assert front + last == [] <==> front == [] && last == [];
      AllUnderShorter(last, path, Index(n));
      AllUnderConcat(front, last, path);
      front + last
  }

  /** Issues under `prefix + [seg]` lie under `prefix`. */
  lemma AllUnderShorter(issues: seq<Issue>, prefix: seq<Seg>, seg: Seg)
    requires AllUnder(issues, prefix + [seg])
    ensures AllUnder(issues, prefix)
  {
    forall k | 0 <= k < |issues| ensures issues[k].Under(prefix) {
      var p := issues[k].Path();
      assert p[..|prefix| + 1] == prefix + [seg];
      assert p[..|prefix|] == p[..|prefix| + 1][..|prefix|];
    }
  }

  /** Every element is a valid post exactly when every element but the last is and the last
      is too. */
  lemma AllValidSplit(isUrl: string -> bool, es: seq<Value>, n: nat)
    requires n + 1 == |es|
    ensures (forall i :: 0 <= i < |es| ==> ValidPost(isUrl, es[i])) <==>
      (forall i :: 0 <= i < n ==> ValidPost(isUrl, es[..n][i])) && ValidPost(isUrl, es[n])
  {
    assert forall i :: 0 <= i < n ==> es[..n][i] == es[i];
  }

  function FeedIssues(path: seq<Seg>, o: Option<Value>): (r: seq<Issue>)
    ensures r == [] <==> ValidFeed(o)
    ensures AllUnder(r, path)
  {
    if !(o.Some? && o.value.Obj?) then
      var r := [InvalidType(path, KObject, KindOf(o))];
      assert r[0].Under(path) by { assert path[..|path|] == path; }
      r
    else
      var title := StringIssues(path + [Key("title")], Prop(o.value, "title"));
      var description := StringIssues(path + [Key("description")], Prop(o.value, "description"));
      var link := StringIssues(path + [Key("link")], Prop(o.value, "link"));
      FieldIssuesUnder(title, path, Key("title"));
      FieldIssuesUnder(description, path, Key("description"));
      FieldIssuesUnder(link, path, Key("link"));
      AllUnderConcat(title, description, path);
      AllUnderConcat(title + description, link, path);
      title + description + link
  }

  function ItemsIssues(isUrl: string -> bool, path: seq<Seg>, o: Option<Value>): (r: seq<Issue>)
    ensures r == [] <==> ValidItems(isUrl, o)
    ensures AllUnder(r, path)
  {
    if !(o.Some? && o.value.Arr?) then
      var r := [InvalidType(path, KArray, KindOf(o))];
      assert r[0].Under(path) by { assert path[..|path|] == path; }
      r
    else ElemsIssues(isUrl, path, o.value.elems)
  }

  /** Everything `rssResponseSchema.safeParse` reports about `v`; empty exactly when `v` is
      valid. A non-object is one issue at the root; otherwise every issue lies under `status`,
      `feed` or `items`, in that order. */
  function ResponseIssues(isUrl: string -> bool, v: Value): (r: seq<Issue>)
    ensures r == [] <==> ValidResponse(isUrl, v)
    ensures !v.Obj? ==> r == [InvalidType([], KObject, KindOf(Some(v)))]
    ensures v.Obj? ==>
      exists i, j :: && 0 <= i <= j <= |r|
                     && AllUnder(r[..i], [Key("status")])
                     && AllUnder(r[i..j], [Key("feed")])
                     && AllUnder(r[j..], [Key("items")])
  {
    if !v.Obj? then [InvalidType([], KObject, KindOf(Some(v)))]
    else
      var status := StringIssues([Key("status")], Prop(v, "status"));
      var feed := FeedIssues([Key("feed")], Prop(v, "feed"));
      var items := ItemsIssues(isUrl, [Key("items")], Prop(v, "items"));
      FieldIssuesUnder(status, [], Key("status"));
      ThreePartsUnder(status, feed, items);
      status + feed + items
  }

  /** The concatenation of three issue lists splits back into them. */
  lemma ThreePartsUnder(status: seq<Issue>, feed: seq<Issue>, items: seq<Issue>)
    requires AllUnder(status, [Key("status")]) && AllUnder(feed, [Key("feed")])
    requires AllUnder(items, [Key("items")])
    ensures var r := status + feed + items; var i := |status|; var j := |status| + |feed|;
      AllUnder(r[..i], [Key("status")]) && AllUnder(r[i..j], [Key("feed")]) && AllUnder(r[j..], [Key("items")])
  {
    var r := status + feed + items;
    assert r[..|status|] == status;
    assert r[|status|..|status| + |feed|] == feed;
    assert r[|status| + |feed|..] == items;
  }

  /** A `feed` object without a `title` is reported as a missing string at `feed.title`. */
  lemma FeedTitleMissingReported(isUrl: string -> bool, v: Value)
    requires v.Obj? && "feed" in v.fields && v.fields["feed"].Obj? && "title" !in v.fields["feed"].fields
    ensures InvalidType([Key("feed"), Key("title")], KString, Undefined) in ResponseIssues(isUrl, v)
  {
    var status := StringIssues([Key("status")], Prop(v, "status"));
    var feed := FeedIssues([Key("feed")], Prop(v, "feed"));
    var items := ItemsIssues(isUrl, [Key("items")], Prop(v, "items"));
    assert feed[0] == InvalidType([Key("feed"), Key("title")], KString, Undefined);
    assert ResponseIssues(isUrl, v) == status + feed + items;
    assert (status + feed + items)[|status|] == feed[0];
  }

  /* ---------------- Parsed output and the JSON it stands for ---------------- */

  function OptStr(o: Option<Value>): (r: Option<string>)
    requires IsOptStr(o)
  {
    if o.None? then None else Some(o.value.s)
  }

  /** The object keys restricted to `keys`: zod's output drops every key its schema does not
      name. */
  function Restrict(v: Value, keys: set<string>): (r: Value)
    requires v.Obj?
    ensures r.Obj? && r.fields.Keys == v.fields.Keys * keys
    ensures forall k :: k in r.fields ==> r.fields[k] == v.fields[k]
  {
    Obj(map k | k in v.fields && k in keys :: v.fields[k])
  }

  function PostOf(isUrl: string -> bool, v: Value): (p: Post)
    requires ValidPost(isUrl, v)
    ensures PostJson(p) == Restrict(v, PostKeys)
  {
    var p := Post(
      Prop(v, "title").value.s, Prop(v, "link").value.s, Prop(v, "pubDate").value.s,
      OptStr(Prop(v, "description")), OptStr(Prop(v, "content")),
      OptStr(Prop(v, "thumbnail")), Prop(v, "guid").value.s);
    assert PostJson(p).fields == Restrict(v, PostKeys).fields;
    p
  }

  function FeedOf(o: Option<Value>): (f: Feed)
    requires ValidFeed(o)
    ensures FeedJson(f) == Restrict(o.value, FeedKeys)
  {
    var f := Feed(
      Prop(o.value, "title").value.s, Prop(o.value, "description").value.s,
      Prop(o.value, "link").value.s);
    assert FeedJson(f).fields == Restrict(o.value, FeedKeys).fields;
    f
  }

  function OptionalEntry(m: map<string, Value>, key: string, o: Option<string>): map<string, Value> {
    if o.Some? then m[key := Str(o.value)] else m
  }

  /** A typed post as the JSON object it is sent as (an absent optional is an absent key). */
  function PostJson(p: Post): (v: Value)
    ensures v.Obj? && v.fields.Keys <= PostKeys
  {
    var m := map["title" := Str(p.title), "link" := Str(p.link), "pubDate" := Str(p.pubDate),
                 "guid" := Str(p.guid)];
    Obj(OptionalEntry(OptionalEntry(OptionalEntry(m, "description", p.description),
                                    "content", p.content), "thumbnail", p.thumbnail))
  }

  function FeedJson(f: Feed): Value {
    Obj(map["title" := Str(f.title), "description" := Str(f.description), "link" := Str(f.link)])
  }

  function ResponseJson(r: RssResponse): Value {
    Obj(map["status" := Str(r.status), "feed" := FeedJson(r.feed),
            "items" := Arr(seq(|r.items|, i requires 0 <= i < |r.items| => PostJson(r.items[i])))])
  }

  /** What a successful parse of `v` outputs, as JSON: the schema's keys only, at every level. */
  function StripResponse(isUrl: string -> bool, v: Value): (r: Value)
    requires ValidResponse(isUrl, v)
    ensures r.Obj? && r.fields.Keys == {"status", "feed", "items"}
    ensures r.fields["status"] == v.fields["status"]
    ensures r.fields["feed"] == Restrict(v.fields["feed"], FeedKeys) && r.fields["feed"].fields.Keys == FeedKeys
    ensures r.fields["items"].Arr? && |r.fields["items"].elems| == |v.fields["items"].elems|
    ensures forall i :: 0 <= i < |r.fields["items"].elems| ==>
      r.fields["items"].elems[i] == Restrict(v.fields["items"].elems[i], PostKeys)
  {
    var es := v.fields["items"].elems;
    Obj(map["status" := v.fields["status"],
            "feed" := Restrict(v.fields["feed"], FeedKeys),
            "items" := Arr(seq(|es|, i requires 0 <= i < |es| => Restrict(es[i], PostKeys)))])
  }

  function ResponseOf(isUrl: string -> bool, v: Value): (r: RssResponse)
    requires ValidResponse(isUrl, v)
    ensures ResponseJson(r) == StripResponse(isUrl, v)
  {
    var es := v.fields["items"].elems;
    var items := seq(|es|, i requires 0 <= i < |es| => PostOf(isUrl, es[i]));
    var r := RssResponse(v.fields["status"].s, FeedOf(Prop(v, "feed")), items);
    assert ResponseJson(r).fields["items"] == StripResponse(isUrl, v).fields["items"];
    assert ResponseJson(r).fields == StripResponse(isUrl, v).fields;
    r
  }

  /** `rssResponseSchema.safeParse(v)`: the typed response, exactly when `v` is valid, made of
      `v`'s schema keys; otherwise the (non-empty) issue list. */
  function SafeParse(isUrl: string -> bool, v: Value): (r: Result<RssResponse, seq<Issue>>)
    ensures r.Success? <==> ValidResponse(isUrl, v)
    ensures r.Success? ==> ResponseJson(r.value) == StripResponse(isUrl, v)
    ensures r.Failure? ==> r.error == ResponseIssues(isUrl, v) && r.error != []
  {
    var issues := ResponseIssues(isUrl, v);
    if issues == [] then Success(ResponseOf(isUrl, v)) else Failure(issues)
  }

  /** Every typed response whose post links pass the URL check is sent as JSON that parses back
      to itself. */
  lemma ParseResponseJson(isUrl: string -> bool, r: RssResponse)
    requires forall i :: 0 <= i < |r.items| ==> isUrl(r.items[i].link)
    ensures SafeParse(isUrl, ResponseJson(r)) == Success(r)
  {
    ResponseJsonValid(isUrl, r);
  }

  /** The JSON of such a response is valid and reads back as the same response. */
  lemma ResponseJsonValid(isUrl: string -> bool, r: RssResponse)
    requires forall i :: 0 <= i < |r.items| ==> isUrl(r.items[i].link)
    ensures ValidResponse(isUrl, ResponseJson(r)) && ResponseOf(isUrl, ResponseJson(r)) == r
  {
    var v := ResponseJson(r);
    var es := v.fields["items"].elems;
    forall i | 0 <= i < |es|
      ensures ValidPost(isUrl, es[i]) && PostOf(isUrl, es[i]) == r.items[i]
    {
      PostJsonParses(isUrl, r.items[i]);
    }
    assert ValidResponse(isUrl, v);
    var parsed := ResponseOf(isUrl, v);
    assert parsed.items == r.items;
    assert parsed.feed == r.feed && parsed.status == r.status;
  }

  lemma PostJsonParses(isUrl: string -> bool, p: Post)
    requires isUrl(p.link)
    ensures ValidPost(isUrl, PostJson(p)) && PostOf(isUrl, PostJson(p)) == p
  {
    var v := PostJson(p);
    assert Prop(v, "title") == Some(Str(p.title)) && Prop(v, "link") == Some(Str(p.link));
    assert Prop(v, "pubDate") == Some(Str(p.pubDate)) && Prop(v, "guid") == Some(Str(p.guid));
    assert OptStr(Prop(v, "description")) == p.description;
    assert OptStr(Prop(v, "content")) == p.content;
    assert OptStr(Prop(v, "thumbnail")) == p.thumbnail;
  }

  /** The feed's `link` carries no URL check, unlike a post's: any string there keeps a valid
      response valid, while a post whose link fails the check is invalid. */
  lemma FeedLinkIsAnyString(isUrl: string -> bool, v: Value, link: string)
    requires ValidResponse(isUrl, v)
    ensures var feed := v.fields["feed"];
            ValidResponse(isUrl, Obj(v.fields["feed" := Obj(feed.fields["link" := Str(link)])]))
  {
  }

  lemma PostLinkMustBeUrl(isUrl: string -> bool, v: Value, link: string)
    requires v.Obj? && !isUrl(link)
    ensures !ValidPost(isUrl, Obj(v.fields["link" := Str(link)]))
  {
  }

  /** `z.array` is all-or-nothing: one invalid element makes the whole response invalid, and its
      issues appear in the report under `items` and its index. */
  lemma {:induction false} InvalidItemReported(isUrl: string -> bool, path: seq<Seg>, es: seq<Value>, i: nat)
    requires i < |es| && !ValidPost(isUrl, es[i])
    ensures SomeUnder(ElemsIssues(isUrl, path, es), path + [Index(i)])
    decreases |es|
  {
    var n := |es| - 1;
    var front := ElemsIssues(isUrl, path, es[..n]);
    var last := PostIssues(isUrl, path + [Index(n)], es[n]);
    assert ElemsIssues(isUrl, path, es) == front + last;
    if i == n {
      assert last[0].Under(path + [Index(n)]);
      SomeUnderConcat(front, last, path + [Index(i)]);
    } else {
      assert es[..n][i] == es[i];
      InvalidItemReported(isUrl, path, es[..n], i);
      SomeUnderConcat(front, last, path + [Index(i)]);
    }
  }

  /** Some issue of the list is about `prefix` or something inside it. */
  predicate SomeUnder(issues: seq<Issue>, prefix: seq<Seg>) {
    exists k :: 0 <= k < |issues| && issues[k].Under(prefix)
  }

  lemma SomeUnderConcat(a: seq<Issue>, b: seq<Issue>, prefix: seq<Seg>)
    requires SomeUnder(a, prefix) || SomeUnder(b, prefix)
    ensures SomeUnder(a + b, prefix)
  {
    if SomeUnder(a, prefix) {
      var k :| 0 <= k < |a| && a[k].Under(prefix);
      assert (a + b)[k] == a[k];
    } else {
      var k :| 0 <= k < |b| && b[k].Under(prefix);
      assert (a + b)[|a| + k] == b[k];
    }
  }
}
