/** The server entry point (dist/index.js, the bundle of server/index.ts): the request-logging
    middleware, which captures the JSON body a handler sends and writes one shortened line per
    finished `/api` request, and the error handler's status and message defaults. */
module ServerIndex {
  import opened Wrappers
  import opened JsValues
  import opened Text

  /* ---------------- The log line ---------------- */

  /** The longest line the middleware writes. */
  const MaxLogLength: nat := 80

  /** The character that marks a shortened line (U+2026, one UTF-16 unit). */
  const Ellipsis: char := '\U{2026}'

  /** `"<method> <path> <status> in <duration>ms"`, followed by `" :: <json>"` when a body was
      captured; `json` is the body's `JSON.stringify` text. */
  function LogLine(verb: string, path: string, status: int, duration: int, json: Option<string>): (r: string)
    ensures StartsWith(r, verb + " " + path + " " + IntText(status) + " in " + IntText(duration) + "ms")
    ensures json.None? ==> |r| == |verb| + |path| + |IntText(status)| + |IntText(duration)| + 8
    ensures json.Some? ==> |r| == |verb| + |path| + |IntText(status)| + |IntText(duration)| + 12 + |json.value|
    ensures json.Some? ==> r[|r| - |json.value| - 4..|r| - |json.value|] == " :: "
    ensures json.Some? ==> r[|r| - |json.value|..] == json.value
  {
    var head := verb + " " + path + " " + IntText(status) + " in " + IntText(duration) + "ms";
    if json.None? then head else head + " :: " + json.value
  }

  /** The shortening of an over-long line: at most 80 characters are kept, and a cut line ends in
      the ellipsis after the first 79 characters of the original. */
  function Shorten(line: string): (r: string)
    ensures |r| <= MaxLogLength
    ensures |line| <= MaxLogLength ==> r == line
    ensures |line| > MaxLogLength ==> |r| == MaxLogLength && r[..MaxLogLength - 1] == line[..MaxLogLength - 1]
    ensures |line| > MaxLogLength ==> r[MaxLogLength - 1] == Ellipsis
  {
    if |line| > MaxLogLength then line[..MaxLogLength - 1] + [Ellipsis] else line
  }

  /** Shortening a line twice changes nothing more. */
  lemma ShortenIdempotent(line: string)
    ensures Shorten(Shorten(line)) == Shorten(line)
  {
  }

  /** Shortening never hides a prefix of at most 79 characters: the method, path and status of
      a request stay readable whenever they fit. */
  lemma ShortenKeepsHead(line: string, head: string)
    requires StartsWith(line, head) && |head| < MaxLogLength
    ensures StartsWith(Shorten(line), head)
  {
    if |line| > MaxLogLength {
      assert Shorten(line)[..|head|] == line[..MaxLogLength - 1][..|head|];
    }
  }

  /** The line written for a finished request, if its path is logged at all: only paths that
      start with `/api`; the body part only when the captured body is truthy. */
  function LogEntry(verb: string, path: string, status: int, duration: int,
                    captured: Option<Value>, stringify: Value -> string): (r: Option<string>)
    ensures r.Some? <==> StartsWith(path, "/api")
    ensures r.Some? ==> |r.value| <= MaxLogLength
    ensures r.Some? && !TruthyOpt(captured) ==>
      r.value == Shorten(LogLine(verb, path, status, duration, None))
    ensures r.Some? && TruthyOpt(captured) ==>
      r.value == Shorten(LogLine(verb, path, status, duration, Some(stringify(captured.value))))
  {
    if !StartsWith(path, "/api") then None
    else if TruthyOpt(captured) then Some(Shorten(LogLine(verb, path, status, duration, Some(stringify(captured.value)))))
    else Some(Shorten(LogLine(verb, path, status, duration, None)))
  }

  /** A logged request's line begins with its method and path whenever those fit in 79
      characters, however long the captured body. */
  lemma LoggedLineShowsRequest(verb: string, path: string, status: int, duration: int,
                               captured: Option<Value>, stringify: Value -> string)
    requires StartsWith(path, "/api") && |verb| + 1 + |path| < MaxLogLength
    ensures StartsWith(LogEntry(verb, path, status, duration, captured, stringify).value, verb + " " + path)
  {
    var json := if TruthyOpt(captured) then Some(stringify(captured.value)) else None;
    var line := LogLine(verb, path, status, duration, json);
    LineShowsRequest(verb, path, status, duration, json);
    ShortenKeepsHead(line, verb + " " + path);
    assert LogEntry(verb, path, status, duration, captured, stringify).value == Shorten(line);
  }

  /** Before shortening, every line begins with the method and the path. */
  lemma LineShowsRequest(verb: string, path: string, status: int, duration: int, json: Option<string>)
    ensures StartsWith(LogLine(verb, path, status, duration, json), verb + " " + path)
  {
    var line := LogLine(verb, path, status, duration, json);
    var head := verb + " " + path;
    var full := head + " " + IntText(status) + " in " + IntText(duration) + "ms";
    assert full[..|head|] == head;
    assert line[..|head|] == full[..|head|];
  }

  /** The per-request state of the logging middleware: the request's method and path, the clock
      reading at its start, the JSON body captured by the wrapped `res.json`, and the lines
      written so far. */
  class RequestLog {
    const verb: string
    const path: string
    const start: int
    var captured: Option<Value>
    var written: seq<string>

    /** A request arriving at time `now`: nothing captured (`undefined`), nothing written. */
    constructor (verb: string, path: string, now: int)
      ensures this.verb == verb && this.path == path && start == now
      ensures captured == None && written == []
    {
      this.verb := verb;
      this.path := path;
      start := now;
      captured := None;
      written := [];
    }

    /** The wrapped `res.json(body)`: remembers the body (the last call wins) before the original
        method sends it. */
    method Json(body: Value)
      modifies this
      ensures captured == Some(body)
      ensures written == old(written)
    {
      captured := Some(body);
    }

    /** The `finish` listener at time `now` with the response's status code: builds the line
        step by step and writes it when the path is an `/api` path. */
    method Finish(status: int, now: int, stringify: Value -> string)
      modifies this
      ensures captured == old(captured)
      ensures StartsWith(path, "/api") ==>
        written == old(written) + [LogEntry(verb, path, status, now - start, captured, stringify).value]
      ensures !StartsWith(path, "/api") ==> written == old(written)
    {
      var duration := now - start;
      if StartsWith(path, "/api") {
        var line := verb + " " + path + " " + IntText(status) + " in " + IntText(duration) + "ms";
        ghost var json: Option<string> := None;
        if captured.Some? && Truthy(captured.value) {
          json := Some(stringify(captured.value));
          line := line + " :: " + stringify(captured.value);
        }
        assert line == LogLine(verb, path, status, duration, json);
        if |line| > 80 {
          line := line[..79] + [Ellipsis];
        }
        assert LogEntry(verb, path, status, duration, captured, stringify) == Some(line);
        written := written + [line];
      }
    }
  }

  /* ---------------- The error handler ---------------- */

  /** The reply the error handler sends: a status and the body `{ message }`. */
  datatype ErrorReply = ErrorReply(status: Value, body: Value)

  /** The default message. */
  const DefaultMessage := "Internal Server Error"

  /** `err.status || err.statusCode || 500` and `err.message || "Internal Server Error"`.
      Reading a property of `null` throws before any reply is sent. */
  function HandleError(err: Value): (r: Result<ErrorReply, TypeError>)
    ensures r.Failure? <==> err == Null
    ensures r.Success? ==> r.value.body.Obj? && r.value.body.fields.Keys == {"message"}
    ensures r.Success? ==> Truthy(r.value.status) && Truthy(r.value.body.fields["message"])
    ensures r.Success? ==>
      r.value.status == if TruthyOpt(Prop(err, "status")) then Prop(err, "status").value
                        else if TruthyOpt(Prop(err, "statusCode")) then Prop(err, "statusCode").value
                        else Num(500.0)
    ensures r.Success? ==>
      r.value.body.fields["message"] ==
        if TruthyOpt(Prop(err, "message")) then Prop(err, "message").value else Str(DefaultMessage)
  {
    if err == Null then Failure(TypeError("err.status"))
    else
      var status := Or(Prop(err, "status"), Or(Prop(err, "statusCode"), Num(500.0)));
      var message := Or(Prop(err, "message"), Str(DefaultMessage));
      Success(ErrorReply(status, Obj(map["message" := message])))
  }

  /** An error with no usable status or message, such as an empty object, gets the defaults. */
  lemma BareErrorGetsDefaults()
    ensures HandleError(Obj(map[])) == Success(ErrorReply(Num(500.0), Obj(map["message" := Str(DefaultMessage)])))
  {
  }

  /** A status of 0 or an empty message counts as missing. */
  lemma FalsyFieldsFallBack(code: Value)
    requires Truthy(code)
    ensures HandleError(Obj(map["status" := Num(0.0), "statusCode" := code, "message" := Str("")])) ==
      Success(ErrorReply(code, Obj(map["message" := Str(DefaultMessage)])))
  {
  }
}
