/** The JavaScript values the feed pipeline handles: what `response.json()` yields, plus the one
    built-in method a property read can reach through a prototype. */
module JsValues {
  import opened Wrappers

  datatype Value =
    | Null
    | Bool(b: bool)
    | Num(n: real)
    | Str(s: string)
    | Arr(elems: seq<Value>)
    | Obj(fields: map<string, Value>)
      /** A built-in function, such as `String.prototype.link`, read as a property of a string. */
    | BuiltinFn

  /** JavaScript truthiness: `null`, `false`, `0` and `""` are falsy (NaN and `undefined` have no
      `Value`; an absent property is `None`, see `TruthyOpt`). */
  predicate Truthy(v: Value) {
    match v
    case Null => false
    case Bool(b) => b
    case Num(n) => n != 0.0
    case Str(s) => s != []
    case _ => true
  }

  /** Truthiness of a property read: an absent property is `undefined`, which is falsy. */
  predicate TruthyOpt(o: Option<Value>) {
    o.Some? && Truthy(o.value)
  }

  /** `a || b`, where `a` is a property read that may be `undefined`. */
  function Or(a: Option<Value>, b: Value): (r: Value)
    ensures TruthyOpt(a) ==> r == a.value
    ensures !TruthyOpt(a) ==> r == b
  {
    if TruthyOpt(a) then a.value else b
  }

  /** Property read `v.key` on a non-null value; `None` stands for `undefined`. A JSON object
      yields its own field. Among the keys this pipeline reads (items, title, link, pubDate,
      description, content, guid, thumbnail, enclosure, status, statusCode, message), the only
      one any prototype supplies is `link` on strings: `String.prototype.link`. */
  function Prop(v: Value, key: string): (r: Option<Value>)
    requires v != Null
    ensures v.Obj? ==> (r.Some? <==> key in v.fields)
    ensures v.Obj? && key in v.fields ==> r == Some(v.fields[key])
    ensures v.Str? && key == "link" ==> r == Some(BuiltinFn)
    ensures r.Some? && !v.Obj? ==> v.Str? && key == "link" && r.value == BuiltinFn
  {
    match v
    case Obj(f) => if key in f then Some(f[key]) else None
    case Str(_) => if key == "link" then Some(BuiltinFn) else None
    case _ => None
  }

  /** The `TypeError` a script throws (reading a property of `null`, calling a non-function).
      `what` names the failing expression; the engine's exact wording is not modelled. */
  datatype TypeError = TypeError(what: string)

  /** `Array.prototype.map` with a callback that may throw: the callback runs on each element
      left to right, and the first element it throws on aborts the map with that error. */
  function ArrayMap(f: Value -> Result<Value, TypeError>, xs: seq<Value>): (r: Result<seq<Value>, TypeError>)
    ensures r.Success? <==> forall i :: 0 <= i < |xs| ==> f(xs[i]).Success?
    ensures r.Success? ==> |r.value| == |xs|
    ensures r.Success? ==> forall i :: 0 <= i < |xs| ==> r.value[i] == f(xs[i]).value
    ensures r.Failure? ==> exists i :: 0 <= i < |xs| && f(xs[i]) == Failure(r.error)
    decreases |xs|
  {
    if xs == [] then Success([])
    else
      var n := |xs| - 1;
      assert forall i :: 0 <= i < n ==> xs[..n][i] == xs[i];
      match ArrayMap(f, xs[..n])
      case Failure(e) => Failure(e)
      case Success(front) =>
        match f(xs[n])
        case Failure(e) => Failure(e)
        case Success(y) => Success(front + [y])
  }

  /** Mapping one element more, once the prefix has mapped: the callback's result is appended,
      or its error is the error of mapping the whole array. */
  lemma ArrayMapStep(f: Value -> Result<Value, TypeError>, xs: seq<Value>, i: nat, done: seq<Value>)
    requires i < |xs| && ArrayMap(f, xs[..i]) == Success(done)
    ensures f(xs[i]).Success? ==> ArrayMap(f, xs[..i + 1]) == Success(done + [f(xs[i]).value])
    ensures f(xs[i]).Failure? ==> ArrayMap(f, xs) == Failure(f(xs[i]).error)
  {
    assert xs[..i + 1][..i] == xs[..i];
    if f(xs[i]).Failure? {
      ArrayMapFailureSticks(f, xs, i + 1);
    }
  }

  /** Once the map of a prefix throws, the map of the whole array throws the same error. */
  lemma {:induction false} ArrayMapFailureSticks(f: Value -> Result<Value, TypeError>, xs: seq<Value>, j: nat)
    requires j <= |xs| && ArrayMap(f, xs[..j]).Failure?
    ensures ArrayMap(f, xs) == ArrayMap(f, xs[..j])
    decreases |xs| - j
  {
    if j < |xs| {
      assert xs[..j + 1][..j] == xs[..j];
      ArrayMapFailureSticks(f, xs, j + 1);
    } else {
      assert xs[..j] == xs;
    }
  }
}
