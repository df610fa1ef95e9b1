/** The client page (client/src/pages/home.tsx): the `queryFn` transform of the aggregator's
    JSON, the excerpt and image derivations a post card shows, and which view and sidebar
    entries the page renders. */
module Home {
  import opened Wrappers
  import opened JsValues
  import opened Text

  /* ---------------- The queryFn transform ---------------- */

  /** The own keys `{...v}` copies (for the objects the feed carries). */
  function Spread(v: Value): map<string, Value> {
    if v.Obj? then v.fields else map[]
  }

  /** The spread holds exactly the properties a read of the object finds, with their values, and
      nothing for a value that is not an object. */
  lemma SpreadCopiesOwnProperties(v: Value)
    ensures forall k :: k in Spread(v) ==> v.Obj? && Prop(v, k) == Some(Spread(v)[k])
    ensures v.Obj? ==> forall k :: Prop(v, k).Some? ==> k in Spread(v)
  {
  }

  /** `item.enclosure?.link`: `undefined` when there is no enclosure or it is `null`. */
  function EnclosureLink(item: Value): (r: Option<Value>)
    requires item != Null
    ensures var e := Prop(item, "enclosure");
      && (e.None? || e.value == Null ==> r.None?)
      && (e.Some? && e.value.Obj? ==> (r.Some? <==> "link" in e.value.fields))
      && (e.Some? && e.value.Obj? && r.Some? ==> r.value == e.value.fields["link"])
      && (e.Some? && e.value.Str? ==> r == Some(BuiltinFn))
      && (e.Some? && !e.value.Obj? && !e.value.Str? ==> r.None?)
  {
    var e := Prop(item, "enclosure");
    if e.None? || e.value == Null then None else Prop(e.value, "link")
  }

  /** `item.description?.replace(/<[^>]*>/g, '').trim() || ''`: a missing or `null` description
      is `""`; a string is stripped of tags and trimmed; any other value has no `replace`
      method, so the call throws. */
  function CleanDescription(d: Option<Value>): (r: Result<Value, TypeError>)
    ensures r.Failure? <==> d.Some? && d.value != Null && !d.value.Str?
    ensures r.Success? ==> r.value.Str? && NoEdgeSpace(r.value.s) && NoTagLeft(r.value.s)
    ensures r.Success? && d.Some? && d.value.Str? ==> r.value == Str(Trim(StripTags(d.value.s)))
    ensures r.Success? && !(d.Some? && d.value.Str?) ==> r.value == Str("")
  {
    if d.None? || d.value == Null then Success(Str(""))
    else if d.value.Str? then
      var t := Trim(StripTags(d.value.s));
      TrimKeepsNoTag(StripTags(d.value.s));
      Success(Str(t))
    else Failure(TypeError("item.description?.replace"))
  }

  /** `item.thumbnail || item.enclosure?.link || ''`: the first truthy of the two, else `""`. */
  function ThumbnailOf(item: Value): (r: Value)
    requires item != Null
    ensures r == if TruthyOpt(Prop(item, "thumbnail")) then Prop(item, "thumbnail").value
      else if TruthyOpt(EnclosureLink(item)) then EnclosureLink(item).value
      else Str("")
  {
    Or(Prop(item, "thumbnail"), Or(EnclosureLink(item), Str("")))
  }

  /** `{...fields, thumbnail, description}`: the own keys kept, the two named keys set. */
  function WithOverrides(fields: map<string, Value>, thumbnail: Value, description: Value): (r: map<string, Value>)
    ensures r.Keys == fields.Keys + {"thumbnail", "description"}
    ensures forall k :: k in fields && k != "thumbnail" && k != "description" ==> r[k] == fields[k]
    ensures r["thumbnail"] == thumbnail && r["description"] == description
  {
    fields["thumbnail" := thumbnail]["description" := description]
  }

  /** One item of the client transform: every own key kept, then `thumbnail` replaced by
      `item.thumbnail || item.enclosure?.link || ''` (no URL check here, unlike the server) and
      `description` by its tag-stripped, trimmed text. */
  function TransformItem(item: Value): (r: Result<Value, TypeError>)
    ensures r.Failure? <==> item == Null || CleanDescription(Prop(item, "description")).Failure?
    ensures r.Success? ==> r.value.Obj?
    ensures r.Success? ==> r.value.fields.Keys == Spread(item).Keys + {"thumbnail", "description"}
    ensures r.Success? ==> forall k :: k in Spread(item) && k != "thumbnail" && k != "description" ==>
      r.value.fields[k] == Spread(item)[k]
    ensures r.Success? ==>
      r.value.fields["thumbnail"] ==
        if TruthyOpt(Prop(item, "thumbnail")) then Prop(item, "thumbnail").value
        else if TruthyOpt(EnclosureLink(item)) then EnclosureLink(item).value
        else Str("")
    ensures r.Success? ==> r.value.fields["description"] == CleanDescription(Prop(item, "description")).value
  {
    if item == Null then Failure(TypeError("item.thumbnail"))
    else
      var thumbnail := ThumbnailOf(item);
      match CleanDescription(Prop(item, "description"))
      case Failure(e) => Failure(e)
      case Success(description) =>
        Success(Obj(WithOverrides(Spread(item), thumbnail, description)))
  }

  /** The whole `queryFn` result: every top-level key kept, and `items` replaced by the
      transformed items, or by `[]` when missing or `null`. A non-array `items` has no `map`
      method, so the call throws. */
  function TransformFeed(data: Value): (r: Result<Value, TypeError>)
    ensures data == Null ==> r.Failure?
    ensures r.Success? ==> r.value.Obj? && r.value.fields.Keys == Spread(data).Keys + {"items"}
    ensures r.Success? ==> forall k :: k in Spread(data) && k != "items" ==> r.value.fields[k] == Spread(data)[k]
    ensures r.Success? ==> r.value.fields["items"].Arr?
    ensures data != Null && (Prop(data, "items").None? || Prop(data, "items").value == Null) ==>
      r.Success? && r.value.fields["items"] == Arr([])
    ensures data != Null && Prop(data, "items").Some? ==>
      (Prop(data, "items").value != Null && !Prop(data, "items").value.Arr? ==> r.Failure?)
    ensures data != Null && Prop(data, "items").Some? && Prop(data, "items").value.Arr? ==>
      var raw := Prop(data, "items").value.elems;
      && (r.Success? <==> ArrayMap(TransformItem, raw).Success?)
      && (r.Success? ==> r.value.fields["items"].elems == ArrayMap(TransformItem, raw).value)
  {
    if data == Null then Failure(TypeError("data.items"))
    else
      var items := Prop(data, "items");
      if items.None? || items.value == Null then Success(Obj(Spread(data)["items" := Arr([])]))
      else if !items.value.Arr? then Failure(TypeError("data.items?.map"))
      else
        match ArrayMap(TransformItem, items.value.elems)
        case Failure(e) => Failure(e)
        case Success(ts) => Success(Obj(Spread(data)["items" := Arr(ts)]))
  }

  /* ---------------- Tag stripping: `replace(/<[^>]*>/g, '')` ---------------- */

  /** No `<` is followed anywhere later by a `>`: nothing left that `<[^>]*>` matches. */
  predicate NoTagLeft(s: string) {
    forall i, j :: 0 <= i < j < |s| && s[i] == '<' ==> s[j] != '>'
  }

  /** The first `>` at or after `from`. */
  function IndexOfGt(s: string, from: nat): (k: nat)
    requires from <= |s| && '>' in s[from..]
    ensures from <= k < |s| && s[k] == '>'
    ensures forall i :: from <= i < k ==> s[i] != '>'
    decreases |s| - from
  {
    if s[from] == '>' then from else IndexOfGt(s, from + 1)
  }

  /** The global replace, scanning left to right: a `<` with a `>` somewhere after it starts a
      match that runs to the first such `>` and is dropped; any other character is kept. */
  function StripTags(s: string): (r: string)
    ensures NoTagLeft(r)
    ensures |r| <= |s|
    decreases |s|, 1
  {
    if s == [] then []
    else if s[0] == '<' && '>' in s[1..] then
      StripTags(s[IndexOfGt(s, 1) + 1..])
    else
      var rest := StripTags(s[1..]);
      var r := [s[0]] + rest;
      forall i, j | 0 <= i < j < |r| && r[i] == '<' ensures r[j] != '>' {
        if i == 0 {
          if s[0] == '<' {
            StripTagsWithoutGt(s[1..]);
            assert r[j] == s[1..][j - 1];
          }
        } else {
          assert r[i] == rest[i - 1] && r[j] == rest[j - 1];
        }
      }
      r
  }

  /** Without a `>` there is no tag, and nothing is removed. */
  lemma {:induction false} StripTagsWithoutGt(s: string)
    requires '>' !in s
    ensures StripTags(s) == s
    decreases |s|, 2
  {
    if s != [] {
      assert '>' !in s[1..] by {
        forall j | 0 <= j < |s| - 1 ensures s[1..][j] != '>' {
          assert s[1..][j] == s[j + 1];
        }
      }
      StripTagsWithoutGt(s[1..]);
      assert s == [s[0]] + s[1..];
    }
  }

  /** The replace only deletes: every kept character comes from the input, as often at most
      as it occurs there. */
  lemma {:induction false} StripTagsKeepsCharacters(s: string)
    ensures multiset(StripTags(s)) <= multiset(s)
    decreases |s|
  {
    if s != [] {
      if s[0] == '<' && '>' in s[1..] {
        var k := IndexOfGt(s, 1);
        StripTagsKeepsCharacters(s[k + 1..]);
        assert s == s[..k + 1] + s[k + 1..];
      } else {
        StripTagsKeepsCharacters(s[1..]);
        assert s == [s[0]] + s[1..];
      }
    }
  }

  /** Text with nothing left to match is unchanged, so stripping twice is stripping once. */
  lemma {:induction false} StripTagsKeepsClean(s: string)
    requires NoTagLeft(s)
    ensures StripTags(s) == s
    decreases |s|
  {
    if s != [] {
      var t := s[1..];
      assert NoTagLeft(t) by {
        forall i, j | 0 <= i < j < |t| && t[i] == '<' ensures t[j] != '>' {
          assert s[1 + i] == '<' && s[1 + j] == t[j];
        }
      }
      StripTagsKeepsClean(t);
      if s[0] == '<' {
        assert '>' !in t by {
          forall j | 0 <= j < |t| ensures t[j] != '>' {
            assert s[1 + j] == t[j];
          }
        }
      }
      assert StripTags(s) == [s[0]] + StripTags(t);
      assert s == [s[0]] + t;
    }
  }

  lemma StripTagsIdempotent(s: string)
    ensures StripTags(StripTags(s)) == StripTags(s)
  {
    StripTagsKeepsClean(StripTags(s));
  }

  /** Trimming removes characters only at the edges, so it leaves no tag behind either. */
  lemma TrimKeepsNoTag(s: string)
    requires NoTagLeft(s)
    ensures NoTagLeft(Trim(s))
  {
    TrimIsSlice(s);
    var i := LeadingSpace(s);
    SliceKeepsNoTag(s, i, i + |Trim(s)|);
  }

  /** Any slice of text with no tag left has none either. */
  lemma SliceKeepsNoTag(s: string, i: nat, j: nat)
    requires NoTagLeft(s) && i <= j <= |s|
    ensures NoTagLeft(s[i..j])
  {
    var t := s[i..j];
    forall a, b | 0 <= a < b < |t| && t[a] == '<' ensures t[b] != '>' {
      assert t[a] == s[i + a] && t[b] == s[i + b];
    }
  }

  /* ---------------- Whitespace: `replace(/\s+/g, ' ')` then `trim()` ---------------- */

  /** No two white-space characters in a row. */
  predicate NoDoubleSpace(s: string) {
    forall j, k :: 0 <= j < |s| && 0 <= k < |s| && k == j + 1 ==> !(IsSpace(s[j]) && IsSpace(s[k]))
  }

  /** Every white-space character is a plain space. */
  predicate PlainSpaces(s: string) {
    forall k :: 0 <= k < |s| && IsSpace(s[k]) ==> s[k] == ' '
  }

  /** The non-white-space characters of `s`, in order. */
  function NonSpace(s: string): (r: string)
    ensures |r| <= |s|
  {
    if s == [] then [] else (if IsSpace(s[0]) then [] else [s[0]]) + NonSpace(s[1..])
  }

  lemma {:induction false} NonSpaceConcat(a: string, b: string)
    ensures NonSpace(a + b) == NonSpace(a) + NonSpace(b)
    decreases |a|
  {
    if a == [] {
      assert a + b == b;
    } else {
      assert (a + b)[0] == a[0];
      assert (a + b)[1..] == a[1..] + b;
      NonSpaceConcat(a[1..], b);
    }
  }

  lemma {:induction false} NonSpaceOfSpaces(s: string)
    requires AllSpace(s)
    ensures NonSpace(s) == []
    decreases |s|
  {
    if s != [] {
      NonSpaceOfSpaces(s[1..]);
    }
  }

  /** Each maximal run of white space becomes one plain space; everything else is kept. */
  function CollapseSpaces(s: string): (r: string)
    ensures NoDoubleSpace(r) && PlainSpaces(r)
    ensures r != [] <==> s != []
    ensures r != [] ==> (IsSpace(r[0]) <==> IsSpace(s[0]))
    decreases |s|
  {
    if s == [] then []
    else if IsSpace(s[0]) then
      var rest := CollapseSpaces(TrimStart(s));
      assert rest != [] ==> !IsSpace(rest[0]);
      " " + rest
    else
      var rest := CollapseSpaces(s[1..]);
      [s[0]] + rest
  }

  /** Collapsing keeps every non-space character, in order. */
  lemma {:induction false} CollapseKeepsText(s: string)
    ensures NonSpace(CollapseSpaces(s)) == NonSpace(s)
    decreases |s|
  {
    if s == [] {
    } else if IsSpace(s[0]) {
      var t := TrimStart(s);
      var rest := CollapseSpaces(t);
      CollapseKeepsText(t);
      assert s == s[..|s| - |t|] + t;
      NonSpaceConcat(s[..|s| - |t|], t);
      NonSpaceOfSpaces(s[..|s| - |t|]);
      assert (" " + rest)[1..] == rest;
    } else {
      var rest := CollapseSpaces(s[1..]);
      CollapseKeepsText(s[1..]);
      assert ([s[0]] + rest)[1..] == rest;
    }
  }

  /** The excerpt text before truncation: tags stripped, white-space runs collapsed, trimmed. */
  function CleanText(s: string): (r: string)
    ensures NoEdgeSpace(r) && NoDoubleSpace(r) && PlainSpaces(r)
    ensures NonSpace(r) == NonSpace(StripTags(s))
  {
    var c := CollapseSpaces(StripTags(s));
    CollapseKeepsText(StripTags(s));
    TrimKeepsShape(c);
    Trim(c)
  }

  /** Trimming cuts white space off the edges only: single plain spaces stay single and plain,
      and the non-space characters are all still there. */
  lemma TrimKeepsShape(c: string)
    requires NoDoubleSpace(c) && PlainSpaces(c)
    ensures NoDoubleSpace(Trim(c)) && PlainSpaces(Trim(c)) && NonSpace(Trim(c)) == NonSpace(c)
  {
    TrimIsSlice(c);
    TrimKeepsSpacing(c);
    TrimKeepsText(c);
  }

  lemma TrimKeepsSpacing(c: string)
    requires NoDoubleSpace(c) && PlainSpaces(c)
    ensures NoDoubleSpace(Trim(c)) && PlainSpaces(Trim(c))
  {
    TrimIsSlice(c);
    var i := LeadingSpace(c);
    SliceKeepsSpacing(c, i, i + |Trim(c)|);
  }

  /** Any slice of text without double or non-plain spaces is again such text. */
  lemma SliceKeepsSpacing(c: string, i: nat, j: nat)
    requires NoDoubleSpace(c) && PlainSpaces(c) && i <= j <= |c|
    ensures NoDoubleSpace(c[i..j]) && PlainSpaces(c[i..j])
  {
    var r := c[i..j];
    forall k | 0 <= k < |r| - 1 ensures !(IsSpace(r[k]) && IsSpace(r[k + 1])) {
      assert r[k] == c[i + k] && r[k + 1] == c[i + k + 1];
    }
  }

  lemma TrimKeepsText(c: string)
    ensures NonSpace(Trim(c)) == NonSpace(c)
  {
    var r := Trim(c);
    TrimIsSlice(c);
    var i := LeadingSpace(c);
    var j := i + |r|;
    var a, b := c[..i], c[j..];
    SplitThree(c, i, j);
    NonSpaceConcat(a + r, b);
    NonSpaceConcat(a, r);
    NonSpaceOfSpaces(a);
    NonSpaceOfSpaces(b);
  }


  const ExcerptLength: nat := 150

  /** `createExcerpt(description, content)`: the description if non-empty, else the content;
      cleaned; cut to 150 characters followed by "..." when longer than that. */
  function CreateExcerpt(description: string, content: string): (r: string)
    ensures var text := CleanText(if description != "" then description else content);
      && (|text| <= ExcerptLength ==> r == text)
      && (|text| > ExcerptLength ==> r == text[..ExcerptLength] + "..." && |r| == ExcerptLength + 3)
  {
    // `description || content || ''`: the final `''` only replaces an empty `content` by itself
    var cleaned := CleanText(if description != "" then description else content);
    Truncate(cleaned)
  }

  /** The string a property read stands for in `createExcerpt`'s `||` chain: a string is
      itself; anything else the chain can pass over (absent, `null`, `false`, `0`) acts as `""`. */
  function TextOf(o: Option<Value>): string {
    if o.Some? && o.value.Str? then o.value.s else ""
  }

  /** The card's `createExcerpt(post.description, post.content)` on the values a post really
      holds: the first truthy of description and content is cleaned and cut, falling back to
      `""`; a truthy non-string there has no `replace` method, so the call throws. */
  function CardExcerpt(post: Value): (r: Result<string, TypeError>)
    ensures post == Null ==> r.Failure?
    ensures post != Null ==>
      var d := Prop(post, "description");
      var c := Prop(post, "content");
      (r.Failure? <==> (TruthyOpt(d) && !d.value.Str?) || (!TruthyOpt(d) && TruthyOpt(c) && !c.value.Str?))
    ensures r.Success? ==>
      r.value == CreateExcerpt(TextOf(Prop(post, "description")), TextOf(Prop(post, "content")))
    ensures r.Success? ==> |r.value| <= ExcerptLength + 3
  {
    if post == Null then Failure(TypeError("post.description"))
    else
      var d, c := Prop(post, "description"), Prop(post, "content");
      var text := Or(d, Or(c, Str("")));
      ChosenText(d, c);
      if !text.Str? then Failure(TypeError("text.replace"))
      else
        ExcerptOfChosen(TextOf(d), TextOf(c), text.s);
        Success(CreateExcerpt(text.s, ""))
  }

  /** `createExcerpt` cleans and cuts whichever of its two arguments it picks, so handing it the
      picked text alone gives the same excerpt. */
  lemma ExcerptOfChosen(description: string, content: string, text: string)
    requires text == if description != "" then description else content
    ensures CreateExcerpt(description, content) == CreateExcerpt(text, "")
  {
  }

  /** `description || content || ''` is a string unless it picks a truthy non-string, and then
      it is the text `createExcerpt` picks from the two strings they stand for. */
  lemma ChosenText(d: Option<Value>, c: Option<Value>)
    ensures Or(d, Or(c, Str(""))).Str? <==>
      !((TruthyOpt(d) && !d.value.Str?) || (!TruthyOpt(d) && TruthyOpt(c) && !c.value.Str?))
    ensures Or(d, Or(c, Str(""))).Str? ==>
      Or(d, Or(c, Str(""))).s == if TextOf(d) != "" then TextOf(d) else TextOf(c)
  {
  }

  /** The cut: text longer than 150 characters keeps its first 150 and gets "..." appended. */
  function Truncate(text: string): (r: string)
    ensures |text| <= ExcerptLength ==> r == text
    ensures |text| > ExcerptLength ==> r == text[..ExcerptLength] + "..." && |r| == ExcerptLength + 3
  {
    if |text| > ExcerptLength then text[..ExcerptLength] + "..." else text
  }

  /** Text without `<` passes through the stripping unchanged. */
  lemma {:induction false} StripTagsPlainPrefix(plain: string, rest: string)
    requires '<' !in plain
    ensures StripTags(plain + rest) == plain + StripTags(rest)
    decreases |plain|
  {
    if plain == [] {
      assert plain + rest == rest;
    } else {
      assert (plain + rest)[0] == plain[0];
      assert (plain + rest)[1..] == plain[1..] + rest;
      StripTagsPlainPrefix(plain[1..], rest);
    }
  }

  /** A complete tag `<...>` at the front is dropped. */
  lemma StripTagsDropsTag(tag: string, rest: string)
    requires |tag| >= 2 && tag[0] == '<' && tag[|tag| - 1] == '>'
    requires forall k :: 0 < k < |tag| - 1 ==> tag[k] != '>'
    ensures StripTags(tag + rest) == StripTags(rest)
  {
    var s := tag + rest;
    assert s[|tag| - 1] == '>' && s[1..][|tag| - 2] == '>';
    assert IndexOfGt(s, 1) == |tag| - 1;
    assert s[|tag|..] == rest;
  }

  predicate NoSpaceIn(s: string) {
    forall k :: 0 <= k < |s| ==> !IsSpace(s[k])
  }

  lemma ExampleWords()
    ensures NoSpaceIn("Hello") && NoSpaceIn("world") && NoSpaceIn("done")
  {
  }

  /** A word of non-space characters passes through the collapsing unchanged. */
  lemma {:induction false} CollapseWordPrefix(word: string, rest: string)
    requires NoSpaceIn(word)
    ensures CollapseSpaces(word + rest) == word + CollapseSpaces(rest)
    decreases |word|
  {
    if word == [] {
      assert word + rest == rest;
    } else {
      var w := word + rest;
      assert w[0] == word[0] && !IsSpace(w[0]);
      assert w[1..] == word[1..] + rest;
      assert NoSpaceIn(word[1..]);
      CollapseWordPrefix(word[1..], rest);
      CollapseKeepsHead(w);
      ConsAppend(word, CollapseSpaces(rest));
    }
  }

  /** Splitting off the first character commutes with appending. */
  lemma ConsAppend(a: string, b: string)
    requires a != []
    ensures [a[0]] + (a[1..] + b) == a + b
  {
    assert a == [a[0]] + a[1..];
  }

  /** A leading non-space character is kept and the collapsing goes on after it. */
  lemma CollapseKeepsHead(s: string)
    requires s != [] && !IsSpace(s[0])
    ensures CollapseSpaces(s) == [s[0]] + CollapseSpaces(s[1..])
  {
  }

  /** A run of white space followed by a non-space character becomes one space. */
  lemma CollapseRun(run: string, rest: string)
    requires run != [] && AllSpace(run) && rest != [] && !IsSpace(rest[0])
    ensures CollapseSpaces(run + rest) == " " + CollapseSpaces(rest)
  {
    TrimStartRun(run, rest);
  }

  lemma {:induction false} TrimStartRun(run: string, rest: string)
    requires AllSpace(run) && (rest == [] || !IsSpace(rest[0]))
    ensures TrimStart(run + rest) == rest
    decreases |run|
  {
    if run == [] {
      assert run + rest == rest;
    } else {
      assert (run + rest)[0] == run[0];
      assert (run + rest)[1..] == run[1..] + rest;
      TrimStartRun(run[1..], rest);
    }
  }

  /** Trimming text with no white space at its edges changes nothing. */
  lemma TrimClean(s: string)
    requires NoEdgeSpace(s)
    ensures Trim(s) == s
  {
    assert TrimStart(s) == s;
  }

  lemma {:induction false} StripExample(tail: string)
    requires '<' !in tail
    ensures StripTags("<p>" + ("Hello" + (" " + ("<b>" + ("world" + ("</b>" + ("</p>" + tail)))))))
            == "Hello" + (" " + ("world" + tail))
  {
    var s1 := "</p>" + tail;
    var s2 := "</b>" + s1;
    var s3 := "world" + s2;
    var s4 := "<b>" + s3;
    var s5 := " " + s4;
    var s6 := "Hello" + s5;
    assert StripTags(tail) == tail by {
      StripTagsPlainPrefix(tail, "");
      assert tail + "" == tail;
    }
    StripTagsDropsTag("</p>", tail);
    StripTagsDropsTag("</b>", s1);
    StripTagsPlainPrefix("world", s2);
    StripTagsDropsTag("<b>", s3);
    StripTagsPlainPrefix(" ", s4);
    StripTagsPlainPrefix("Hello", s5);
    StripTagsDropsTag("<p>", s6);
  }

  lemma {:induction false} CollapseExample(tail: string)
    requires tail == "          " + "done"
    ensures CollapseSpaces("Hello" + (" " + ("world" + tail))) == "Hello" + (" " + ("world" + (" " + "done")))
  {
    var t1 := "world" + tail;
    var t2 := " " + t1;
    ExampleWords();
    assert CollapseSpaces(tail) == " " + "done" by {
      assert CollapseSpaces("done") == "done" by {
        CollapseWordPrefix("done", "");
        assert "done" + "" == "done";
      }
      CollapseRun("          ", "done");
    }
    assert CollapseSpaces(t1) == "world" + (" " + "done") by {
      CollapseWordPrefix("world", tail);
    }
    assert CollapseSpaces(t2) == " " + ("world" + (" " + "done")) by {
      CollapseRun(" ", t1);
    }
    CollapseWordPrefix("Hello", t2);
  }

  /** The worked example: `"<p>Hello <b>world</b></p>"`, ten spaces and `"done"` (written as
      the concatenation of its pieces) give `"Hello world done"`: the tags go and the run of
      ten spaces becomes one. */
  lemma {:induction false} ExcerptExample(tail: string)
    requires tail == "          " + "done"
    ensures CreateExcerpt("<p>" + ("Hello" + (" " + ("<b>" + ("world" + ("</b>" + ("</p>" + tail)))))), "")
            == "Hello" + (" " + ("world" + (" " + "done")))
  {
    StripExample(tail);
    CollapseExample(tail);
    TrimClean("Hello" + (" " + ("world" + (" " + "done"))));
  }

  /* ---------------- Image extraction: `/<img[^>]+src="([^">]+)"/i` ---------------- */

  /** `c` matches the pattern character `p` under the `i` flag without `u`, which folds only
      ASCII letters. */
  predicate SameIgnoringCase(c: char, p: char) {
    c == p || ('a' <= p <= 'z' && c as int == p as int - 32)
  }

  /** `<img` matches case-insensitively at `p`. */
  predicate ImgAt(s: string, p: nat) {
    && p + 4 <= |s|
    && s[p] == '<' && SameIgnoringCase(s[p + 1], 'i')
    && SameIgnoringCase(s[p + 2], 'm') && SameIgnoringCase(s[p + 3], 'g')
  }

  /** `src="` matches case-insensitively at `q`. */
  predicate SrcAt(s: string, q: nat) {
    && q + 5 <= |s|
    && SameIgnoringCase(s[q], 's') && SameIgnoringCase(s[q + 1], 'r')
    && SameIgnoringCase(s[q + 2], 'c') && s[q + 3] == '=' && s[q + 4] == '"'
  }

  /** The end of the run of characters from `c` that are neither `"` nor `>`. */
  function QuoteRunEnd(s: string, c: nat): (e: nat)
    requires c <= |s|
    ensures c <= e <= |s|
    ensures forall k :: c <= k < e ==> s[k] != '"' && s[k] != '>'
    ensures e < |s| ==> s[e] == '"' || s[e] == '>'
    decreases |s| - c
  {
    if c == |s| || s[c] == '"' || s[c] == '>' then c else QuoteRunEnd(s, c + 1)
  }

  /** The end of the run of characters from `c` that are not `>`. */
  function GtRunEnd(s: string, c: nat): (e: nat)
    requires c <= |s|
    ensures c <= e <= |s|
    ensures forall k :: c <= k < e ==> s[k] != '>'
    ensures e < |s| ==> s[e] == '>'
    decreases |s| - c
  {
    if c == |s| || s[c] == '>' then c else GtRunEnd(s, c + 1)
  }

  /** `([^">]+)"` matches at `c`: the greedy capture is the whole run up to the next `"` or
      `>`, which must be non-empty and be followed by a `"`. */
  predicate CaptureAt(s: string, c: nat) {
    c <= |s| && var e := QuoteRunEnd(s, c); c < e < |s| && s[e] == '"'
  }

  /** The text captured by the group at `c`: the run after `c` up to the next `"` or `>`; when
      the group matches there, a non-empty run with neither. */
  function Captured(s: string, c: nat): (u: string)
    ensures CaptureAt(s, c) ==> u != [] && '"' !in u && '>' !in u
  {
    if c <= |s| then s[c..QuoteRunEnd(s, c)] else []
  }

  /** The regular expression matches with `<img` at `p` and `src="` at `q`: `[^>]+` takes
      positions `p + 4` to `q - 1`, at least one character and none of them a `>` (that is, `q`
      does not pass the first `>` after the tag name), and the capture group matches after
      `src="`. */
  predicate MatchAt(s: string, p: nat, q: nat) {
    && ImgAt(s, p)
    && p + 5 <= q
    && SrcAt(s, q)
    && q <= GtRunEnd(s, p + 4)
    && CaptureAt(s, q + 5)
  }

  /** Where a match sits: `<img` at `start`, `src="` at `src`. */
  datatype Span = Span(start: nat, src: nat)

  /** Backtracking of the greedy `[^>]+` for `<img` at `p`: the longest run first, so the
      candidate positions of `src="` are tried from `q` downwards. */
  function TrySrcFrom(s: string, p: nat, q: nat): (r: Option<nat>)
    requires ImgAt(s, p) && p + 4 <= q <= GtRunEnd(s, p + 4)
    ensures r.None? ==> forall q': nat :: q' <= q ==> !MatchAt(s, p, q')
    ensures r.Some? ==> r.value <= q && MatchAt(s, p, r.value)
    ensures r.Some? ==> forall q': nat :: r.value < q' <= q ==> !MatchAt(s, p, q')
    decreases q
  {
    if q < p + 5 then None
    else if SrcAt(s, q) && CaptureAt(s, q + 5) then Some(q)
    else TrySrcFrom(s, p, q - 1)
  }

  /** The match that starts at `p`, if any: the one whose `[^>]+` is longest. */
  function MatchFrom(s: string, p: nat): (r: Option<nat>)
    requires p <= |s|
    ensures r.None? <==> forall q: nat :: !MatchAt(s, p, q)
    ensures r.Some? ==> MatchAt(s, p, r.value) && forall q: nat :: r.value < q ==> !MatchAt(s, p, q)
  {
    if !ImgAt(s, p) then None else TrySrcFrom(s, p, GtRunEnd(s, p + 4))
  }

  /** The leftmost match that starts at or after `p`. */
  function SearchFrom(s: string, p: nat): (r: Option<Span>)
    requires p <= |s|
    ensures r.None? <==> forall p': nat, q: nat :: p <= p' ==> !MatchAt(s, p', q)
    ensures r.Some? ==> p <= r.value.start && MatchAt(s, r.value.start, r.value.src)
    ensures r.Some? ==> forall p': nat, q: nat :: p <= p' < r.value.start ==> !MatchAt(s, p', q)
    ensures r.Some? ==> forall q: nat :: r.value.src < q ==> !MatchAt(s, r.value.start, q)
    decreases |s| - p
  {
    if |s| < p + 4 then
      assert forall p': nat, q: nat :: p <= p' ==> !MatchAt(s, p', q) by {
        forall p': nat, q: nat | p <= p' ensures !MatchAt(s, p', q) {
          assert !ImgAt(s, p');
        }
      }
      None
    else
      match MatchFrom(s, p)
      case Some(q) => Some(Span(p, q))
      case None =>
        var r := SearchFrom(s, p + 1);
        assert r.Some? ==> forall p': nat, q: nat :: p <= p' < r.value.start ==> !MatchAt(s, p', q) by {
          if r.Some? {
            forall p': nat, q: nat | p <= p' < r.value.start ensures !MatchAt(s, p', q) {
              if p' == p {
                assert forall q: nat :: !MatchAt(s, p, q);
              }
            }
          }
        }
        r
  }

  /** The first match of the regular expression in `content`: leftmost start, then the longest
      `[^>]+`, as JavaScript's backtracking matcher finds it. */
  function FirstMatch(content: string): (r: Option<Span>)
    ensures r.None? <==> forall p: nat, q: nat :: !MatchAt(content, p, q)
    ensures r.Some? ==> MatchAt(content, r.value.start, r.value.src)
    ensures r.Some? ==> forall p: nat, q: nat :: p < r.value.start ==> !MatchAt(content, p, q)
    ensures r.Some? ==> forall q: nat :: r.value.src < q ==> !MatchAt(content, r.value.start, q)
  {
    SearchFrom(content, 0)
  }

  /** `extractImageFromContent(content)`: group 1 of the first match, or `null` (`None`) when
      the regular expression does not match. A returned URL is non-empty and holds neither
      `"` nor `>`. */
  function ExtractImage(content: string): (r: Option<string>)
    ensures r.None? <==> FirstMatch(content).None?
    ensures r.Some? ==> r.value != [] && '"' !in r.value && '>' !in r.value
  {
    match FirstMatch(content)
    case None => None
    case Some(m) => Some(Captured(content, m.src + 5))
  }

  /** `extractImageFromContent` returns `null` exactly when the pattern matches nowhere. */
  lemma ExtractImageNullIff(content: string)
    ensures ExtractImage(content).None? <==> forall p: nat, q: nat :: !MatchAt(content, p, q)
  {
  }

  /** Otherwise it returns the group captured by the first match: the run after that match's
      `src="` up to the closing quote. */
  lemma ExtractImageIsFirstCapture(content: string, p: nat, q: nat)
    requires FirstMatch(content) == Some(Span(p, q))
    ensures MatchAt(content, p, q)
    ensures ExtractImage(content) == Some(Captured(content, q + 5))
  {
  }

  /** A plain `<img src="...">` tag yields its URL. */
  lemma ExtractPlainImage(url: string)
    requires url != [] && '"' !in url && '>' !in url
    ensures ExtractImage("<img src=\"" + url + "\">") == Some(url)
  {
    var tag := "<img src=\"";
    var s := tag + url + "\">";
    var e := 10 + |url|;
    assert |s| == e + 2;
    assert forall k :: 0 <= k < 10 ==> s[k] == tag[k];
    assert forall j :: 0 <= j < |url| ==> s[10 + j] == url[j];
    assert s[e] == '"' && s[e + 1] == '>';
    assert s[10..e] == url;
    SoleMatch(s, 5, e);
  }

  /** The greedy `[^>]+` makes the last `src="` inside the tag win: in
      `<img src="a" data-src="b">` the capture is `b`. */
  lemma LastSrcInTagWins(a: string, b: string)
    requires a != [] && '"' !in a && '>' !in a
    requires b != [] && '"' !in b && '>' !in b
    ensures ExtractImage("<img src=\"" + a + "\" data-src=\"" + b + "\">") == Some(b)
  {
    var tag := "<img src=\"";
    var mid := "\" data-src=\"";
    var s := tag + a + mid + b + "\">";
    var q := 17 + |a|;
    var e := q + 5 + |b|;
    assert |s| == e + 2;
    assert forall k :: 0 <= k < 10 ==> s[k] == tag[k];
    assert forall j :: 0 <= j < |a| ==> s[10 + j] == a[j];
    assert forall k :: 0 <= k < 12 ==> s[10 + |a| + k] == mid[k];
    assert forall j :: 0 <= j < |b| ==> s[q + 5 + j] == b[j];
    assert s[e] == '"' && s[e + 1] == '>';
    assert s[q + 5..e] == b;
    SoleMatch(s, q, e);
  }

  /** A tag at the start whose `src="` at `q` opens the last quoted value before the closing
      `>`: the first match is that one, and its capture runs to the quote at `e`. */
  lemma SoleMatch(s: string, q: nat, e: nat)
    requires 5 <= q && q + 5 < e && |s| == e + 2
    requires ImgAt(s, 0) && SrcAt(s, q)
    requires forall k :: 4 <= k <= e ==> s[k] != '>'
    requires forall k :: q + 5 <= k < e ==> s[k] != '"'
    requires s[e] == '"' && s[e + 1] == '>'
    ensures ExtractImage(s) == Some(s[q + 5..e])
  {
    SoleMatchSpan(s, q, e);
    ExtractAtStart(s, q);
  }

  /** A match with `<img` at 0 whose `src="` is the last one that matches in the tag is the
      first match, and its capture is the result. */
  lemma ExtractAtStart(s: string, q: nat)
    requires MatchAt(s, 0, q)
    requires forall q': nat :: q < q' ==> !MatchAt(s, 0, q')
    ensures ExtractImage(s) == Some(s[q + 5..QuoteRunEnd(s, q + 5)])
  {
    FirstMatchAtStart(s, q);
  }

  /** The first-match half of `ExtractAtStart`. */
  lemma FirstMatchAtStart(s: string, q: nat)
    requires MatchAt(s, 0, q)
    requires forall q': nat :: q < q' ==> !MatchAt(s, 0, q')
    ensures FirstMatch(s) == Some(Span(0, q))
  {
    var m := FirstMatch(s).value;
    assert m.start == 0;
    assert m.src == q;
  }

  /** The match facts behind `SoleMatch`: `<img` at 0 with `src="` at `q` matches, its capture
      ends at `e`, and no later `src="` in the tag matches. */
  lemma SoleMatchSpan(s: string, q: nat, e: nat)
    requires 5 <= q && q + 5 < e && |s| == e + 2
    requires ImgAt(s, 0) && SrcAt(s, q)
    requires forall k :: 4 <= k <= e ==> s[k] != '>'
    requires forall k :: q + 5 <= k < e ==> s[k] != '"'
    requires s[e] == '"' && s[e + 1] == '>'
    ensures MatchAt(s, 0, q) && QuoteRunEnd(s, q + 5) == e
    ensures forall q': nat :: q < q' ==> !MatchAt(s, 0, q')
  {
    QuoteRunEndSkips(s, q + 5, e);
    GtRunEndSkips(s, 4, e + 1);
    forall q': nat | q < q' ensures !MatchAt(s, 0, q') {
      if SrcAt(s, q') {
        assert q' + 4 == e;
        assert QuoteRunEnd(s, q' + 5) == q' + 5;
      }
    }
  }

  /** `GtRunEnd` runs over a stretch free of `>` up to a `>`. */
  lemma {:induction false} GtRunEndSkips(s: string, c: nat, e: nat)
    requires c <= e < |s| && s[e] == '>'
    requires forall k :: c <= k < e ==> s[k] != '>'
    ensures GtRunEnd(s, c) == e
    decreases e - c
  {
    if c < e {
      GtRunEndSkips(s, c + 1, e);
    }
  }

  /** `QuoteRunEnd` runs over a stretch free of `"` and `>` up to a stop character. */
  lemma {:induction false} QuoteRunEndSkips(s: string, c: nat, e: nat)
    requires c <= e < |s| && (s[e] == '"' || s[e] == '>')
    requires forall k :: c <= k < e ==> s[k] != '"' && s[k] != '>'
    ensures QuoteRunEnd(s, c) == e
    decreases e - c
  {
    if c < e {
      QuoteRunEndSkips(s, c + 1, e);
    }
  }

  /* ---------------- What the page renders ---------------- */

  /** `post.content || ''`. */
  function ContentOrEmpty(post: Value): (r: Value)
    requires post != Null
    ensures TruthyOpt(Prop(post, "content")) ==> r == Prop(post, "content").value
    ensures !TruthyOpt(Prop(post, "content")) ==> r == Str("")
    ensures r.Str? <==> !TruthyOpt(Prop(post, "content")) || Prop(post, "content").value.Str?
  {
    Or(Prop(post, "content"), Str(""))
  }

  /** The card image, `post.thumbnail || extractImageFromContent(post.content || '')`: a truthy
      thumbnail wins; otherwise the first `<img src="...">` of the content, or `null`. Content
      that is neither a string nor falsy has no `match` method, so the call throws. */
  function CardImage(post: Value): (r: Result<Value, TypeError>)
    ensures post == Null ==> r.Failure?
    ensures post != Null && TruthyOpt(Prop(post, "thumbnail")) ==> r == Success(Prop(post, "thumbnail").value)
    ensures post != Null && !TruthyOpt(Prop(post, "thumbnail")) ==>
      (r.Failure? <==> !ContentOrEmpty(post).Str?)
    ensures post != Null && !TruthyOpt(Prop(post, "thumbnail")) && r.Success? ==>
      var content := ContentOrEmpty(post).s;
      && (r.value == Null <==> forall p: nat, q: nat :: !MatchAt(content, p, q))
      && (r.value != Null ==> r.value.Str? && r.value.s != [] && '"' !in r.value.s)
    ensures post != Null && !TruthyOpt(Prop(post, "thumbnail")) && r.Success? ==>
      var image := ExtractImage(ContentOrEmpty(post).s);
      r.value == if image.Some? then Str(image.value) else Null
  {
    if post == Null then Failure(TypeError("post.thumbnail"))
    else if TruthyOpt(Prop(post, "thumbnail")) then Success(Prop(post, "thumbnail").value)
    else
      var content := ContentOrEmpty(post);
      if !content.Str? then Failure(TypeError("content.match"))
      else
        var image := ExtractImage(content.s);
        ExtractImageNullIff(content.s);
        if image.None? then Success(Null) else Success(Str(image.value))
  }

  /** The card shows an image exactly when the thumbnail is truthy or the content holds a
      match. */
  lemma CardImageShown(post: Value)
    requires CardImage(post).Success?
    ensures Truthy(CardImage(post).value) <==>
      TruthyOpt(Prop(post, "thumbnail")) || exists p: nat, q: nat :: MatchAt(ContentOrEmpty(post).s, p, q)
  {
    var r := CardImage(post).value;
    if !TruthyOpt(Prop(post, "thumbnail")) {
      var content := ContentOrEmpty(post).s;
      if r == Null {
        assert forall p: nat, q: nat :: !MatchAt(content, p, q);
      } else {
        assert r.Str? && r.s != [];
      }
    }
  }

  /** The main column of the page. */
  datatype View = Loading | ErrorNotice | NoPosts | PostList(posts: seq<Value>)

  /** The main column's view (client/src/pages/home.tsx:273-285). `items` is `rssData?.items`:
      `None` before any data arrived; once there, the transform always made it an array. */
  function SelectView(isLoading: bool, failed: bool, items: Option<seq<Value>>): (v: View)
    ensures isLoading ==> v == Loading
    ensures !isLoading && failed ==> v == ErrorNotice
    ensures !isLoading && !failed ==> (v == NoPosts <==> items.None? || items.value == [])
    ensures v.PostList? <==> !isLoading && !failed && items.Some? && items.value != []
    ensures v.PostList? ==> v.posts == items.value
  {
    if isLoading then Loading
    else if failed then ErrorNotice
    else if items.None? || |items.value| == 0 then NoPosts
    else PostList(items.value)
  }

  /** One sidebar entry: a post and whether a divider follows it. */
  datatype SidebarEntry = SidebarEntry(post: Value, divider: bool)

  /** The number of posts the sidebar lists. */
  const SidebarLength: nat := 3

  /** The sidebar as the page writes it: `rssData?.items?.slice(0, 3)`, with a divider after
      every entry whose index is below 2. */
  function SidebarAsWritten(items: Option<seq<Value>>): (r: seq<SidebarEntry>)
    ensures |r| == if items.None? then 0 else Min(SidebarLength, |items.value|)
    ensures forall i :: 0 <= i < |r| ==> r[i].post == items.value[i] && (r[i].divider <==> i < 2)
  {
    if items.None? then []
    else
      var shown := items.value[..Min(SidebarLength, |items.value|)];
      seq(|shown|, i requires 0 <= i < |shown| => SidebarEntry(shown[i], i < 2))
  }

  /** With exactly two posts the second, and last, entry is followed by a divider. */
  lemma TrailingDividerWithTwoPosts(a: Value, b: Value)
    ensures var r := SidebarAsWritten(Some([a, b])); |r| == 2 && r[|r| - 1].divider
  {
  }

  /** With a single post its one entry is followed by a divider as well. */
  lemma TrailingDividerWithOnePost(a: Value)
    ensures var r := SidebarAsWritten(Some([a])); |r| == 1 && r[0].divider
  {
  }

  /** The sidebar with dividers only between entries: the first min(3, n) posts in order. */
  function Sidebar(items: Option<seq<Value>>): (r: seq<SidebarEntry>)
    ensures |r| == if items.None? then 0 else Min(SidebarLength, |items.value|)
    ensures forall i :: 0 <= i < |r| ==> r[i].post == items.value[i]
    ensures forall i :: 0 <= i < |r| ==> (r[i].divider <==> i + 1 < |r|)
  {
    if items.None? then []
    else
      var shown := items.value[..Min(SidebarLength, |items.value|)];
      seq(|shown|, i requires 0 <= i < |shown| => SidebarEntry(shown[i], i + 1 < |shown|))
  }

  /** The two agree whenever at least three posts exist. */
  lemma SidebarAgreesFromThreePosts(items: seq<Value>)
    requires |items| >= SidebarLength
    ensures Sidebar(Some(items)) == SidebarAsWritten(Some(items))
  {
  }

  function Min(a: nat, b: nat): nat {
    if a <= b then a else b
  }
}
