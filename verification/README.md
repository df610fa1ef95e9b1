# KingsFeeds feed pipeline in Dafny

KingsFeeds is a one-page blog front end for a Medium feed. The rss2json aggregator turns the feed
into JSON. Two parts of the system handle that JSON:

- The server route `/api/rss` cleans every item, validates the envelope against a zod schema and
  answers either with the validated feed or with a 500 error.
- The client page runs its own transform on the same JSON. It then derives each card's excerpt
  and image, picks the view to show and lists the first posts in a sidebar.

The server entry point also logs every finished `/api` request on one line of at most 80
characters. Its error handler falls back to status 500 and a default message.

This project models those parts over a small JavaScript value type (`JsValues.Value`). It proves
what each step guarantees:

- the fallbacks of the cleaning;
- that validation accepts exactly the schema's shapes and reports an issue otherwise;
- that the parsed feed is the input with unknown keys stripped, and a round trip through it;
- that a tag-free, trimmed, whitespace-collapsed excerpt of at most 153 characters is produced;
- that the image search returns the leftmost and longest regular-expression match;
- that the view priority is loading, then error, then empty, then the post list;
- the 80-character bound on log lines;
- the error-handler defaults.

Modules:

- `Wrappers`: `Option` and `Result`.
- `JsValues`: values, truthiness, `||`, property reads, and `Array.prototype.map` with a callback
  that may throw.
- `Text`: JavaScript's whitespace set, `trim`, `startsWith`, and the decimal text of numbers.
- `Schema`: `blogPostSchema` and `rssResponseSchema` (shared/schema.ts), as predicates and as
  ordered issue lists, plus `safeParse`.
- `Routes`: the `/api/rss` handler (server/routes.ts). Its bundled copy, dist/index.js:30-72
  with the schema at dist/index.js:9-26, is the same code and is modelled by these same
  functions. Only the hard-coded feed URL differs between the two, and the URL is not part of
  the model: the upstream reply is an input.
- `Home`: the client page (client/src/pages/home.tsx).
- `ServerIndex`: the logging middleware and the error handler (dist/index.js).

The URL check of `z.string().url()` is a parameter `isUrl: string -> bool` of every validating
member. Nothing is assumed about it.

## Model

| member | source | states |
|---|---|---|
| JsValues.Truthy | server/routes.ts:21-36 | JavaScript truthiness: `null`, `false`, `0` and `""` are falsy, every other value is truthy |
| JsValues.TruthyOpt | dist/index.js:202 | a property read is truthy when it is present and its value is truthy; `undefined` is falsy |
| JsValues.Or | server/routes.ts:24-29 | `a \|\| b`: the left operand when it is present and truthy, otherwise the right one |
| JsValues.Prop | server/routes.ts:24-36 | a property read on a non-null value is an object's own field exactly when the key is present, `String.prototype.link` for `link` on a string, and `undefined` in every other case |
| JsValues.ArrayMap | server/routes.ts:22 | `map` succeeds exactly when the callback succeeds on every element, and then yields the results in order with the same length; a failure is the error of some element |
| JsValues.ArrayMapStep | server/routes.ts:22 | mapping one element more runs the callback on it after the prefix: its result is appended, or its error is the error of mapping the whole array |
| JsValues.ArrayMapFailureSticks | server/routes.ts:22 | once mapping a prefix throws, mapping the whole array throws the same error |
| Text.IsSpace | client/src/pages/home.tsx:78 | the white-space set shared by `\s` and `trim`: the ECMAScript WhiteSpace and LineTerminator characters |
| Text.StartsWith | server/routes.ts:36 | `startsWith(prefix)`: the prefix is no longer than the string and equals its first characters |
| Text.TrimStart | server/routes.ts:35 | the result is a suffix of the input that does not start with whitespace, and only whitespace was removed |
| Text.TrimEnd | server/routes.ts:35 | the result is a prefix of the input that does not end with whitespace, and only whitespace was removed |
| Text.Trim | server/routes.ts:35-37 | the result has no whitespace at either end and is no longer than the input |
| Text.TrimIsSlice | server/routes.ts:37 | the trimmed text is the input's slice after its leading whitespace, and everything cut off on both sides is whitespace |
| Text.TrimKeepsPrefix | server/routes.ts:36-37 | trimming a string that starts with a non-space prefix only trims its end and keeps the prefix |
| Text.Decimal | dist/index.js:201 | the decimal text of a number is non-empty and made of digits |
| Text.DecimalRoundTrip | dist/index.js:201 | reading the decimal text back gives the number, and only 0 is written with a leading 0 |
| Text.IntText | dist/index.js:201 | the text of an integer starts with `-` exactly when it is negative |
| Text.IntTextDigits | dist/index.js:201 | after the optional `-`, the text of an integer is non-empty decimal digits that read back as its magnitude and start with `0` only for zero |
| Schema.KindOf | shared/schema.ts:3-21 | the type name zod reports as received: `undefined` for an absent key, otherwise the value's JSON type |
| Schema.StringIssues | shared/schema.ts:4 | `z.string()` reports no issue exactly when the value is a string |
| Schema.OptStringIssues | shared/schema.ts:7-9 | `z.string().optional()` reports no issue exactly when the value is absent or a string |
| Schema.UrlIssues | shared/schema.ts:5 | `z.string().url()` reports no issue exactly when the value is a string that passes the URL check |
| Schema.PostIssues | shared/schema.ts:3-11 | `blogPostSchema` reports no issue exactly when the value is a valid post, and every issue it reports lies under the post's own path |
| Schema.ValidPost | shared/schema.ts:3-11 | `blogPostSchema` accepts an object whose title, link, pubDate and guid are strings, whose link passes the URL check, and whose description, content and thumbnail are absent or strings |
| Schema.ValidFeed | shared/schema.ts:15-19 | the nested `feed` schema accepts an object whose title, description and link are strings, with no URL check on link |
| Schema.ValidItems | shared/schema.ts:20 | `z.array(blogPostSchema)` accepts an array every element of which is a valid post |
| Schema.ValidResponse | shared/schema.ts:13-21 | `rssResponseSchema` accepts an object with a string status, a valid feed and valid items |
| Schema.ElemsIssues | shared/schema.ts:20 | `z.array(blogPostSchema)` over the elements reports no issue exactly when every element is a valid post, and every issue lies under the array's path |
| Schema.AllValidSplit | shared/schema.ts:20 | every element is a valid post exactly when all but the last are and the last is too |
| Schema.FeedIssues | shared/schema.ts:15-19 | the `feed` object reports no issue exactly when it is an object whose title, description and link are strings, and every issue lies under the feed's path |
| Schema.ItemsIssues | shared/schema.ts:20 | `items` reports no issue exactly when it is an array of valid posts, and every issue lies under the path of `items` |
| Schema.ResponseIssues | shared/schema.ts:13-21 | `rssResponseSchema` reports no issue exactly when the whole response is valid; a non-object is one issue at the root; otherwise the report is the issues under `status`, then those under `feed`, then those under `items` |
| Schema.FeedTitleMissingReported | shared/schema.ts:16 | a `feed` object without `title` is reported as a missing string at `feed.title` |
| Schema.Restrict | shared/schema.ts:3-11 | the output object keeps exactly the input's keys that the schema declares, with their values |
| Schema.PostOf | shared/schema.ts:3-11 | the parsed post, written back as JSON, is the input restricted to the seven declared keys |
| Schema.FeedOf | shared/schema.ts:15-19 | the parsed feed, written back as JSON, is the input restricted to title, description and link |
| Schema.PostJson | shared/schema.ts:3-11 | a post written as JSON has only declared keys |
| Schema.StripResponse | shared/schema.ts:13-21 | the stripped output has exactly status, feed and items; the feed keeps exactly its three declared keys and each item only its declared keys, in order |
| Schema.FeedJson | server/routes.ts:58 | a typed feed as the JSON object sent: its three string fields |
| Schema.ResponseJson | server/routes.ts:58 | the typed response as the JSON `res.json(result)` sends: status, the feed's JSON and each post's JSON in order |
| Schema.ResponseOf | shared/schema.ts:13-21 | the parsed response, written back as JSON, is the input with every undeclared key stripped at all three levels |
| Schema.SafeParse | shared/schema.ts:13-21 | `safeParse` succeeds exactly on valid input and then returns the stripped input; on failure it returns the non-empty issue list |
| Schema.ParseResponseJson | shared/schema.ts:13-21 | a response whose post links all pass the URL check parses back to itself |
| Schema.ResponseJsonValid | shared/schema.ts:13-21 | the JSON of such a response is valid and reads back as the same response |
| Schema.PostJsonParses | shared/schema.ts:3-11 | a post with a URL link is valid as JSON and parses back to itself |
| Schema.FeedLinkIsAnyString | shared/schema.ts:18 | the feed's link is not URL-checked: any string there keeps a valid response valid |
| Schema.PostLinkMustBeUrl | shared/schema.ts:5 | a post whose link fails the URL check is invalid, whatever else it holds |
| Schema.InvalidItemReported | shared/schema.ts:20 | an invalid element at index i yields an issue whose path lies under that index |
| Schema.SomeUnderConcat | shared/schema.ts:20 | an issue under a path in either part of a report is still in the joined report |
| Routes.BaseRecord | server/routes.ts:23-30 | the cleaned record has exactly title, link, pubDate, description, content and guid; the first five are the item's truthy value or `""`, and guid falls back to the link, then to `""` |
| Routes.AddThumbnail | server/routes.ts:37 | adding the thumbnail gives the record all seven read keys, sets the thumbnail and leaves the six other fields untouched |
| Routes.CleanItem | server/routes.ts:22-40 | cleaning fails only on a `null` item; otherwise it yields an object with the base record's keys and values, plus a thumbnail exactly when the four-part check passes, and then that thumbnail trimmed |
| Routes.CleanData | server/routes.ts:21-42 | data without truthy items passes unchanged; otherwise items is replaced by the cleaned items in order and every other key is kept; a `null` body or non-array items throws |
| Routes.Respond | server/routes.ts:7-66 | the reply is the validated feed exactly when the upstream answered OK with JSON, the cleaning did not throw, the schema accepted the cleaned data and its status is `ok`; then the body is the cleaned data with undeclared keys stripped; every other outcome is a 500 with "Failed to fetch RSS feed" carrying its cause: the fetch failure, the HTTP status, the unparsable body, the script error, the full schema issue list, or the status that is not `ok` |
| Routes.CleanItems | server/routes.ts:22-41 | the loop over the items yields the cleaned items in order, or the error of the first item that throws, exactly as `map` does |
| Routes.HandleRss | server/routes.ts:7-66 | the handler, with its item loop, replies exactly as `Respond` specifies |
| Routes.KeepThumbnail | server/routes.ts:33-36 | the thumbnail is kept when it is truthy, a string, not blank after trimming, and starts with `http` |
| Routes.ThumbnailKeptIff | server/routes.ts:33-37 | the four-part thumbnail check holds exactly for strings starting with `http`, and the kept trimmed value still starts with `http` |
| Routes.LeadingSpaceThumbnailDropped | server/routes.ts:33-37 | a thumbnail with leading whitespace before `http` is dropped, even though trimming would have made it valid |
| Routes.CleanedItemFailsOnlyOnLink | server/routes.ts:22-40 | when an item's read fields are strings or falsy, the cleaned item can fail the post schema only on its link, and then with a single URL issue at that link |
| Routes.CleanedItemIsStrings | server/routes.ts:22-40 | under the same condition the cleaning succeeds, keeps the six base keys and yields only string fields |
| Routes.BaseRecordIsStrings | server/routes.ts:23-30 | under the same condition every field of the base record is a string |
| Routes.StringRecordIssues | shared/schema.ts:3-11 | a record with the six base keys and only string fields fails `blogPostSchema` at most with one URL issue at its link |
| Routes.NotOkEnvelopeRefused | server/routes.ts:54-56 | a valid response whose status is not `ok` is answered with the 500 error |
| Home.SpreadCopiesOwnProperties | client/src/pages/home.tsx:32-34 | the spread copies exactly the properties an object has, with their values, and nothing from a non-object |
| Home.Spread | client/src/pages/home.tsx:32-34 | `{...v}` as a map of keys to values: an object's own fields, and nothing for a non-object |
| Home.ThumbnailOf | client/src/pages/home.tsx:35 | the thumbnail is the item's own thumbnail when truthy, else the enclosure link when truthy, else `""` |
| Home.EnclosureLink | client/src/pages/home.tsx:35 | `item.enclosure?.link` is `undefined` for a missing or `null` enclosure, an object's own `link`, `String.prototype.link` for a string enclosure, and `undefined` for any other value |
| Home.CleanDescription | client/src/pages/home.tsx:36 | a missing or `null` description becomes `""`; a string becomes its tag-stripped, trimmed text, with no edge whitespace and no tag left; any other value throws |
| Home.TransformItem | client/src/pages/home.tsx:33-37 | every key of the item is kept, thumbnail becomes the first truthy of thumbnail, enclosure link and `""`, and description is cleaned; a `null` item throws |
| Home.TransformFeed | client/src/pages/home.tsx:31-37 | every top-level key is kept; items becomes `[]` when missing or `null`, the transformed items when an array, and any other items value throws |
| Home.StripTags | client/src/pages/home.tsx:36 | after removing `<[^>]*>` globally, no `<` is followed by a `>`, and the result is no longer than the input |
| Home.StripTagsWithoutGt | client/src/pages/home.tsx:75 | text without `>` holds no tag and is unchanged |
| Home.StripTagsKeepsCharacters | client/src/pages/home.tsx:75 | the replace only deletes: the result's characters are a sub-multiset of the input's |
| Home.StripTagsKeepsClean | client/src/pages/home.tsx:75 | text with no tag left is unchanged by the replace |
| Home.StripTagsIdempotent | client/src/pages/home.tsx:75 | stripping tags twice equals stripping once |
| Home.TrimKeepsNoTag | client/src/pages/home.tsx:36 | trimming tag-free text leaves it tag-free |
| Home.SliceKeepsNoTag | client/src/pages/home.tsx:36 | any slice of tag-free text is tag-free |
| Home.NonSpaceConcat | client/src/pages/home.tsx:78 | the non-whitespace characters of a concatenation are those of its parts |
| Home.NonSpaceOfSpaces | client/src/pages/home.tsx:78 | a whitespace-only text has no non-whitespace characters |
| Home.CollapseSpaces | client/src/pages/home.tsx:78 | after `replace(/\s+/g, ' ')` no two spaces are adjacent and every whitespace character is a plain space; emptiness and a leading space are kept |
| Home.CollapseKeepsText | client/src/pages/home.tsx:78 | collapsing whitespace keeps the non-whitespace characters in order |
| Home.CleanText | client/src/pages/home.tsx:74-78 | the cleaned text has no edge whitespace, no double space, only plain spaces, and the same non-whitespace characters as the tag-stripped input |
| Home.TrimKeepsShape | client/src/pages/home.tsx:78 | trimming collapsed text keeps it free of double spaces and non-plain whitespace, and keeps its non-whitespace characters |
| Home.TrimKeepsSpacing | client/src/pages/home.tsx:78 | trimming text without double or non-plain spaces keeps it so |
| Home.SliceKeepsSpacing | client/src/pages/home.tsx:78 | any slice of text without double or non-plain spaces is again such text |
| Home.TrimKeepsText | client/src/pages/home.tsx:78 | `trim` keeps every non-whitespace character, in order |
| Home.Truncate | client/src/pages/home.tsx:81 | text of at most 150 characters is kept whole; longer text becomes its first 150 characters plus `...`, 153 in all |
| Home.CreateExcerpt | client/src/pages/home.tsx:70-82 | the excerpt is the cleaned description, or the cleaned content when the description is empty; cleaned text of at most 150 characters is returned whole, and longer text is cut to its first 150 characters plus `...`, 153 in all |
| Home.CardExcerpt | client/src/pages/home.tsx:70-86 | the card's excerpt throws exactly when the first truthy of description and content is not a string; otherwise it is `createExcerpt` of the two read as strings, at most 153 characters |
| Home.ChosenText | client/src/pages/home.tsx:72 | `description \|\| content \|\| ''` is a string unless it picks a truthy non-string, and then it is the text `createExcerpt` picks from the two as strings |
| Home.ExcerptOfChosen | client/src/pages/home.tsx:72-81 | `createExcerpt` gives the same excerpt as when handed only the text it picks |
| Home.StripTagsPlainPrefix | client/src/pages/home.tsx:75 | text without `<` passes the tag replace unchanged in front of whatever follows |
| Home.StripTagsDropsTag | client/src/pages/home.tsx:75 | a leading `<...>` tag is dropped by the tag replace |
| Home.CollapseWordPrefix | client/src/pages/home.tsx:78 | a word without whitespace passes the whitespace collapse unchanged in front of whatever follows |
| Home.CollapseKeepsHead | client/src/pages/home.tsx:78 | a leading non-whitespace character is kept and the collapse goes on after it |
| Home.CollapseRun | client/src/pages/home.tsx:78 | a run of whitespace before a word collapses to one space |
| Home.TrimStartRun | client/src/pages/home.tsx:78 | `trim` removes a leading run of whitespace |
| Home.TrimClean | client/src/pages/home.tsx:78 | text without edge whitespace is unchanged by `trim` |
| Home.StripExample | client/src/pages/home.tsx:75 | the tags of a concrete description are removed, leaving its words and spaces |
| Home.CollapseExample | client/src/pages/home.tsx:78 | the whitespace runs of that description collapse to single spaces |
| Home.ExcerptExample | client/src/pages/home.tsx:70-82 | a concrete HTML description with tags and a long space run yields the excerpt `Hello world done` |
| Home.ImgAt | client/src/pages/home.tsx:65 | `<img` matches at a position, letters compared without case as `/i` does |
| Home.SrcAt | client/src/pages/home.tsx:65 | `src="` matches at a position, letters compared without case |
| Home.CaptureAt | client/src/pages/home.tsx:65 | `([^">]+)"` matches at a position: at least one character that is neither `"` nor `>`, closed by a quote |
| Home.MatchAt | client/src/pages/home.tsx:65 | the pattern matches with `<img` at p and `src="` at q: `[^>]+` covers the non-empty stretch between them, which holds no `>`, and a capture follows |
| Home.TrySrcFrom | client/src/pages/home.tsx:65 | backtracking `[^>]+` from its longest extent finds the largest position of `src="` that completes a match, or reports that none below the bound does |
| Home.MatchFrom | client/src/pages/home.tsx:65 | from a given start, the match with the longest `[^>]+`, or none exactly when no match starts there |
| Home.SearchFrom | client/src/pages/home.tsx:65-66 | the leftmost start at or after a position where the pattern matches, or none exactly when no match starts there or later |
| Home.FirstMatch | client/src/pages/home.tsx:65-66 | the match JavaScript's `match` finds: leftmost start, then longest `[^>]+`; none exactly when the pattern matches nowhere |
| Home.Captured | client/src/pages/home.tsx:65 | where the pattern matches with group 1 at that position, the captured group is non-empty and holds neither `"` nor `>` |
| Home.ExtractImage | client/src/pages/home.tsx:64-68 | `null` exactly when there is no first match; otherwise a non-empty URL with neither `"` nor `>` |
| Home.ExtractImageNullIff | client/src/pages/home.tsx:64-68 | `null` exactly when the case-insensitive pattern matches nowhere |
| Home.ExtractImageIsFirstCapture | client/src/pages/home.tsx:64-68 | when the first match has `<img` at p and `src="` at q, that is a match and the result is its group 1: the run after `src="` up to the closing quote |
| Home.ExtractPlainImage | client/src/pages/home.tsx:64-68 | a plain `<img src="u">` yields `u` |
| Home.LastSrcInTagWins | client/src/pages/home.tsx:65 | in `<img src="a" data-src="b">` the greedy `[^>]+` makes the capture `b` |
| Home.SoleMatch | client/src/pages/home.tsx:64-68 | for a content made of one tag whose last `src="` opens the last quoted value, the result is that value |
| Home.SoleMatchSpan | client/src/pages/home.tsx:65 | in such a tag the pattern matches with that `src="`, its capture ends at the closing quote, and no later `src="` matches |
| Home.ExtractAtStart | client/src/pages/home.tsx:64-68 | when a match starts at position 0 and no later `src="` in that tag matches, the result is that match's group 1 |
| Home.FirstMatchAtStart | client/src/pages/home.tsx:65-66 | such a match is the first match |
| Home.ContentOrEmpty | client/src/pages/home.tsx:85 | `post.content \|\| ''` is the content when truthy, otherwise `""`, so it is a string exactly when the content is falsy or a string |
| Home.CardImage | client/src/pages/home.tsx:85 | a truthy thumbnail wins; otherwise it is exactly what `extractImageFromContent` returns for the content, with falsy content read as `""`: `null` exactly when the pattern matches nowhere, else a non-empty URL; non-string truthy content throws |
| Home.CardImageShown | client/src/pages/home.tsx:85 | the card shows an image exactly when the thumbnail is truthy or the content holds an `<img src="...">` match |
| Home.SelectView | client/src/pages/home.tsx:273-285 | loading beats error, error beats an empty or missing list, and the post list is shown exactly when none of those holds, with the items in order |
| Home.SidebarAsWritten | client/src/pages/home.tsx:314-329 | the sidebar lists the first min(3, n) posts in order, with a divider after each entry whose index is below 2 |
| Home.TrailingDividerWithTwoPosts | client/src/pages/home.tsx:329 | with two posts, the last sidebar entry is followed by a divider |
| Home.TrailingDividerWithOnePost | client/src/pages/home.tsx:329 | with one post, its only sidebar entry is followed by a divider |
| Home.Sidebar | client/src/pages/home.tsx:314-329 | the first min(3, n) posts in order, with dividers only between entries |
| Home.SidebarAgreesFromThreePosts | client/src/pages/home.tsx:314-329 | with at least three posts, the corrected sidebar is the one as written |
| ServerIndex.LogLine | dist/index.js:201-204 | the line starts with method, path, status and duration in the fixed format, with nothing more when no body was captured, and otherwise ` :: ` and the body's JSON text |
| ServerIndex.Shorten | dist/index.js:205-207 | a line of at most 80 characters is unchanged; a longer one becomes its first 79 characters plus `…`, exactly 80 |
| ServerIndex.ShortenIdempotent | dist/index.js:205-207 | shortening a shortened line changes nothing |
| ServerIndex.ShortenKeepsHead | dist/index.js:205-207 | any prefix of at most 79 characters survives shortening |
| ServerIndex.LogEntry | dist/index.js:198-208 | a line is written exactly for paths starting with `/api`; it includes the body part only when the captured body is truthy, and it is at most 80 characters |
| ServerIndex.LineShowsRequest | dist/index.js:201-204 | before shortening, every line starts with the method and the path |
| ServerIndex.LoggedLineShowsRequest | dist/index.js:200-207 | a logged line starts with the method and path whenever they fit in 79 characters, however long the body |
| ServerIndex.RequestLog.constructor | dist/index.js:189-192 | a request starts with nothing captured and nothing written |
| ServerIndex.RequestLog.Json | dist/index.js:194-197 | the wrapped `res.json` remembers the body it sends, the last call winning |
| ServerIndex.RequestLog.Finish | dist/index.js:198-208 | the finish listener appends exactly the line `LogEntry` specifies for an `/api` path and writes nothing otherwise |
| ServerIndex.HandleError | dist/index.js:215-218 | status is `err.status` if truthy, else `err.statusCode` if truthy, else 500; the body's only key is message, `err.message` if truthy, else "Internal Server Error"; both are truthy; a `null` error throws |
| ServerIndex.BareErrorGetsDefaults | dist/index.js:216-217 | an error object with no fields gets 500 and "Internal Server Error" |
| ServerIndex.FalsyFieldsFallBack | dist/index.js:216-217 | a status of 0 and an empty message count as missing |

## Left out

- Networking: `fetch`, Express routing and `res.status(...).json(...)` are not modelled. The upstream reply is an input (`Routes.Upstream`), and the handler's reply is a value (`Routes.Response`).
- Routes.Respond: the 500 reply carries the failure as a datatype (`Routes.Failure`). The `error` text is not built: zod's rendering of its issue list into `error.message` and the engine's wording of a `TypeError` belong to libraries outside this model.
- Schema.SafeParse: zod's URL check (`z.string().url()`) is a parameter. zod's own issue codes and message texts are reduced to the two issue kinds the schema can raise: a wrong type and a failed URL.
- Error logging: `console.log` and `console.error` of validation issues and fetch errors are left out, because they have no effect on the reply.
- Dates and clocks: `formatDate` and the log timestamp depend on `Date`, `Intl` and the platform clock. The middleware's clock readings are method parameters.
- ServerIndex.LogEntry: `JSON.stringify` of the captured body is a parameter, `stringify`, so the body text is not computed.
- ServerIndex.HandleError: the rethrow `throw err` after the reply, and what Express does with the error, are not modelled.
- React: hooks, `useQuery` refetching, toasts and markup are not modelled. Only what the page computes is modelled: the transform, the card's excerpt and image, the view choice and the sidebar entries.
- Home.SelectView: `rssData?.items?.length` is taken on the transform's output. That is always an array (`Home.TransformFeed`), so the list arrives as an optional sequence.
- JsValues.Value has no `undefined` value, NaN or ±Infinity. An absent property is `None`. JSON text cannot produce NaN, but an overflowing number literal such as `1e400` parses to ±Infinity; that value is not modelled. In every modelled operation it would behave like any non-zero `Num`: it is truthy, and zod reports its type as number.
- Home.TransformItem, Home.TransformFeed: spreading a string or an array copies its index keys. The model's `Home.Spread` copies only an object's own fields.
- Object key order is not modelled (`map`), so the order of keys in a reply is not captured.
- Text is a sequence of Unicode code points (one `char` each), while JavaScript counts UTF-16 code units. The two agree for text below U+10000. Text with characters above U+FFFF is not modelled, so lengths and the 150- and 79-unit cuts in the middle of a surrogate pair are not captured for it.
- Home.CreateExcerpt: takes the two strings the default parameters and the `||` chain reduce to; `Home.CardExcerpt` models the call on the values a post holds, including the throw at `text.replace` (client/src/pages/home.tsx:75) when a truthy non-string is picked.
- Home.CardImage: posts on the page are typed by the schema as strings, but they are the transform's unvalidated output. The model treats them as arbitrary values.
- Vite setup, static file serving, environment and port parsing are build and deployment plumbing and are not modelled.

## Findings

| source | as written | input that shows it | evidently intended | confidence | as-written member | corrected member |
|---|---|---|---|---|---|---|
| client/src/pages/home.tsx:329 | a divider follows every sidebar entry whose index is below 2 | a feed with exactly two posts: the second, last entry is followed by a divider | dividers only between entries | low, not executed; with one post the single entry is also followed by a divider; with three or more posts the two agree | Home.SidebarAsWritten, Home.TrailingDividerWithTwoPosts, Home.TrailingDividerWithOnePost | Home.Sidebar |
