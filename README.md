# Windex, modelled in Dafny

Windex is a small HTTP client for the browser. It comes in two versions, and
this project models both.

- **src/windex.js.** A `Windex` client holds options (prefix, suffix, cache
  flag, headers, parsers, serializers) and a list of stubs.
  - `request('VERB path', data)` works as follows:
    - it parses the request line with a pattern;
    - it serializes the data;
    - a GET carries the serialized data as its query;
    - with caching off, it appends a cache-busting token `_<time>=1`.
  - It then answers from the first stub whose pattern matches `VERB path?query`.
    If no stub matches, it opens the transport with the `encodeURI`d URI, sets
    the headers and sends the body.
  - A finished response passes on only with status 200 or 304. It is then
    negotiated: the `;`-separated segments of its Content-Type pick a parser.
  - A fluent `Url` builder has operators that update its verb, path template and
    defaults in place:
    - the verb accessors, `and`, `to`;
    - `one`, `many`, `all`, `wipe`, `use`.
  - `toString(data)` fills the defaults into the data, replaces the `:key`
    placeholders and tidies the slashes.
  - `now(data)` moves every key whose placeholder occurs into a substitution
    map and requests the rendered line with the data that is left.
- **lib/windex.js**, the earlier version.
  - `request` splits the line on spaces.
  - It writes the cache token into the data object itself.
  - It serializes with bracketed, percent-encoded keys (`a[b]=1`).
  - It has no stubs and no `encodeURI`.
  - `negotiate` looks the whole Content-Type up.
  - `proxy(url, defaults)` is the earlier form of `now`.

## How the model is organised

- **Pure modules.** These hold the meaning of the core as functions, with the
  lemmas about them:
  - `JsValues`: JavaScript values and objects as ordered entry lists, `for…in`
    order;
  - `Strings`: the `String` operations used;
  - `Percent`: `encodeURIComponent` / `encodeURI` over UTF-8, with a decoder;
  - `Query`: both serializers and a query parser;
  - `Http`: dispatch and response records, the request-line pattern, stubs;
  - `Template`: the `Url` state and its rendering;
  - `SrcSpec` and `LibSpec`: what each version's request, negotiation and
    proxy compute.
- **Imperative modules.** These hold the classes whose fields the source
  updates:
  - `WindexSrc.Windex` and `WindexSrc.Url`;
  - `WindexLib.Windex`.
  - The loops over request data, defaults, headers, stubs, Content-Type
    segments and placeholders are `while` loops with their invariants.
  - Two loops of src/windex.js are not loops in the model:
    - the option-defaulting loop (src/windex.js:38-42) is the function
      `SrcSpec.ApplyDefaults`, one clause per option;
    - the loop that installs the verb accessors (src/windex.js:263-286) is
      the method `Url.Select`, which takes the accessor as an argument.
  - Most methods with loops or computed results are proved equal to the
    function that specifies them.
  - The methods that only set fields state their new fields directly: the
    constructors, `AddStub`, `Url.And`, `Url.To`, `Url.Wipe`, `NewUrl` and
    `WindexLib.Create`.
- **Inputs.**
  - The clock (`new Date().getTime()`) is a parameter `ts`.
  - The finished XMLHttpRequest is a `Response` value.
  - The transport calls (`open`, `setRequestHeader`, `send`) are recorded in a
    `Dispatch` value.
  - JSON's `parse` and `stringify` are function-valued inputs.

## Model

| member | source | states |
|---|---|---|
| WindexSrc.Windex.constructor | src/windex.js:29-46 | the client's options are the caller's, with every absent option set to the module default (the intended defaulting, see Findings); no stubs are registered |
| WindexSrc.Windex.AddStub | src/windex.js:241-252 | the new stub is registered after all earlier ones, the options are untouched, and the client itself is returned |
| WindexSrc.Windex.Serialize | src/windex.js:176-189 | the serializer loop produces exactly SrcSpec.Serialize: the registered serializer for the Content-Type header, or every property's flat piece in order joined by '&' |
| WindexSrc.Windex.Request | src/windex.js:85-143 | the request equals SrcSpec.Request: a line the pattern rejects is an error, the first matching stub answers, otherwise the transport receives verb, encoded URI, headers and body |
| WindexSrc.Windex.Address | src/windex.js:89-102 | the URI and the stub string are built as SrcSpec.RawUrl and SrcSpec.StubString: the query only for a GET with data, the cache token only on the URI |
| WindexSrc.Windex.FindStub | src/windex.js:104-112 | the stub loop stops at the least index whose pattern matches, and finds none when no stub matches |
| WindexSrc.Windex.Headers | src/windex.js:116-122 | the header calls are the form Content-Type (non-GET body, none configured) followed by every configured header in order |
| WindexSrc.Windex.Send | src/windex.js:49-83 | a shorthand such as `post(path)` always parses, for any path, and is the request of `POST path` |
| WindexSrc.Windex.Negotiate | src/windex.js:145-174 | the segment loop returns what SrcSpec.Negotiate specifies: '' for an empty body, the first registered segment's parse, or the text |
| WindexSrc.Windex.Settle | src/windex.js:124-134 | a finished response is rejected unless its status is 200 or 304, and is otherwise negotiated |
| WindexSrc.Windex.NewUrl | src/windex.js:191-193 | `url(spec, defaults)` is a fresh builder bound to this client, in the state FromSpec gives |
| WindexSrc.PutAbsent | src/windex.js:310-316 | setting a default only when the key is undefined is Template.PutIfAbsent |
| WindexSrc.ManyUri | src/windex.js:308 | the literal `'/:limit/:page'` that `many` appends is the resource followed by the `limit` and `page` placeholders |
| WindexSrc.Url.constructor | src/windex.js:255-260 | a two-token `verb path` gives the upper-cased verb and the path, anything else the verb GET and the first token; absent defaults are empty |
| WindexSrc.Url.Select | src/windex.js:263-286 | an accessor sets its verb (get GET, add POST, update PATCH, replace PUT, delete DELETE) and changes nothing else |
| WindexSrc.Url.And | src/windex.js:288-298 | `and` returns the builder itself and modifies nothing |
| WindexSrc.Url.To | src/windex.js:288-298 | `to` returns the builder itself and modifies nothing |
| WindexSrc.Url.One | src/windex.js:302-305 | the new state is Template.One of the old: `res/:res` appended after a '/' when the path is non-empty |
| WindexSrc.Url.Many | src/windex.js:307-319 | the new state is Template.Many of the old: `res/:limit/:page` appended, `limit` and `page` defaulted to '' only when absent |
| WindexSrc.Url.All | src/windex.js:321-324 | the new state is Template.All of the old: `res` appended |
| WindexSrc.Url.Wipe | src/windex.js:326-331 | the builder returns to GET, the empty path and no defaults |
| WindexSrc.Url.Use | src/windex.js:392-398 | the copy loop leaves the defaults equal to Template.Merge of the old defaults and the argument, verb and path unchanged |
| WindexSrc.Url.ToString | src/windex.js:369-390 | the rendering equals Template.Render of the state, and the caller's data afterwards holds the filled defaults |
| WindexSrc.Url.FillInto | src/windex.js:376-380 | the defaults loop leaves the data equal to Template.FillDefaults of the data and the defaults |
| WindexSrc.Url.Now | src/windex.js:333-357 | `now(data)` requests exactly Template.Prepare's line with Prepare's leftover data, which is also what the caller's object holds afterwards |
| WindexSrc.BoundKeys | src/windex.js:345-349 | the marking loop collects, in order, the keys whose `:key` occurs in the rendered URL |
| WindexSrc.Detach | src/windex.js:351-354 | the moving loop builds the substitution map of exactly the bound entries and deletes exactly those keys from the data |
| WindexSrc.BoundKeysSnoc | src/windex.js:345-349 | one more data entry adds its key to the marked keys exactly when its placeholder occurs |
| WindexSrc.DetachStep | src/windex.js:351-354 | each marked key is still in the data with its bound value when it is copied, and deleting it filters it out |
| WindexSrc.BoundEntryValue | src/windex.js:352 | the value copied into the substitution map is the data's value under that key |
| WindexLib.Windex.constructor | lib/windex.js:10-22 | a new client has caching off, the JSON Accept header, the JSON parser, prefix '/' and no suffix |
| WindexLib.Create | lib/windex.js:24-26 | `Windex.create()` is a fresh client in the initial configuration |
| WindexLib.Windex.Serialize | lib/windex.js:130-141 | the serializer loop produces Query.Bracketed: each property's bracketed, encoded piece, nested objects recursively, joined by '&' |
| WindexLib.Windex.Request | lib/windex.js:65-113 | the request and the data object afterwards are LibSpec.Request: verb and path from the space split, cache token in the data, body serialized, query only for GET |
| WindexLib.Windex.Stamp | lib/windex.js:73-75 | with caching off, the data gets `_<ts>` set to '1'; with caching on it is unchanged |
| WindexLib.Windex.Address | lib/windex.js:68-83 | the URI is prefix, second token (`undefined` when missing) and suffix, plus `?body` for a GET with a body |
| WindexLib.Windex.Headers | lib/windex.js:87-93 | the form Content-Type for a non-GET body, then every configured header in order |
| WindexLib.Windex.Send | lib/windex.js:29-63 | a shorthand request opens its own verb, for any path, and is the request of `VERB path` |
| WindexLib.Windex.Proxy | lib/windex.js:143-173 | calling the proxied function requests LibSpec.Proxy's line with its leftover data |
| WindexLib.FillIn | lib/windex.js:152-156 | the defaults loop leaves the data equal to Template.FillDefaults |
| WindexLib.Format | lib/windex.js:159-164 | the placeholder loop computes Template.ProxyFormat: the progressively substituted line and the marked keys in order |
| WindexLib.DeleteAll | lib/windex.js:167-169 | the deletion loop leaves the data without exactly the marked keys |
| WindexLib.DeleteOneMore | lib/windex.js:167-169 | deleting the next marked key is filtering one more key out |
| SrcSpec.Request | src/windex.js:85-143 | defines a src request: the line through `ParseLine`, the body through `Serialize`, the first stub matching `StubString` answers, else the transport gets `RawUrl` encoded, `RequestHeaders` and the body of a non-GET; its properties are SentRequest, GetQuery, LiteralStubAnswers and ClockMakesUrlsDistinct |
| SrcSpec.RawUrl | src/windex.js:89-102 | defines the URI before `encodeURI`: prefix, path, suffix, `?body` for a GET with a body, and the cache token unless caching is on; TokenInjective and TokenOpensQuery state its token |
| SrcSpec.StubString | src/windex.js:90-98 | defines the string stubs are matched against: verb, space, path and the GET query, never the cache token; StubsIgnoreClockAndCache relies on this |
| SrcSpec.RequestHeaders | src/windex.js:116-122 | defines the header calls: the form Content-Type for a non-GET body when none is configured, then the configured headers; SentRequest states the order |
| SrcSpec.Negotiate | src/windex.js:145-174 | defines how src reads a response: '' for an empty body, an error without a Content-Type, the parser of the first registered segment, else the text; ParserFrom, ParametersIgnored and FirstRegisteredSegmentWins state its choice |
| SrcSpec.UnsetOptionsBreakSerialize | src/windex.js:38-42 | as written, a client built without options keeps no options, and serializing then fails (the Findings row) |
| SrcSpec.ApplyDefaults | src/windex.js:38-42 | as intended, every given option is kept and every absent one takes the module default |
| SrcSpec.DefaultsMakeSerializeTotal | src/windex.js:38-42 | with the defaults applied, the option-less client serializes with the flat fallback instead of failing |
| SrcSpec.Serialize | src/windex.js:176-189 | a serializer registered under the Content-Type header decides; otherwise the result is the flat leaves of the object, unencoded, joined by '&' |
| SrcSpec.EmptyObjectSerializesToNothing | src/windex.js:181-188 | without a serializer an empty object serializes to '' |
| SrcSpec.StubsIgnoreClockAndCache | src/windex.js:100-112 | a stubbed answer depends on neither the clock nor the cache option |
| SrcSpec.CacheOnIgnoresClock | src/windex.js:100-102 | with caching on, the clock reading changes nothing |
| SrcSpec.TokenInjective | src/windex.js:101 | two cache tokens on the same URI are equal only for equal clock readings |
| SrcSpec.ClockMakesUrlsDistinct | src/windex.js:100-114 | with caching off, requests sent at different times go to different encoded URLs |
| SrcSpec.SentRequest | src/windex.js:114-140 | a sent request decodes back to the raw URI; only non-GET requests carry the body; the configured headers come last, after the form header exactly when needed |
| SrcSpec.GetQuery | src/windex.js:95-102 | a GET with data carries `?data` in both the URI and the stub string, and the token follows after '&' |
| SrcSpec.TokenOpensQuery | src/windex.js:101 | without a query, the token opens one with '?' |
| SrcSpec.LiteralStubAnswers | src/windex.js:104-112 | a string stub without pattern metacharacters registered first for `VERB path` answers that request, with the whole string as the only match |
| SrcSpec.ShorthandRequest | src/windex.js:49-83 | a shorthand never fails to parse, whatever its path, and when no stub answers it sends its own verb |
| SrcSpec.ParserFrom | src/windex.js:152-171 | the chosen segment is the first non-empty one with a registered parser; none is chosen only when no segment qualifies |
| SrcSpec.Settle | src/windex.js:124-134 | the status error occurs exactly for statuses other than 200 and 304; accepted responses are negotiated |
| SrcSpec.ParametersIgnored | src/windex.js:150-157 | parameters after a registered media type do not change how the body is read |
| SrcSpec.FirstRegisteredSegmentWins | src/windex.js:152-157 | an unregistered first segment is skipped and the registered one after it parses |
| LibSpec.Request | lib/windex.js:65-113 | defines a lib request: verb and path from the space split, the data stamped by SentData, the body from Query.Bracketed, the URI from Url and the calls from Headers; BodyUnlessGet, UncachedGet and CacheTokenLast state its properties |
| LibSpec.Url | lib/windex.js:68-83 | defines the opened URI: prefix, path, suffix and `?body` for a GET with a body; UncachedGet and CachedWithoutData state it for concrete requests |
| LibSpec.Headers | lib/windex.js:87-93 | defines the header calls: the form Content-Type for a non-GET body, then the configured headers; FormHeaderWhenBody states when the form header appears |
| LibSpec.Proxy | lib/windex.js:143-173 | defines one call of the proxied function: defaults filled, placeholders formatted, marked keys deleted, the line requested; ProxyRequests and ProxySendsTheRest state its properties |
| LibSpec.LineTokens | lib/windex.js:67-68 | `verb path` splits back into the upper-cased verb and the path |
| LibSpec.OneToken | lib/windex.js:67-68 | a line without a space is all verb, and its path prints as `undefined` |
| LibSpec.ThirdTokenDropped | lib/windex.js:68 | whatever follows a second space never reaches the URI |
| LibSpec.SentData | lib/windex.js:73-75 | with caching off the data gains `_<ts>` = '1' and every other key keeps its value; with caching on it is unchanged |
| LibSpec.CacheTokenLast | lib/windex.js:73-79 | with caching off the token `_<ts>=1` is the last pair of the body, after the data's own pairs |
| LibSpec.UncachedGet | lib/windex.js:73-83 | an uncached GET always has a query that ends with the token, and no body |
| LibSpec.CachedWithoutData | lib/windex.js:65-93 | a cached request without data opens exactly prefix, path and suffix with the configured headers |
| LibSpec.BodyUnlessGet | lib/windex.js:107-111 | a GET sends no body, and any other verb sends the serialized data |
| LibSpec.FormHeaderWhenBody | lib/windex.js:87-93 | the form Content-Type is added exactly when a non-GET request has a non-empty body |
| LibSpec.ShorthandRequest | lib/windex.js:29-68 | a shorthand opens its own verb on the prefixed first space-separated token of its path, which is the whole path when it has no space |
| LibSpec.Negotiate | lib/windex.js:116-128 | an error only comes from a parser registered under the whole Content-Type; an unregistered, empty or missing type returns the text |
| LibSpec.Settle | lib/windex.js:95-105 | the status error occurs exactly for statuses other than 200 and 304; accepted responses are negotiated |
| LibSpec.AgreesWithSrcOnBareType | lib/windex.js:116-128 | for a non-empty body and a Content-Type without parameters, both versions negotiate alike |
| LibSpec.DiffersFromSrcOnParameters | lib/windex.js:116-128 | with parameters after the media type, lib returns the text where src parses |
| LibSpec.ProxyRequests | lib/windex.js:143-173 | the proxy requests the substituted line (Template.Substitute, without slash tidying) with the unmarked rest of the filled data |
| LibSpec.ProxySendsTheRest | lib/windex.js:152-169 | a marked key leaves the data; any other key is sent with its filled value |
| Template.FromSpec | src/windex.js:255-260 | defines the builder's initial state; FromVerbAndPath, FromPathOnly, FromThreeOrMoreTokens and NoArgumentsIsBlank state it per shape of the line |
| Template.One | src/windex.js:302-305 | defines `one(res)`; AppendsJoin, OneRendersPlaceholder and OneRendersValue state its effect |
| Template.Many | src/windex.js:307-319 | defines `many(res)`; AppendsJoin, ManyDefaults and the ManyRenders lemmas state its effect |
| Template.All | src/windex.js:321-324 | defines `all(res)`; AppendsJoin states its effect |
| Template.Merge | src/windex.js:392-398 | defines the copy of `use`'s argument into the defaults; MergeLookup and MergeOverwrites state each key's value |
| Template.Render | src/windex.js:369-390 | defines `toString(data)`: fill, substitute, tidy; RenderWithoutPlaceholders and the One/Many rendering lemmas state its results |
| Template.Substitute | src/windex.js:382-386 | defines the placeholder loop of `toString`; SubstituteNoPlaceholder and SubstituteTwoPlaceholders state its results |
| Template.Tidy | src/windex.js:389 | defines the two slash replacements: the first run of slashes collapsed to one '/' (`CollapseFirstRun`), then one trailing '/' removed (`TrimTrailingSlash`); CollapseAt, TrimTrailingSlash, TidyRun, TidyTrailingRun and TidyDropsOnlySlashes state them |
| Template.Prepare | src/windex.js:333-357 | defines what `now(data)` requests; PreparePartitions, PrepareWithoutPlaceholders and PrepareSinglePlaceholder state it |
| Template.ProxyFormat | lib/windex.js:159-164 | defines the proxy's placeholder loop; ProxyFormatIsSubstitute and ProxyRestKeys state its results |
| Template.FromVerbAndPath | src/windex.js:255-259 | `verb path` without other spaces gives the upper-cased verb and the path |
| Template.FromPathOnly | src/windex.js:255-259 | a single token is the path, with the verb GET |
| Template.FromThreeOrMoreTokens | src/windex.js:255-259 | with more than two tokens the verb is GET and the path is only the first token |
| Template.NoArgumentsIsBlank | src/windex.js:255-260 | `url()` starts in the state `wipe()` returns to |
| Template.AppendsJoin | src/windex.js:302-324 | building a path from empty with `all`/`one`/`many` joins the pieces with '/' |
| Template.ManyDefaults | src/windex.js:307-319 | `many` gives `limit` and `page` the value '' only when they are absent, and keeps every other default |
| Template.LastAccessorWins | src/windex.js:263-286 | after several accessors only the last decides the verb; path and defaults are untouched |
| Template.FillDefaults | src/windex.js:376-380 | filling keeps the data's entries, in place, as a prefix |
| Template.FillDefaultsLookup | src/windex.js:376-380 | after filling, a key is present when the data or the defaults have it; the data's value wins |
| Template.FillDefaultsUnique | src/windex.js:339-343 | filling keeps the keys distinct |
| Template.MergeLookup | src/windex.js:392-398 | after `use`, a key is present when either side has it, and keys the argument lacks keep their values |
| Template.MergeOverwrites | src/windex.js:392-398 | every key of `use`'s argument ends up with the argument's value |
| Template.UseOverwrites | src/windex.js:392-398 | `use` keeps verb and path, and a key's new default is the argument's value if given, else the old one |
| Template.Without | src/windex.js:351-354 | the entries left are exactly those whose key is not among the deleted ones |
| Template.DeleteWithout | src/windex.js:353 | deleting one more key is filtering one more key out |
| Template.SubstituteNoPlaceholder | src/windex.js:382-386 | a line without ':' is not changed by any data |
| Template.RenderWithoutPlaceholders | src/windex.js:369-390 | a template without placeholders renders the same with or without data |
| Template.DropSlashes | src/windex.js:389 | only a leading run of '/' is dropped, and the rest does not start with '/' |
| Template.TrimTrailingSlash | src/windex.js:389 | at most one final character is removed, and it is removed exactly when it is '/' |
| Template.CollapseAt | src/windex.js:389 | the first run of slashes, and only it, becomes one '/' |
| Template.TidyRun | src/windex.js:389 | `a//b` tidies to `a/b` |
| Template.TidyTrailingRun | src/windex.js:389 | a line ending in its first run of slashes loses the whole run |
| Template.TidyDropsOnlySlashes | src/windex.js:389 | tidying introduces no character except '/' |
| Template.OneRendersPlaceholder | src/windex.js:369-390 | `url().one(res).toString()` keeps the placeholder: `VERB res/:res` |
| Template.OneRendersValue | src/windex.js:369-390 | `url().one(res).toString({res: v})` is `VERB res/v`, unencoded |
| Template.ManyRendersBare | src/windex.js:369-390 | `url().many(res).toString({})` drops both empty paging values with their slashes |
| Template.ManyRendersLimit | src/windex.js:369-390 | `url().many(res).toString({limit: l})` is `VERB res/l` |
| Template.ManyRendersLimitAndPage | src/windex.js:369-390 | `url().many(res).toString({limit: l, page: p})` is `VERB res/l/p` |
| Template.SubstituteTwoPlaceholders | src/windex.js:382-386 | two placeholders in a row are replaced in order |
| Template.Bound | src/windex.js:345-349 | the substitution map holds a key's data value exactly when its placeholder occurs in the URL |
| Template.BoundFrom | src/windex.js:345-352 | every entry moved into the substitution map is an entry of the data |
| Template.BoundUnique | src/windex.js:345-352 | the substitution map has distinct keys |
| Template.PreparePartitions | src/windex.js:333-357 | the data `now` forwards holds exactly the filled keys whose placeholder does not occur, and the substitution map exactly the others |
| Template.PrepareWithoutPlaceholders | src/windex.js:333-357 | a template without placeholders forwards all the filled data and renders unchanged |
| Template.PrepareSinglePlaceholder | src/windex.js:333-357 | a path that is one placeholder with a default requests the given value, or else the default, and forwards nothing |
| Template.ProxyFormatIsSubstitute | lib/windex.js:159-164 | the proxy's formatted line is `toString`'s substitution, and only data keys are marked |
| Template.ProxyRestKeys | lib/windex.js:166-169 | a key stays in the proxy's data exactly when it was not marked, with its filled value |
| Http.ParseLine | src/windex.js:87-88 | defines the match of `^([a-zA-Z]+)?\s+?(.*)` and the defaulted, upper-cased verb; ParseVerbAndPath, ParsePathOnly, BareWordFails and StrayFirstCharacterFails state when it matches and what it captures |
| Http.HeaderValue | src/windex.js:177 | the header's value is found exactly when some header has that name, and it is that header's value |
| Http.ParseVerbAndPath | src/windex.js:87-88 | letters, a space and a path parse to the upper-cased letters and the path up to its first line terminator, the whole path when it is one line |
| Http.ParsePathOnly | src/windex.js:87-88 | a line starting with white space has the verb GET |
| Http.BareWordFails | src/windex.js:87-88 | a bare word such as `users` does not match the pattern |
| Http.StrayFirstCharacterFails | src/windex.js:87-88 | a line starting with neither a letter nor white space does not match |
| Http.ShorthandVerb | src/windex.js:49-83 | every shorthand's verb is a non-empty word of upper-case letters |
| Http.ShorthandLine | src/windex.js:49-88 | a shorthand's line always parses, to its own verb and the path up to its first line terminator (the whole of a one-line path) |
| Http.FirstMatchFrom | src/windex.js:104-112 | the found stub matches and no earlier one does; none is found only when no stub matches |
| Http.FirstMatchIsLeast | src/windex.js:104-112 | any matching stub is at or after the one that answers |
| Http.FirstMatchAppend | src/windex.js:246-249 | registering a stub never changes which earlier stub answers, and the new one answers only what none before matched |
| JsValues.Lookup | src/windex.js:340 | a key is found exactly when the object has it, with the value of an entry under that key |
| JsValues.Put | src/windex.js:394 | assignment gives the key the value, keeps an existing key's place, appends a new key, and changes no other key |
| JsValues.Delete | src/windex.js:353 | `delete` removes the key and changes no other key |
| JsValues.LookupUnique | src/windex.js:352 | in an object with distinct keys, an entry's key finds that entry |
| JsValues.NatToString | src/windex.js:101 | the numeral of the clock reading is digits without a leading zero |
| JsValues.NatToStringRoundTrip | src/windex.js:101 | reading the numeral back gives the number |
| JsValues.NatToStringInjective | src/windex.js:101 | distinct clock readings have distinct numerals |
| Strings.IndexFrom | src/windex.js:346 | the match found is the first occurrence at or after the start, and none is found only when there is none |
| Strings.ContainsIff | src/windex.js:346 | `url.match(':' + b)` succeeds exactly when the placeholder occurs somewhere |
| Strings.ReplaceFirstAt | src/windex.js:384 | `replace` rewrites the first occurrence and nothing else |
| Strings.Split | lib/windex.js:67-68 | `split` never yields an empty list, and no piece holds the separator |
| Strings.JoinSplit | src/windex.js:150 | joining a split with its separator gives the string back |
| Strings.SplitJoin | lib/windex.js:140 | splitting a join of separator-free pieces gives the pieces back |
| Strings.Upper | src/windex.js:88 | upper-casing keeps the length and maps each character |
| Strings.UpperIdempotent | src/windex.js:258 | upper-casing leaves no lower-case ASCII letter and is idempotent |
| Percent.EncodeComponent | lib/windex.js:137 | defines `encodeURIComponent` over UTF-8 bytes; DecodeEncode, EncodeInjective, EncodeAlphabet and EncodeKept state its properties |
| Percent.EncodeUri | src/windex.js:114 | defines `encodeURI`, which also keeps the URI's reserved characters; the same lemmas state its properties |
| Percent.DecodeUtf8 | lib/windex.js:137 | decoding a character's UTF-8 bytes gives the character back |
| Percent.HexRoundTrip | lib/windex.js:137 | an upper-case hex digit reads back as its value |
| Percent.DecodeEncode | lib/windex.js:137 | decoding inverts both `encodeURIComponent` and `encodeURI` |
| Percent.EncodeInjective | src/windex.js:114 | different URIs never encode alike |
| Percent.EncodeAlphabet | lib/windex.js:137 | every character of an encoding is kept as it was or is '%' |
| Percent.EncodeKept | lib/windex.js:137 | a string of kept characters is its own encoding |
| Percent.EncodeNonEmpty | lib/windex.js:137 | a non-empty string encodes to a non-empty one |
| Query.Bracketed | lib/windex.js:130-141 | defines lib's serializer; BracketedIsLeaves and QueryRoundTrip state what it writes and that it can be read back |
| Query.Flat | src/windex.js:181-188 | defines src's fallback serializer; FlatIsLeaves, FlatIgnoresParentKey and FlatAgreesOnFlatObjects state what it writes |
| Query.BracketedPieces | lib/windex.js:133-138 | one piece per property, in order, each the property's serialization |
| Query.BracketedIsLeaves | lib/windex.js:130-141 | the bracketed serialization is exactly the rendered leaves, each under its full bracketed key, joined by '&' |
| Query.LeavesEmpty | lib/windex.js:130-141 | only the empty object has no leaves |
| Query.FlatObjectLeaves | lib/windex.js:134-137 | a flat object yields one `key=value` per property, in order, without brackets |
| Query.NestedLeaves | lib/windex.js:134-137 | a nested object or array lists its leaves under `key[child]` |
| Query.EncodedHasNo | lib/windex.js:137 | an encoded key or value holds no '&' or '=' |
| Query.ParseRenderItem | lib/windex.js:137 | a rendered pair has no '&' and parses back to the same key and value |
| Query.ParseRenderedPieces | lib/windex.js:137-140 | the rendered pieces parse back to the items in order |
| Query.QueryRoundTrip | lib/windex.js:130-141 | the query is unambiguous: splitting on '&' and decoding gives back every leaf with its bracketed key, in order |
| Query.FlatPieces | src/windex.js:183-186 | one flat piece per property, in order |
| Query.FlatIsLeaves | src/windex.js:176-189 | the flat serialization is exactly its leaves, unencoded, joined by '&' |
| Query.FlatIgnoresParentKey | src/windex.js:185 | the flat serializer drops the parent key of a nested object |
| Query.FlatAgreesOnFlatObjects | src/windex.js:183-186 | on a flat object both serializers list the same pairs; only the encoding differs |

## Left out

- XMLHttpRequest, promises and module wrapping are not modelled.
  - `xhr` and its factory loop are not modelled.
  - The Q deferreds, the UMD wrapper and JSON are not modelled.
  - The transport is a recorded `Dispatch`.
  - A finished response is a `Response` input.
  - A call with `readyState` other than 4 does nothing and is not modelled.
- A thrown error becomes an `Err` result instead of an exception in a callback:
  - the status error;
  - a throwing parser;
  - a failed request-line match;
  - a missing Content-Type header on a non-empty body (src).
- `gen` and `later` are not modelled, because they only wrap `Url` objects in
  closures. `later()` returns a function that calls `now`, which is modelled.
- Calling `Windex(opts)` without `new` is not modelled.
- `new Date().getTime()` is the parameter `ts`.
- Time is a natural number.
- Regular expressions:
  - A string stub becomes `^s$`. It is modelled as exact equality, and a
    pattern with metacharacters is an abstract `Matcher`.
  - A placeholder `:key` is looked up and replaced as a literal substring. The
    regex meaning of metacharacters in keys and `$` patterns in replacement
    values are not modelled.
- `encodeURIComponent` and `encodeURI` throw URIError on a lone surrogate. Dafny's `char` has no surrogates, so that error path is not modelled.
- Numbers are integers. Floating-point values and their printing are not
  modelled.
- `undefined` values are not modelled. A property that holds `undefined` is
  treated as absent.
- Key order is insertion order. JavaScript's ordering of integer-like keys
  first is not modelled.
- Inherited enumerable properties seen by `for…in` are not modelled.
- `toUpperCase` is modelled on ASCII letters only.
- Data and defaults arguments are objects or absent; absent becomes `{}`.
  - A non-object data argument (a string passed as data) is not modelled.
  - In src `request`, absent data (`data || {}`) is the empty object.
- Aliasing: a `Url` built with a caller's defaults object mutates that object
  through `many` and `use`. The model copies the defaults as a value, so that
  sharing is not captured.
- WindexSrc.Url.Now: requires that the caller's data has distinct keys, which
  every JavaScript object has. The same object can be given two spellings in
  the model, and those are excluded.
- LibSpec.Negotiate: the catch branch at lib/windex.js:122-124 refers to
  `deferred`, which is not in scope there. A throwing parser therefore raises a
  ReferenceError. The model reports it as `ParseFailure`, the error the code
  evidently meant to report.
- LibSpec.Negotiate: lib's negotiate and settle have no loop and no state. They
  are functions only, with no method in the class.
- WindexLib.Windex.Proxy: `proxy(url, defaults)` returns a closure. The model
  is one call of that closure with its data.

## Findings

| source | as written | input that shows it | evidently intended | confidence | as-written member | corrected member |
|---|---|---|---|---|---|---|
| src/windex.js:38-42 | the defaulting loop compares each absent option with `===` and discards the result, so no default is ever set | `new Windex()` then `get('users')`: `serialize` reads `this.opts.serializers[this.opts.headers['Content-Type']]` with `headers` undefined and throws | `opts[a] = defaults[a]` for every absent option | high (not executed) | SrcSpec.UnsetOptionsBreakSerialize | SrcSpec.DefaultsMakeSerializeTotal |
