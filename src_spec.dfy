/**
 * What the client of src/windex.js computes, as functions: its options and
 * their defaults, the fallback serializer, the request it dispatches (or the
 * stub that answers instead), and how it reads a response.  The `Windex`
 * class of WindexSrc is specified against these functions.
 */
module SrcSpec {
  import opened Wrappers
  import opened Strings
  import opened JsValues
  import opened Http
  import Query
  import Percent

  /** A serializer registered for a content type. */
  type Serializer = Dict -> string

  /** The object a caller passes to `new Windex(opts)`; an absent property is `None`. */
  datatype OptionsArg = OptionsArg(
    cache: Option<bool>,
    prefix: Option<string>,
    suffix: Option<string>,
    headers: Option<seq<Header>>,
    parsers: Option<map<string, Parser>>,
    serializers: Option<map<string, Serializer>>)

  /** `new Windex()` or `new Windex({})`. */
  function NoOptions(): OptionsArg {
    OptionsArg(None, None, None, None, None, None)
  }

  /** The options a client works with once every one is set. */
  datatype Opts = Opts(
    cache: bool,
    prefix: string,
    suffix: string,
    headers: seq<Header>,
    parsers: map<string, Parser>,
    serializers: map<string, Serializer>)

  /**
   * The module-level `defaults` (src/windex.js:10-27).  JSON's `parse` and
   * `stringify` are foreign and given as inputs.
   */
  function Defaults(parse: Parser, stringify: Serializer): Opts {
    Opts(false, "/", "", [Header("Accept", "application/json")],
      map["application/json" := parse], map["application/json" := stringify])
  }

  // ---- option defaulting: as written, and as intended ----

  /**
   * src/windex.js:38-42 as written: `opts[a] === defaults[a]` is a comparison
   * whose result is discarded, so the options are kept exactly as given.
   */
  function DefaultsAsWritten(arg: OptionsArg): OptionsArg {
    arg
  }

  /**
   * `serialize` (src/windex.js:176-178) on options that may lack properties:
   * reading a property of an undefined `headers` or `serializers` throws.
   */
  function SerializeAsWritten(arg: OptionsArg, obj: Dict): Result<string, Failure> {
    match (arg.headers, arg.serializers)
    case (Some(h), Some(s)) =>
      var key := HeaderValue(h, "Content-Type").GetOr("undefined");
      Ok(if key in s then s[key](obj) else Query.Flat(obj))
    case _ => Err(Unconfigured)
  }

  /**
   * As written, a client built without options is left with no options at
   * all, so its first request throws while serializing: `new Windex()`
   * followed by `get('users')` never reaches the transport.
   */
  lemma UnsetOptionsBreakSerialize(obj: Dict)
    ensures var arg := DefaultsAsWritten(NoOptions());
            && arg.prefix.None? && arg.serializers.None? && arg.headers.None?
            && SerializeAsWritten(arg, obj) == Err(Unconfigured)
  {
  }

  /** The evident intent: every absent option takes its default, every given one is kept. */
  function ApplyDefaults(arg: OptionsArg, parse: Parser, stringify: Serializer): (o: Opts)
    ensures arg.cache.Some? ==> o.cache == arg.cache.value
    ensures arg.cache.None? ==> o.cache == Defaults(parse, stringify).cache
    ensures arg.prefix.Some? ==> o.prefix == arg.prefix.value
    ensures arg.prefix.None? ==> o.prefix == Defaults(parse, stringify).prefix
    ensures arg.suffix.Some? ==> o.suffix == arg.suffix.value
    ensures arg.suffix.None? ==> o.suffix == Defaults(parse, stringify).suffix
    ensures arg.headers.Some? ==> o.headers == arg.headers.value
    ensures arg.headers.None? ==> o.headers == Defaults(parse, stringify).headers
    ensures arg.parsers.Some? ==> o.parsers == arg.parsers.value
    ensures arg.parsers.None? ==> o.parsers == Defaults(parse, stringify).parsers
    ensures arg.serializers.Some? ==> o.serializers == arg.serializers.value
    ensures arg.serializers.None? ==> o.serializers == Defaults(parse, stringify).serializers
  {
    var d := Defaults(parse, stringify);
    Opts(arg.cache.GetOr(d.cache), arg.prefix.GetOr(d.prefix), arg.suffix.GetOr(d.suffix),
      arg.headers.GetOr(d.headers), arg.parsers.GetOr(d.parsers), arg.serializers.GetOr(d.serializers))
  }

  /** The options of a client built with `ApplyDefaults`, written back as a complete options object. */
  function AsArg(o: Opts): OptionsArg {
    OptionsArg(Some(o.cache), Some(o.prefix), Some(o.suffix), Some(o.headers), Some(o.parsers), Some(o.serializers))
  }

  /**
   * With the defaults applied, the client built without options serializes
   * with the flat fallback (the default headers carry no Content-Type, so no
   * serializer applies) where the code as written throws.
   */
  lemma DefaultsMakeSerializeTotal(parse: Parser, stringify: Serializer, obj: Dict)
    ensures SerializeAsWritten(AsArg(ApplyDefaults(NoOptions(), parse, stringify)), obj) == Ok(Query.Flat(obj))
    ensures Serialize(ApplyDefaults(NoOptions(), parse, stringify), obj) == Query.Flat(obj)
  {
    var o := ApplyDefaults(NoOptions(), parse, stringify);
    assert o.headers == [Header("Accept", "application/json")];
    assert HeaderValue(o.headers, "Content-Type") == None by {
      assert o.headers[0].name != "Content-Type";
    }
    assert "undefined" !in o.serializers by {
      assert o.serializers == map["application/json" := stringify];
      assert "undefined" != "application/json";
    }
  }

  // ---- serialize (src/windex.js:176-189) ----

  /** The serializer `serialize` consults: the one registered under the Content-Type header. */
  function SerializerKey(o: Opts): string {
    HeaderValue(o.headers, "Content-Type").GetOr("undefined")
  }

  /**
   * `serialize(obj)`: a serializer registered under the Content-Type header
   * decides; otherwise the flat, unencoded fallback writes every leaf of the
   * object under its own key, joined by '&'.
   */
  function Serialize(o: Opts, obj: Dict): (r: string)
    ensures SerializerKey(o) in o.serializers ==> r == o.serializers[SerializerKey(o)](obj)
    ensures SerializerKey(o) !in o.serializers ==>
      r == Join(Query.RawItems(Query.FlatLeaves(obj)), "&")
  {
    Query.FlatIsLeaves(obj);
    if SerializerKey(o) in o.serializers then o.serializers[SerializerKey(o)](obj) else Query.Flat(obj)
  }

  /** Without a serializer, an empty object serializes to the empty string. */
  lemma EmptyObjectSerializesToNothing(o: Opts)
    requires SerializerKey(o) !in o.serializers
    ensures Serialize(o, []) == ""
  {
  }

  // ---- request (src/windex.js:85-143) ----

  /** How `request` ends: a stub answered, or the transport was asked to send. */
  datatype Outcome = Stubbed(value: Value) | Sent(dispatch: Dispatch)

  /** The query a GET request carries: `?data` when the serialized data is non-empty. */
  function QueryPart(verb: string, body: string): string {
    if body != "" && verb == "GET" then "?" + body else ""
  }

  /** The string the stubs are matched against: verb, path and query, never the cache token. */
  function StubString(line: RequestLine, body: string): string {
    line.verb + " " + line.path + QueryPart(line.verb, body)
  }

  /** The cache-busting pair `_<ts>=1`, after '&' when the URI has a query already and after '?' otherwise. */
  function CacheToken(uri: string, ts: nat): string {
    (if '?' in uri then "&" else "?") + "_" + NatToString(ts) + "=1"
  }

  /** The URI before `encodeURI`: prefix, path, suffix, query and, with caching off, the token. */
  function RawUrl(o: Opts, line: RequestLine, body: string, ts: nat): string {
    var uri := o.prefix + line.path + o.suffix + QueryPart(line.verb, body);
    if o.cache then uri else uri + CacheToken(uri, ts)
  }

  /**
   * The header calls: the form Content-Type first when a non-GET request has a
   * body and no Content-Type is configured, then every configured header in order.
   */
  function RequestHeaders(o: Opts, verb: string, body: string): seq<Header> {
    (if body != "" && verb != "GET" && HeaderValue(o.headers, "Content-Type").None? then [FormHeader()] else [])
      + o.headers
  }

  /**
   * `request(spec, data)` with the clock reading `ts`: the request line is
   * parsed, the data serialized, and the first stub that matches the stub
   * string answers; without one, the transport is asked to send.
   */
  function Request(o: Opts, stubs: seq<Stub>, spec: string, data: Dict, ts: nat): Result<Outcome, Failure> {
    match ParseLine(spec)
    case Err(e) => Err(e)
    case Ok(line) =>
      var body := Serialize(o, data);
      var s := StubString(line, body);
      match FirstMatch(stubs, s)
      case Some(i) => Ok(Stubbed(Answer(stubs[i].reply, MatchStub(stubs[i].pattern, s).value)))
      case None =>
        Ok(Sent(Dispatch(line.verb, Percent.EncodeUri(RawUrl(o, line, body, ts)),
          RequestHeaders(o, line.verb, body), if line.verb == "GET" then None else Some(body))))
  }

  /** A stubbed answer depends neither on the clock nor on the cache option. */
  lemma StubsIgnoreClockAndCache(o: Opts, stubs: seq<Stub>, spec: string, data: Dict, ts1: nat, ts2: nat, cache: bool)
    requires Request(o, stubs, spec, data, ts1).Ok? && Request(o, stubs, spec, data, ts1).value.Stubbed?
    ensures Request(o.(cache := cache), stubs, spec, data, ts2) == Request(o, stubs, spec, data, ts1)
  {
    var line := ParseLine(spec).value;
    assert Serialize(o.(cache := cache), data) == Serialize(o, data);
  }

  /** With caching on, the clock changes nothing. */
  lemma CacheOnIgnoresClock(o: Opts, stubs: seq<Stub>, spec: string, data: Dict, ts1: nat, ts2: nat)
    requires o.cache
    ensures Request(o, stubs, spec, data, ts1) == Request(o, stubs, spec, data, ts2)
  {
  }

  lemma {:induction false} TokenInjective(uri: string, ts1: nat, ts2: nat)
    requires uri + CacheToken(uri, ts1) == uri + CacheToken(uri, ts2)
    ensures ts1 == ts2
  {
    var sep := if '?' in uri then "&" else "?";
    var n1, n2 := NatToString(ts1), NatToString(ts2);
    var t1, t2 := CacheToken(uri, ts1), CacheToken(uri, ts2);
    assert t1 == (uri + t1)[|uri|..] == (uri + t2)[|uri|..] == t2;
    assert t1 == (sep + "_") + n1 + "=1";
    assert t2 == (sep + "_") + n2 + "=1";
    assert |n1| == |n2|;
    assert n1 == t1[2..2 + |n1|];
    assert n2 == t2[2..2 + |n2|];
    NatToStringInjective(ts1, ts2);
  }

  /**
   * With caching off, two requests sent at different times go to different
   * URLs: the token is the last thing in the URI, encoding is injective and
   * distinct numbers have distinct numerals.
   */
  lemma ClockMakesUrlsDistinct(o: Opts, stubs: seq<Stub>, spec: string, data: Dict, ts1: nat, ts2: nat)
    requires !o.cache && ts1 != ts2
    requires Request(o, stubs, spec, data, ts1).Ok? && Request(o, stubs, spec, data, ts1).value.Sent?
    ensures Request(o, stubs, spec, data, ts2).Ok? && Request(o, stubs, spec, data, ts2).value.Sent?
    ensures Request(o, stubs, spec, data, ts1).value.dispatch.url != Request(o, stubs, spec, data, ts2).value.dispatch.url
  {
    var line := ParseLine(spec).value;
    var body := Serialize(o, data);
    var u1, u2 := RawUrl(o, line, body, ts1), RawUrl(o, line, body, ts2);
    if Percent.EncodeUri(u1) == Percent.EncodeUri(u2) {
      Percent.EncodeInjective(u1, u2, true);
      TokenInjective(o.prefix + line.path + o.suffix + QueryPart(line.verb, body), ts1, ts2);
    }
  }

  /**
   * What a sent request carries: the transport URL decodes to the raw URI;
   * only a non-GET request has a body; the configured headers come last and
   * in order, preceded by the form Content-Type exactly when a non-GET
   * request has a body and none is configured.
   */
  lemma SentRequest(o: Opts, stubs: seq<Stub>, spec: string, data: Dict, ts: nat)
    requires Request(o, stubs, spec, data, ts).Ok? && Request(o, stubs, spec, data, ts).value.Sent?
    ensures var line := ParseLine(spec).value;
            var body := Serialize(o, data);
            var d := Request(o, stubs, spec, data, ts).value.dispatch;
            && d.verb == line.verb
            && Percent.Decode(d.url) == Some(RawUrl(o, line, body, ts))
            && (d.body.None? <==> line.verb == "GET")
            && (d.body.Some? ==> d.body.value == body)
            && |d.headers| >= |o.headers| && d.headers[|d.headers| - |o.headers|..] == o.headers
            && (d.headers != o.headers <==> body != "" && line.verb != "GET" && HeaderValue(o.headers, "Content-Type").None?)
            && (d.headers != o.headers ==> d.headers[0] == FormHeader())
  {
    var line := ParseLine(spec).value;
    Percent.DecodeEncode(RawUrl(o, line, Serialize(o, data), ts), true);
    var d := Request(o, stubs, spec, data, ts).value.dispatch;
    if d.headers != o.headers {
      assert d.headers == [FormHeader()] + o.headers;
    }
  }

  /**
   * A GET request with serialized data `body` carries it as its query in both
   * the transport URI and the stub string; the token, with caching off,
   * follows the query after '&' when the prefix, path and suffix hold no '?'.
   */
  lemma GetQuery(o: Opts, path: string, body: string, ts: nat)
    requires body != "" && '?' !in o.prefix + path + o.suffix
    ensures StubString(RequestLine("GET", path), body) == "GET " + path + "?" + body
    ensures RawUrl(o, RequestLine("GET", path), body, ts)
         == o.prefix + path + o.suffix + "?" + body + (if o.cache then "" else "&_" + NatToString(ts) + "=1")
  {
    var uri := o.prefix + path + o.suffix + "?" + body;
    assert QueryPart("GET", body) == "?" + body;
    assert '?' in uri by {
      assert uri[|o.prefix + path + o.suffix|] == '?';
    }
    assert "&" + "_" + NatToString(ts) + "=1" == "&_" + NatToString(ts) + "=1";
  }


  /**
   * Without a query the token opens one: a request whose prefix, path and
   * suffix hold no '?' and that carries no query gets `?_<ts>=1`.
   */
  lemma TokenOpensQuery(o: Opts, line: RequestLine, body: string, ts: nat)
    requires !o.cache && QueryPart(line.verb, body) == ""
    requires '?' !in o.prefix + line.path + o.suffix
    ensures RawUrl(o, line, body, ts) == o.prefix + line.path + o.suffix + "?_" + NatToString(ts) + "=1"
  {
    assert o.prefix + line.path + o.suffix + "" == o.prefix + line.path + o.suffix;
  }

  /**
   * A string stub registered first for `VERB path` answers a request for it
   * that carries no query, with the whole stub string as the only match.  The
   * path holds no pattern metacharacter, so `^VERB path$` matches that string
   * alone.
   */
  lemma LiteralStubAnswers(o: Opts, rest: seq<Stub>, verb: string, path: string, data: Dict, ts: nat, r: Reply)
    requires verb != [] && forall ch <- verb :: IsAsciiLetter(ch)
    requires forall ch <- path :: !IsLineTerminator(ch)
    requires forall ch <- path :: ch !in "\\^$.|?*+()[]{}"
    requires Upper(verb) != "GET" || Serialize(o, data) == ""
    ensures var s := Upper(verb) + " " + path;
            Request(o, [Stub(Literal(s), r)] + rest, verb + " " + path, data, ts) == Ok(Stubbed(Answer(r, [s])))
  {
    ParseVerbAndPath(verb, path);
    var s := Upper(verb) + " " + path;
    assert StubString(RequestLine(Upper(verb), path), Serialize(o, data)) == s;
    var stubs := [Stub(Literal(s), r)] + rest;
    assert Matches(stubs, 0, s);
  }

  /**
   * `windex.post(path)` and its siblings never fail to match the pattern, and
   * unless a stub answers they send their own verb.
   */
  lemma ShorthandRequest(m: Shorthand, o: Opts, stubs: seq<Stub>, path: string, data: Dict, ts: nat)
    ensures var line := RequestLine(ShorthandVerb(m), TakeLine(path));
            var body := Serialize(o, data);
            Request(o, stubs, ShorthandVerb(m) + " " + path, data, ts).Ok?
            && (FirstMatch(stubs, StubString(line, body)).None? ==>
                  Request(o, stubs, ShorthandVerb(m) + " " + path, data, ts).value.Sent?
                  && Request(o, stubs, ShorthandVerb(m) + " " + path, data, ts).value.dispatch.verb == ShorthandVerb(m))
  {
    ShorthandLine(m, path);
  }

  // ---- negotiate (src/windex.js:145-174) ----

  /** The index of the first non-empty segment, at or after `from`, that has a registered parser. */
  function ParserFrom(segments: seq<string>, parsers: map<string, Parser>, from: nat): (r: Option<nat>)
    ensures r.Some? ==> from <= r.value < |segments| && segments[r.value] != "" && segments[r.value] in parsers
    ensures r.Some? ==> forall j :: from <= j < r.value ==> segments[j] == "" || segments[j] !in parsers
    ensures r.None? ==> forall j :: from <= j < |segments| ==> segments[j] == "" || segments[j] !in parsers
    decreases |segments| - from
  {
    if from >= |segments| then None
    else if segments[from] != "" && segments[from] in parsers then Some(from)
    else ParserFrom(segments, parsers, from + 1)
  }

  /**
   * `negotiate(request)`: an empty body is ''; otherwise the Content-Type is
   * split on ';' and the first segment with a parser parses the body (a
   * parser that throws is an error); with none, the body is returned as text.
   */
  function Negotiate(parsers: map<string, Parser>, r: Response): Result<Value, Failure> {
    if r.body == "" then Ok(Str(""))
    else
      match r.contentType
      case None => Err(MissingContentType)
      case Some(ct) =>
        var segments := Split(ct, ';');
        match ParserFrom(segments, parsers, 0)
        case None => Ok(Str(r.body))
        case Some(i) =>
          match parsers[segments[i]](r.body)
          case Some(v) => Ok(v)
          case None => Err(ParseFailure(r.body, segments[i]))
  }

  /** The response handler: the status gate, then negotiation. */
  function Settle(parsers: map<string, Parser>, r: Response): (v: Result<Value, Failure>)
    ensures v == Err(UnexpectedStatus(r.status, r.statusText)) <==> !Accepted(r.status)
    ensures Accepted(r.status) ==> v == Negotiate(parsers, r)
  {
    match Gate(r)
    case Err(e) => Err(e)
    case Ok(r) => Negotiate(parsers, r)
  }

  /**
   * Parameters after a registered media type do not matter: the body of
   * `type; charset=…` is read as the body of `type` is.
   */
  lemma ParametersIgnored(parsers: map<string, Parser>, r: Response, mime: string, params: string)
    requires mime != "" && ';' !in mime && mime in parsers
    ensures Negotiate(parsers, r.(contentType := Some(mime + ";" + params)))
         == Negotiate(parsers, r.(contentType := Some(mime)))
  {
    SplitAfterPiece(mime, params, ';');
    assert mime + ";" + params == mime + [';'] + params;
    SplitNoSeparator(mime, ';');
  }

  /** A registered segment after an unregistered one decides: the first registered segment wins. */
  lemma FirstRegisteredSegmentWins(parsers: map<string, Parser>, r: Response, other: string, mime: string)
    requires r.body != "" && ';' !in other && ';' !in mime
    requires other !in parsers && mime != "" && mime in parsers
    ensures Negotiate(parsers, r.(contentType := Some(other + ";" + mime)))
         == match parsers[mime](r.body)
            case Some(v) => Ok(v)
            case None => Err(ParseFailure(r.body, mime))
  {
    SplitAfterPiece(other, mime, ';');
    assert other + ";" + mime == other + [';'] + mime;
    SplitNoSeparator(mime, ';');
    var segments := Split(other + ";" + mime, ';');
    assert segments == [other, mime];
    assert ParserFrom(segments, parsers, 1) == Some(1);
  }
}
