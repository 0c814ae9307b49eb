/**
 * What a request of lib/windex.js is: the verb and path come from splitting
 * the request line on spaces, the cache token is written into the data
 * before serialization, the data is serialized with bracketed, percent-encoded
 * keys, and the URI is sent as built (no `encodeURI`, no stubs).  The class
 * in WindexLib is specified against these functions.
 */
module LibSpec {
  import opened Wrappers
  import opened Strings
  import opened JsValues
  import opened Http
  import Query
  import Percent
  import SrcSpec
  import T = Template

  /** The fields of a lib `Windex`. */
  datatype Config = Config(
    cache: bool,
    headers: seq<Header>,
    parsers: map<string, Parser>,
    prefix: string,
    suffix: string)

  /** What the constructor sets: no caching, JSON accepted and parsed, prefix '/', no suffix. */
  function Initial(parse: Parser): Config {
    Config(false, [Header("Accept", "application/json")], map["application/json" := parse], "/", "")
  }

  // ---- the request line: `url.split(' ')` ----

  /** `url.split(' ')[0].toUpperCase()`. */
  function Verb(spec: string): string {
    Upper(Split(spec, ' ')[0])
  }

  /** `url.split(' ')[1]`, which is `undefined` (and prints so) when there is no space. */
  function PathOf(spec: string): string {
    var parts := Split(spec, ' ');
    if |parts| >= 2 then parts[1] else "undefined"
  }

  /** `verb path` with no other space splits back into the upper-cased verb and the path. */
  lemma LineTokens(verb: string, path: string)
    requires ' ' !in verb && ' ' !in path
    ensures Verb(verb + " " + path) == Upper(verb)
    ensures PathOf(verb + " " + path) == path
  {
    SplitAfterPiece(verb, path, ' ');
    SplitNoSeparator(path, ' ');
    assert verb + " " + path == verb + [' '] + path;
  }

  /** A line without a space has its whole text as verb and the path `undefined`. */
  lemma OneToken(w: string)
    requires ' ' !in w
    ensures Verb(w) == Upper(w)
    ensures PathOf(w) == "undefined"
  {
    SplitNoSeparator(w, ' ');
  }

  /** Only the second token is the path: whatever follows a second space is dropped. */
  lemma ThirdTokenDropped(verb: string, path: string, rest: string)
    requires ' ' !in verb && ' ' !in path
    ensures PathOf(verb + " " + path + " " + rest) == path
  {
    SplitAfterPiece(path, rest, ' ');
    SplitAfterPiece(verb, path + " " + rest, ' ');
    assert verb + " " + path + " " + rest == verb + [' '] + (path + [' '] + rest);
  }

  // ---- the request ----

  /** The key `'_' + new Date().getTime()` for the clock reading `ts`. */
  function CacheKey(ts: nat): string {
    "_" + NatToString(ts)
  }

  /**
   * The data object after the request: with caching off the token is set to
   * '1' in it.  It is the caller's own object when one was passed.
   */
  function SentData(c: Config, data: Dict, ts: nat): (d: Dict)
    ensures c.cache ==> d == data
    ensures !c.cache ==> Lookup(d, CacheKey(ts)) == Some(Str("1"))
    ensures forall k :: k != CacheKey(ts) ==> Lookup(d, k) == Lookup(data, k)
  {
    if c.cache then data else JsValues.Put(data, CacheKey(ts), Str("1"))
  }

  /** The URI `open` is called with: prefix, path, suffix and, for a GET with a body, the query. */
  function Url(c: Config, verb: string, path: string, body: string): string {
    c.prefix + path + c.suffix + (if body != "" && verb == "GET" then "?" + body else "")
  }

  /** The header calls: the form Content-Type for a non-GET body, then every configured header. */
  function Headers(c: Config, verb: string, body: string): seq<Header> {
    (if body != "" && verb != "GET" then [FormHeader()] else []) + c.headers
  }

  /**
   * `request(url, data)` with the clock reading `ts`: what the transport is
   * asked to do, and the data object afterwards.
   */
  function Request(c: Config, spec: string, data: Dict, ts: nat): (Dispatch, Dict) {
    var verb := Verb(spec);
    var sent := SentData(c, data, ts);
    var body := Query.Bracketed(sent, "");
    (Dispatch(verb, Url(c, verb, PathOf(spec), body), Headers(c, verb, body),
      if verb == "GET" then None else Some(body)), sent)
  }

  /**
   * With caching off the token `_<ts>=1` is always the last pair of the body:
   * alone for empty data, after the data's own pairs otherwise.
   */
  lemma CacheTokenLast(c: Config, data: Dict, ts: nat)
    requires !c.cache && !Has(data, CacheKey(ts))
    ensures Query.Bracketed(SentData(c, data, ts), "")
         == (if data == [] then "" else Query.Bracketed(data, "") + "&") + CacheKey(ts) + "=1"
  {
    var e := Entry(CacheKey(ts), Str("1"));
    assert SentData(c, data, ts) == data + [e];
    TokenPiece(ts);
    BracketedSnoc(data, e);
  }

  lemma TokenPiece(ts: nat)
    ensures Query.BracketedPiece(Entry(CacheKey(ts), Str("1")), "") == CacheKey(ts) + "=1"
  {
    var k := CacheKey(ts);
    forall ch <- k ensures Percent.Kept(ch, false) {
      if ch != '_' {
        assert ch in NatToString(ts);
      }
    }
    Percent.EncodeKept(k, false);
    Percent.EncodeKept("1", false);
  }

  /** Serializing one more property adds its piece at the end. */
  lemma BracketedSnoc(data: Dict, e: Entry)
    ensures Query.Bracketed(data + [e], "")
         == (if data == [] then "" else Query.Bracketed(data, "") + "&") + Query.BracketedPiece(e, "")
  {
    var ps := Query.BracketedPieces(data, "");
    var qs := Query.BracketedPieces(data + [e], "");
    assert qs == ps + [Query.BracketedPiece(e, "")];
    if data != [] {
      JoinAppend(ps, [Query.BracketedPiece(e, "")], "&");
    } else {
      assert qs == [Query.BracketedPiece(e, "")];
    }
  }

  /**
   * A GET with caching off always carries a query, which ends with the token:
   * the URI never repeats across clock readings.
   */
  lemma UncachedGet(c: Config, spec: string, data: Dict, ts: nat)
    requires !c.cache && !Has(data, CacheKey(ts)) && Verb(spec) == "GET"
    ensures var d := Request(c, spec, data, ts).0;
            d.url == c.prefix + PathOf(spec) + c.suffix + "?"
                     + (if data == [] then "" else Query.Bracketed(data, "") + "&") + CacheKey(ts) + "=1"
            && d.body.None?
  {
    var body := Query.Bracketed(SentData(c, data, ts), "");
    var q := if data == [] then "" else Query.Bracketed(data, "") + "&";
    CacheTokenLast(c, data, ts);
    assert body == q + CacheKey(ts) + "=1";
    assert body != "" by {
      assert |body| >= 2;
    }
    var pre := c.prefix + PathOf(spec) + c.suffix;
    assert Request(c, spec, data, ts).0.url == pre + ("?" + body);
    Regroup(pre, "?", q, CacheKey(ts), "=1");
  }

  lemma Regroup(a: string, b: string, c: string, d: string, e: string)
    ensures a + (b + (c + d + e)) == a + b + c + d + e
  {
  }

  /** With caching on and no data, a request opens exactly prefix, path and suffix. */
  lemma CachedWithoutData(c: Config, verb: string, path: string)
    requires c.cache && ' ' !in verb && ' ' !in path
    ensures var d := Request(c, verb + " " + path, [], 0).0;
            d.verb == Upper(verb) && d.url == c.prefix + path + c.suffix
            && d.headers == c.headers
            && (d.body.None? <==> Upper(verb) == "GET")
  {
    LineTokens(verb, path);
  }

  /**
   * A GET sends no body; any other verb sends the serialized data.
   */
  lemma BodyUnlessGet(c: Config, spec: string, data: Dict, ts: nat)
    ensures var (d, sent) := Request(c, spec, data, ts);
            (d.body.None? <==> d.verb == "GET")
            && (d.verb != "GET" ==> d.body == Some(Query.Bracketed(sent, "")))
  {
  }

  /** The form Content-Type goes first exactly when a non-GET request has a non-empty body. */
  lemma FormHeaderWhenBody(c: Config, verb: string, body: string)
    ensures Headers(c, verb, body) == [FormHeader()] + c.headers <==> body != "" && verb != "GET"
    ensures Headers(c, verb, body) == c.headers <==> body == "" || verb == "GET"
  {
    if body != "" && verb != "GET" {
      assert |Headers(c, verb, body)| == |c.headers| + 1;
    } else {
      assert |[FormHeader()] + c.headers| == |c.headers| + 1;
    }
  }

  /**
   * `windex.get(path)` and its siblings open their own verb on the path's
   * first space-separated token, which is the whole path when it has no space.
   */
  lemma ShorthandRequest(m: Shorthand, c: Config, path: string, data: Dict, ts: nat)
    ensures var (d, sent) := Request(c, ShorthandVerb(m) + " " + path, data, ts);
            d.verb == ShorthandVerb(m)
            && d.url == Url(c, ShorthandVerb(m), Split(path, ' ')[0], Query.Bracketed(sent, ""))
    ensures ' ' !in path ==>
              var (d, sent) := Request(c, ShorthandVerb(m) + " " + path, data, ts);
              d.url == Url(c, ShorthandVerb(m), path, Query.Bracketed(sent, ""))
  {
    var v := ShorthandVerb(m);
    assert forall ch <- v :: ch != ' ';
    SplitAfterPiece(v, path, ' ');
    assert v + " " + path == v + [' '] + path;
    assert Verb(v + " " + path) == Upper(v);
    assert PathOf(v + " " + path) == Split(path, ' ')[0];
    UpperOfUpper(v);
    if ' ' !in path {
      SplitNoSeparator(path, ' ');
    }
  }

  // ---- negotiate (lib/windex.js:116-128) ----

  /**
   * The parser registered under the whole Content-Type decides; without one
   * (or without the header) the text is returned as it is.  A throwing parser
   * is an error.
   */
  function Negotiate(parsers: map<string, Parser>, r: Response): (v: Result<Value, Failure>)
    ensures v.Err? ==> r.contentType.Some? && r.contentType.value in parsers
                       && v.error == ParseFailure(r.body, r.contentType.value)
    ensures (r.contentType.None? || r.contentType.value == "" || r.contentType.value !in parsers)
            ==> v == Ok(Str(r.body))
  {
    match r.contentType
    case Some(ct) =>
      if ct != "" && ct in parsers then
        match parsers[ct](r.body)
        case Some(value) => Ok(value)
        case None => Err(ParseFailure(r.body, ct))
      else Ok(Str(r.body))
    case None => Ok(Str(r.body))
  }

  /** The status gate, then negotiation. */
  function Settle(parsers: map<string, Parser>, r: Response): (v: Result<Value, Failure>)
    ensures v == Err(UnexpectedStatus(r.status, r.statusText)) <==> !Accepted(r.status)
    ensures Accepted(r.status) ==> v == Negotiate(parsers, r)
  {
    match Gate(r)
    case Err(e) => Err(e)
    case Ok(r) => Negotiate(parsers, r)
  }

  /** For a non-empty body and a bare media type both versions negotiate alike. */
  lemma AgreesWithSrcOnBareType(parsers: map<string, Parser>, r: Response, mime: string)
    requires r.body != "" && r.contentType == Some(mime) && ';' !in mime
    ensures Negotiate(parsers, r) == SrcSpec.Negotiate(parsers, r)
  {
    SplitNoSeparator(mime, ';');
  }

  /**
   * With parameters after the media type the versions part: src parses with
   * the media type's parser, lib finds no parser for the whole header and
   * returns the text.
   */
  lemma DiffersFromSrcOnParameters(parsers: map<string, Parser>, r: Response, mime: string, params: string)
    requires r.body != "" && mime != "" && ';' !in mime && mime in parsers
    requires mime + ";" + params !in parsers
    requires r.contentType == Some(mime + ";" + params)
    ensures Negotiate(parsers, r) == Ok(Str(r.body))
    ensures SrcSpec.Negotiate(parsers, r)
         == match parsers[mime](r.body)
            case Some(v) => Ok(v)
            case None => Err(ParseFailure(r.body, mime))
  {
    SplitAfterPiece(mime, params, ';');
    assert mime + ";" + params == mime + [';'] + params;
    var segments := Split(mime + ";" + params, ';');
    assert segments[0] == mime;
    assert SrcSpec.ParserFrom(segments, parsers, 0) == Some(0);
  }

  // ---- proxy (lib/windex.js:143-173) ----

  /**
   * Calling the function `proxy(url, defaults)` returns with `data`: the
   * defaults fill the data, each placeholder of a data key is replaced and the
   * key marked, the marked keys are deleted, and the rest is requested with
   * the formatted line.  The second result is the caller's data object
   * afterwards.
   */
  function Proxy(c: Config, url: string, defaults: Dict, data: Dict, ts: nat): (Dispatch, Dict) {
    var filled := T.FillDefaults(data, defaults);
    var (formatted, remove) := T.ProxyFormat(url, filled);
    Request(c, formatted, T.Without(filled, remove), ts)
  }

  /**
   * The proxy requests the line `toString` would substitute (without its slash
   * tidying) and sends what remains of the filled data once the substituted
   * keys are gone, plus the cache token.
   */
  lemma ProxyRequests(c: Config, url: string, defaults: Dict, data: Dict, ts: nat)
    ensures var filled := T.FillDefaults(data, defaults);
            Proxy(c, url, defaults, data, ts)
              == Request(c, T.Substitute(url, filled), T.ProxyRest(url, defaults, data), ts)
  {
    T.ProxyFormatIsSubstitute(url, T.FillDefaults(data, defaults));
  }

  /** A key the template mentions leaves the data; any other key is sent with its filled value. */
  lemma ProxySendsTheRest(c: Config, url: string, defaults: Dict, data: Dict, ts: nat, k: string)
    requires k != CacheKey(ts)
    ensures var filled := T.FillDefaults(data, defaults);
            Lookup(Proxy(c, url, defaults, data, ts).1, k)
              == if k in T.ProxyFormat(url, filled).1 then None else Lookup(filled, k)
  {
    T.ProxyRestKeys(url, defaults, data, k);
  }
}
