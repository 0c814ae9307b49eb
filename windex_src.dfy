/**
 * The client of src/windex.js as objects: a `Windex` holding its options and
 * its stubs, and the fluent `Url` builder whose verb, path and defaults its
 * operators update in place.  Each method is specified against the functions
 * of SrcSpec and Template.
 */
module WindexSrc {
  import opened Wrappers
  import opened Strings
  import opened JsValues
  import opened Http
  import T = Template
  import SrcSpec
  import Query
  import Percent

  class Windex {
    var opts: SrcSpec.Opts
    var stubs: seq<Stub>

    /** `new Windex(opts)`, with every absent option set to its default. */
    constructor(arg: Option<SrcSpec.OptionsArg>, parse: Parser, stringify: SrcSpec.Serializer)
      ensures opts == SrcSpec.ApplyDefaults(arg.GetOr(SrcSpec.NoOptions()), parse, stringify)
      ensures stubs == []
    {
      opts := SrcSpec.ApplyDefaults(arg.GetOr(SrcSpec.NoOptions()), parse, stringify);
      stubs := [];
    }

    /** `stub(uri, data)`: registers one more stub, after all the others, and returns the client. */
    method AddStub(pattern: Pattern, reply: Reply) returns (self: Windex)
      modifies this
      ensures stubs == old(stubs) + [Stub(pattern, reply)]
      ensures opts == old(opts)
      ensures self == this
    {
      stubs := stubs + [Stub(pattern, reply)];
      self := this;
    }

    /**
     * `serialize(obj)`: the registered serializer for the Content-Type header,
     * or a loop that pushes `key=value` for each property and the nested
     * serialization for each object-valued one, joined by '&'.
     */
    method Serialize(obj: Dict) returns (s: string)
      ensures s == SrcSpec.Serialize(opts, obj)
      decreases obj
    {
      var key := HeaderValue(opts.headers, "Content-Type").GetOr("undefined");
      if key in opts.serializers {
        s := opts.serializers[key](obj);
        return;
      }
      var str: seq<string> := [];
      var i := 0;
      while i < |obj|
        invariant 0 <= i <= |obj|
        invariant str == Query.FlatPieces(obj[..i])
      {
        var piece: string;
        match obj[i].val {
          case Obj(d) => piece := Serialize(d);
          case Arr(d) => piece := Serialize(d);
          case Null => piece := Serialize([]);
          case Str(_) => piece := obj[i].key + "=" + ToStr(obj[i].val);
          case Num(_) => piece := obj[i].key + "=" + ToStr(obj[i].val);
          case Bool(_) => piece := obj[i].key + "=" + ToStr(obj[i].val);
        }
        assert piece == Query.FlatPiece(obj[i]);
        TakeOneMore(obj, i);
        QueryPiecesSnoc(obj[..i], obj[i]);
        str := str + [piece];
        i := i + 1;
      }
      TakeAll(obj);
      s := Join(str, "&");
    }

    /**
     * `request(spec, data)` with the clock reading `ts`: parses the request
     * line, serializes the data, builds the URI and the stub string, scans the
     * stubs in order and either answers from the first that matches or
     * dispatches to the transport.
     */
    method Request(spec: string, data: Dict, ts: nat) returns (r: Result<SrcSpec.Outcome, Failure>)
      ensures r == SrcSpec.Request(opts, stubs, spec, data, ts)
    {
      var parts := ParseLine(spec);
      if parts.Err? {
        return Err(parts.error);
      }
      var line := parts.value;
      var body := Serialize(data);
      var uri, stubUri := Address(line, body, ts);
      var found := FindStub(stubUri);
      if found.Some? {
        var i := found.value;
        return Ok(SrcSpec.Stubbed(Answer(stubs[i].reply, MatchStub(stubs[i].pattern, stubUri).value)));
      }
      var headers := Headers(line.verb, body);
      r := Ok(SrcSpec.Sent(Dispatch(line.verb, Percent.EncodeUri(uri), headers,
        if line.verb == "GET" then None else Some(body))));
    }

    /**
     * The URI the transport opens (before `encodeURI`) and the string the
     * stubs are matched against: a GET with a body carries it as the query,
     * and with caching off the URI gets the token `_<ts>=1`.
     */
    method Address(line: RequestLine, body: string, ts: nat) returns (uri: string, stubUri: string)
      ensures uri == SrcSpec.RawUrl(opts, line, body, ts)
      ensures stubUri == SrcSpec.StubString(line, body)
    {
      uri := opts.prefix + line.path + opts.suffix;
      stubUri := line.verb + " " + line.path;
      if body != "" && line.verb == "GET" {
        uri := uri + ("?" + body);
        stubUri := stubUri + ("?" + body);
      }
      if !opts.cache {
        uri := uri + ((if '?' in uri then "&" else "?") + "_" + NatToString(ts) + "=1");
      }
    }

    /** The loop over the stubs: the index of the first whose pattern matches. */
    method FindStub(stubUri: string) returns (found: Option<nat>)
      ensures found == FirstMatch(stubs, stubUri)
    {
      var i := 0;
      while i < |stubs|
        invariant 0 <= i <= |stubs|
        invariant FirstMatch(stubs, stubUri) == FirstMatchFrom(stubs, stubUri, i)
      {
        if MatchStub(stubs[i].pattern, stubUri).Some? {
          return Some(i);
        }
        i := i + 1;
      }
      found := None;
    }

    /** The header calls: the form Content-Type when needed, then a loop over the configured headers. */
    method Headers(verb: string, body: string) returns (headers: seq<Header>)
      ensures headers == SrcSpec.RequestHeaders(opts, verb, body)
    {
      headers := [];
      if body != "" && verb != "GET" && HeaderValue(opts.headers, "Content-Type").None? {
        headers := [FormHeader()];
      }
      var start := headers;
      var h := 0;
      while h < |opts.headers|
        invariant 0 <= h <= |opts.headers|
        invariant headers == start + opts.headers[..h]
      {
        headers := headers + [opts.headers[h]];
        h := h + 1;
      }
      TakeAll(opts.headers);
    }

    /** `get(url, data)`, `post(url, data)`, …: a request with the shorthand's verb in front of the path. */
    method Send(m: Shorthand, path: string, data: Dict, ts: nat) returns (r: Result<SrcSpec.Outcome, Failure>)
      ensures r.Ok?
      ensures r == SrcSpec.Request(opts, stubs, ShorthandVerb(m) + " " + path, data, ts)
    {
      SrcSpec.ShorthandRequest(m, opts, stubs, path, data, ts);
      r := Request(ShorthandVerb(m) + " " + path, data, ts);
    }

    /**
     * `negotiate(request)`: '' for an empty body; otherwise a loop over the
     * ';'-separated segments of the Content-Type that parses with the first
     * segment that has a parser, and returns the text when none has.
     */
    method Negotiate(response: Response) returns (r: Result<Value, Failure>)
      ensures r == SrcSpec.Negotiate(opts.parsers, response)
    {
      if response.body == "" {
        return Ok(Str(""));
      }
      if response.contentType.None? {
        return Err(MissingContentType);
      }
      var contentTypes := Split(response.contentType.value, ';');
      var a := 0;
      while a < |contentTypes|
        invariant 0 <= a <= |contentTypes|
        invariant SrcSpec.ParserFrom(contentTypes, opts.parsers, 0) == SrcSpec.ParserFrom(contentTypes, opts.parsers, a)
      {
        var contentType := contentTypes[a];
        if contentType != "" && contentType in opts.parsers {
          var parsed := opts.parsers[contentType](response.body);
          if parsed.None? {
            return Err(ParseFailure(response.body, contentType));
          }
          return Ok(parsed.value);
        }
        a := a + 1;
      }
      r := Ok(Str(response.body));
    }

    /** The `onreadystatechange` handler once the request is done: the status gate, then negotiation. */
    method Settle(response: Response) returns (r: Result<Value, Failure>)
      ensures r == SrcSpec.Settle(opts.parsers, response)
    {
      if response.status != 200 && response.status != 304 {
        return Err(UnexpectedStatus(response.status, response.statusText));
      }
      r := Negotiate(response);
    }

    /** `url(spec, defaults)`: a new builder bound to this client. */
    method NewUrl(spec: Option<string>, defaults: Option<Dict>) returns (u: Url)
      ensures fresh(u) && u.client == this
      ensures u.State() == T.FromSpec(spec.GetOr(""), defaults.GetOr([]))
    {
      u := new Url(this, spec, defaults);
    }
  }

  /** `if (typeof d[k] === 'undefined') d[k] = v`. */
  method PutAbsent(d: Dict, k: string, v: Value) returns (r: Dict)
    ensures r == T.PutIfAbsent(d, k, v)
  {
    r := d;
    if !Has(d, k) {
      r := JsValues.Put(d, k, v);
    }
  }

  /** `uri += (uri ? '/' : '') + res + '/:limit/:page'` appends the resource and both paging placeholders. */
  lemma ManyUri(uri: string, res: string)
    ensures uri + (if uri != "" then "/" else "") + res + "/:limit/:page"
         == T.Append(uri, res + "/" + T.Placeholder("limit") + "/" + T.Placeholder("page"))
  {
    AppendSpelling(uri, res, "/:limit/:page");
    assert res + "/:limit/:page" == res + "/" + T.Placeholder("limit") + "/" + T.Placeholder("page");
  }

  lemma QueryPiecesSnoc(obj: Dict, e: Entry)
    ensures Query.FlatPieces(obj + [e]) == Query.FlatPieces(obj) + [Query.FlatPiece(e)]
  {
  }

  /** The fluent builder of src/windex.js:255-399. */
  class Url {
    const client: Windex
    var verb: string
    var uri: string
    var defaults: Dict

    /** The builder's state as a value. */
    function State(): T.Template
      reads this
    {
      T.Template(verb, uri, defaults)
    }

    /**
     * `new Url(windex, uri, defaults)`: a two-token `VERB path` sets the
     * upper-cased verb and the path; otherwise the verb is GET and the path
     * is the first token.
     */
    constructor(client: Windex, spec: Option<string>, defaults: Option<Dict>)
      ensures this.client == client
      ensures State() == T.FromSpec(spec.GetOr(""), defaults.GetOr([]))
    {
      var parts := Split(spec.GetOr(""), ' ');
      this.client := client;
      verb := if |parts| == 2 then Upper(parts[0]) else "GET";
      uri := if |parts| == 2 then parts[1] else parts[0];
      this.defaults := defaults.GetOr([]);
    }

    /** The accessors `get`, `add`, `update`, `replace` and `delete`: set the verb, return the builder. */
    method Select(a: T.Accessor) returns (self: Url)
      modifies this
      ensures State() == T.WithVerb(old(State()), T.VerbOf(a))
      ensures self == this
    {
      verb := T.VerbOf(a);
      self := this;
    }

    /** `and`: changes nothing. */
    method And() returns (self: Url)
      ensures self == this
    {
      self := this;
    }

    /** `to`: changes nothing. */
    method To() returns (self: Url)
      ensures self == this
    {
      self := this;
    }

    /** `one(res)`: appends `res/:res`. */
    method One(res: string) returns (self: Url)
      modifies this
      ensures State() == T.One(old(State()), res)
      ensures self == this
    {
      uri := uri + (if uri != "" then "/" else "") + res + "/:" + res;
      assert "/:" + res == "/" + T.Placeholder(res);
      self := this;
    }

    /** `many(res)`: appends `res/:limit/:page` and defaults `limit` and `page` to '' when absent. */
    method Many(res: string) returns (self: Url)
      modifies this
      ensures State() == T.Many(old(State()), res)
      ensures self == this
    {
      var u := uri + (if uri != "" then "/" else "") + res + "/:limit/:page";
      ManyUri(uri, res);
      var withLimit := PutAbsent(defaults, "limit", Str(""));
      var withPage := PutAbsent(withLimit, "page", Str(""));
      uri, defaults := u, withPage;
      self := this;
    }

    /** `all(res)`: appends `res`. */
    method All(res: string) returns (self: Url)
      modifies this
      ensures State() == T.All(old(State()), res)
      ensures self == this
    {
      uri := uri + (if uri != "" then "/" else "") + res;
      self := this;
    }

    /** `wipe()`: back to GET, the empty path and no defaults. */
    method Wipe() returns (self: Url)
      modifies this
      ensures State() == T.Blank()
      ensures self == this
    {
      verb := "GET";
      uri := "";
      defaults := [];
      self := this;
    }

    /** `use(d)`: copies every property of `d` over the defaults, in order. */
    method Use(d: Dict) returns (self: Url)
      modifies this
      ensures State() == T.Use(old(State()), d)
      ensures self == this
    {
      var i := 0;
      while i < |d|
        invariant 0 <= i <= |d|
        invariant verb == old(verb) && uri == old(uri)
        invariant T.Merge(defaults, d[i..]) == T.Merge(old(defaults), d)
      {
        assert d[i..][1..] == d[i + 1..];
        defaults := JsValues.Put(defaults, d[i].key, d[i].val);
        i := i + 1;
      }
      self := this;
    }

    /**
     * `toString(data)`: with data, a loop fills the absent defaults into it and
     * a loop replaces, key by key, the first occurrence of each `:key`; then
     * the first run of slashes collapses and one trailing slash goes.  The
     * second result is the caller's data object afterwards.
     */
    method ToString(data: Option<Dict>) returns (s: string, filled: Option<Dict>)
      ensures s == T.Render(State(), data)
      ensures filled == T.FilledBy(State(), data)
    {
      var url := verb + " " + uri;
      filled := data;
      if data.Some? {
        var d := FillInto(data.value);
        var b := 0;
        while b < |d|
          invariant 0 <= b <= |d|
          invariant T.Substitute(url, d[b..]) == T.Substitute(T.Line(State()), d)
        {
          assert d[b..][1..] == d[b + 1..];
          var p := ":" + d[b].key;
          if Contains(url, p) {
            url := ReplaceFirst(url, p, ToStr(d[b].val));
          }
          b := b + 1;
        }
        filled := Some(d);
      }
      s := T.Tidy(url);
    }

    /** `for (a in this.defaults) if (typeof data[a] === 'undefined') data[a] = this.defaults[a]`. */
    method FillInto(data: Dict) returns (d: Dict)
      ensures d == T.FillDefaults(data, defaults)
    {
      d := data;
      var a := 0;
      while a < |defaults|
        invariant 0 <= a <= |defaults|
        invariant T.FillDefaults(d, defaults[a..]) == T.FillDefaults(data, defaults)
      {
        assert defaults[a..][1..] == defaults[a + 1..];
        if !Has(d, defaults[a].key) {
          d := JsValues.Put(d, defaults[a].key, defaults[a].val);
        }
        a := a + 1;
      }
    }

    /**
     * `now(data)`: fills the defaults into the data, moves every key whose
     * placeholder occurs in the unsubstituted rendering into a substitution
     * map, and requests the rendering of that map with the data left over.
     * The second result is the caller's data object afterwards.
     */
    method Now(data: Option<Dict>, ts: nat) returns (r: Result<SrcSpec.Outcome, Failure>, leftover: Dict)
      requires UniqueKeys(data.GetOr([]))
      ensures var call := T.Prepare(State(), data.GetOr([]));
              && leftover == call.data
              && r == SrcSpec.Request(client.opts, client.stubs, call.line, call.data, ts)
    {
      var url, _ := ToString(None);
      var d := FillInto(data.GetOr([]));
      T.FillDefaultsUnique(data.GetOr([]), defaults);
      var remove := BoundKeys(url, d);
      var repl, rest := Detach(url, d, remove);
      var line, _ := ToString(Some(repl));
      r := client.Request(line, rest, ts);
      leftover := rest;
    }
  }

  /** The loop of `now` that collects every key whose placeholder occurs in the URL. */
  method BoundKeys(url: string, d: Dict) returns (remove: seq<string>)
    ensures remove == Keys(T.Bound(url, d))
  {
    remove := [];
    var b := 0;
    while b < |d|
      invariant 0 <= b <= |d|
      invariant remove == Keys(T.Bound(url, d[..b]))
    {
      BoundKeysSnoc(url, d[..b], d[b]);
      TakeOneMore(d, b);
      if Contains(url, T.Placeholder(d[b].key)) {
        remove := remove + [d[b].key];
      }
      b := b + 1;
    }
    TakeAll(d);
  }

  /**
   * The loop of `now` that copies each collected key's value into the
   * substitution map and deletes the key from the data.
   */
  method Detach(url: string, d: Dict, remove: seq<string>) returns (repl: Dict, rest: Dict)
    requires UniqueKeys(d) && remove == Keys(T.Bound(url, d))
    ensures repl == T.Bound(url, d)
    ensures rest == T.Without(d, remove)
  {
    repl := [];
    rest := d;
    var c := 0;
    assert rest == T.Without(d, remove[..c]) by {
      assert remove[..0] == [];
      T.WithoutNothing(d);
    }
    while c < |remove|
      invariant 0 <= c <= |remove|
      invariant rest == T.Without(d, remove[..c])
      invariant repl == T.Bound(url, d)[..c]
    {
      DetachStep(url, d, remove, c);
      var k := remove[c];
      repl := JsValues.Put(repl, k, Lookup(rest, k).value);
      rest := JsValues.Delete(rest, k);
      c := c + 1;
    }
    TakeAll(T.Bound(url, d));
    TakeAll(remove);
  }

  /** One more entry adds its key exactly when its placeholder occurs. */
  lemma {:induction false} BoundKeysSnoc(url: string, d: Dict, e: Entry)
    ensures Keys(T.Bound(url, d + [e]))
         == Keys(T.Bound(url, d)) + (if Contains(url, T.Placeholder(e.key)) then [e.key] else [])
  {
    var tail := if Contains(url, T.Placeholder(e.key)) then [e.key] else [];
    if d == [] {
      BoundKeysCons(url, [e]);
      assert [e][1..] == [];
    } else {
      var de := d + [e];
      DropHeadSnoc(d, e);
      var head := if Contains(url, T.Placeholder(d[0].key)) then [d[0].key] else [];
      BoundKeysCons(url, de);
      BoundKeysSnoc(url, d[1..], e);
      BoundKeysCons(url, d);
      ConcatAssoc(head, Keys(T.Bound(url, d[1..])), tail);
    }
  }

  /** The keys `Bound` keeps from a non-empty dictionary: its first key if bound, then the rest's. */
  lemma BoundKeysCons(url: string, d: Dict)
    requires d != []
    ensures Keys(T.Bound(url, d))
         == (if Contains(url, T.Placeholder(d[0].key)) then [d[0].key] else []) + Keys(T.Bound(url, d[1..]))
  {
    if Contains(url, T.Placeholder(d[0].key)) {
      KeysCons([d[0]] + T.Bound(url, d[1..]));
      assert ([d[0]] + T.Bound(url, d[1..]))[1..] == T.Bound(url, d[1..]);
    }
  }

  /** `uri += (uri ? '/' : '') + a + b` appends the piece `a + b`. */
  lemma AppendSpelling(uri: string, a: string, b: string)
    ensures uri + (if uri != "" then "/" else "") + a + b == T.Append(uri, a + b)
  {
  }

  /**
   * One step of `now`'s last loop: the key is still in the data with its bound
   * value, is not yet in the substitution map, and deleting it filters it out.
   */
  lemma DetachStep(url: string, d: Dict, remove: seq<string>, c: nat)
    requires UniqueKeys(d) && remove == Keys(T.Bound(url, d)) && c < |remove|
    ensures Lookup(T.Without(d, remove[..c]), remove[c]) == Some(T.Bound(url, d)[c].val)
    ensures JsValues.Put(T.Bound(url, d)[..c], remove[c], T.Bound(url, d)[c].val) == T.Bound(url, d)[..c + 1]
    ensures JsValues.Delete(T.Without(d, remove[..c]), remove[c]) == T.Without(d, remove[..c + 1])
  {
    var bound := T.Bound(url, d);
    var k := remove[c];
    T.BoundUnique(url, d);
    TakeOneMore(bound, c);
    TakeOneMore(remove, c);
    assert k !in remove[..c] by {
      forall j | 0 <= j < c ensures remove[j] != k {
        assert remove[j] == bound[j].key;
      }
    }
    assert Lookup(d, k) == Some(bound[c].val) by {
      BoundEntryValue(url, d, c);
    }
    assert !Has(bound[..c], k) by {
      forall j | 0 <= j < c ensures Keys(bound[..c])[j] != k {
        assert Keys(bound[..c])[j] == bound[j].key;
      }
    }
    T.DeleteWithout(d, remove[..c], k);
  }

  /** A bound entry's value is what the data holds under its key. */
  lemma BoundEntryValue(url: string, d: Dict, c: nat)
    requires UniqueKeys(d) && c < |T.Bound(url, d)|
    ensures Lookup(d, T.Bound(url, d)[c].key) == Some(T.Bound(url, d)[c].val)
  {
    var e := T.Bound(url, d)[c];
    T.BoundFrom(url, d, e);
    var i :| 0 <= i < |d| && d[i] == e;
    LookupUnique(d, i);
  }
}
