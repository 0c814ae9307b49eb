/**
 * The client of lib/windex.js as an object: its fields are the options a
 * caller may reassign, and its methods are specified against LibSpec.
 * `negotiate` has no loop and no state and is the function LibSpec.Negotiate.
 */
module WindexLib {
  import opened Wrappers
  import opened Strings
  import opened JsValues
  import opened Http
  import Query
  import Percent
  import T = Template
  import LibSpec

  class Windex {
    var cache: bool
    var headers: seq<Header>
    var parsers: map<string, Parser>
    var prefix: string
    var suffix: string

    /** The client's options as a value. */
    function Config(): LibSpec.Config
      reads this
    {
      LibSpec.Config(cache, headers, parsers, prefix, suffix)
    }

    /** `new Windex()`: no caching, JSON accepted and parsed with `parse`, prefix '/', no suffix. */
    constructor(parse: Parser)
      ensures Config() == LibSpec.Initial(parse)
    {
      cache := false;
      headers := [Header("Accept", "application/json")];
      var json: map<string, Parser> := map["application/json" := parse];
      parsers := json;
      prefix := "/";
      suffix := "";
    }

    /**
     * `serialize(obj, prefix)`: a loop that pushes, for each property, the
     * nested serialization of an object value under `prefix[key]`, or the
     * encoded `key=value`; the pieces are joined by '&'.
     */
    method Serialize(obj: Dict, keyPrefix: string) returns (s: string)
      ensures s == Query.Bracketed(obj, keyPrefix)
      decreases obj
    {
      var str: seq<string> := [];
      var i := 0;
      while i < |obj|
        invariant 0 <= i <= |obj|
        invariant str == Query.BracketedPieces(obj[..i], keyPrefix)
      {
        var k := Query.NestedKey(keyPrefix, obj[i].key);
        var piece: string;
        match obj[i].val {
          case Obj(d) => piece := Serialize(d, k);
          case Arr(d) => piece := Serialize(d, k);
          case Null => piece := Serialize([], k);
          case Str(_) => piece := Percent.EncodeComponent(k) + "=" + Percent.EncodeComponent(ToStr(obj[i].val));
          case Num(_) => piece := Percent.EncodeComponent(k) + "=" + Percent.EncodeComponent(ToStr(obj[i].val));
          case Bool(_) => piece := Percent.EncodeComponent(k) + "=" + Percent.EncodeComponent(ToStr(obj[i].val));
        }
        assert piece == Query.BracketedPiece(obj[i], keyPrefix);
        BracketedPiecesSnoc(obj[..i], obj[i], keyPrefix);
        TakeOneMore(obj, i);
        str := str + [piece];
        i := i + 1;
      }
      TakeAll(obj);
      s := Join(str, "&");
    }

    /**
     * `request(url, data)` with the clock reading `ts`: the verb and path from
     * the line's first two tokens, the cache token written into the data, the
     * body serialized, a GET's body moved into the query, and the header calls
     * made in order.  The second result is the data object afterwards.
     */
    method Request(spec: string, data: Dict, ts: nat) returns (d: Dispatch, sent: Dict)
      ensures (d, sent) == LibSpec.Request(Config(), spec, data, ts)
    {
      var verb := Upper(Split(spec, ' ')[0]);
      sent := Stamp(data, ts);
      var body := Serialize(sent, "");
      var url := Address(spec, verb, body);
      var calls := Headers(verb, body);
      d := Dispatch(verb, url, calls, if verb == "GET" then None else Some(body));
    }

    /** The cache token `_<ts>=1` written into the data unless caching is on. */
    method Stamp(data: Dict, ts: nat) returns (sent: Dict)
      ensures sent == LibSpec.SentData(Config(), data, ts)
    {
      sent := data;
      if !cache {
        sent := JsValues.Put(sent, "_" + NatToString(ts), Str("1"));
      }
    }

    /** The URI: prefix, the line's second token, suffix and, for a GET with a body, `?` and the body. */
    method Address(spec: string, verb: string, body: string) returns (url: string)
      ensures url == LibSpec.Url(Config(), verb, LibSpec.PathOf(spec), body)
    {
      var parts := Split(spec, ' ');
      url := prefix + (if |parts| >= 2 then parts[1] else "undefined") + suffix;
      if body != "" && verb == "GET" {
        url := url + ("?" + body);
      }
    }

    /** The header calls: the form Content-Type for a non-GET body, then a loop over the configured headers. */
    method Headers(verb: string, body: string) returns (calls: seq<Header>)
      ensures calls == LibSpec.Headers(Config(), verb, body)
    {
      calls := [];
      if body != "" && verb != "GET" {
        calls := [FormHeader()];
      }
      var start := calls;
      var h := 0;
      while h < |headers|
        invariant 0 <= h <= |headers|
        invariant calls == start + headers[..h]
      {
        calls := calls + [headers[h]];
        h := h + 1;
      }
      TakeAll(headers);
    }

    /** `get(url, data)`, `post(url, data)`, …: a request with the shorthand's verb in front of the path. */
    method Send(m: Shorthand, path: string, data: Dict, ts: nat) returns (d: Dispatch, sent: Dict)
      ensures d.verb == ShorthandVerb(m)
      ensures (d, sent) == LibSpec.Request(Config(), ShorthandVerb(m) + " " + path, data, ts)
    {
      LibSpec.ShorthandRequest(m, Config(), path, data, ts);
      d, sent := Request(ShorthandVerb(m) + " " + path, data, ts);
    }

    /**
     * Calling `proxy(url, defaults)` with `data`: a loop fills the absent
     * defaults, a loop replaces the placeholder of each data key that occurs
     * and marks the key, a loop deletes the marked keys, and the formatted line
     * is requested with what is left.  The second result is the caller's data
     * object afterwards.
     */
    method Proxy(url: string, defaults: Option<Dict>, data: Option<Dict>, ts: nat) returns (d: Dispatch, leftover: Dict)
      ensures (d, leftover) == LibSpec.Proxy(Config(), url, defaults.GetOr([]), data.GetOr([]), ts)
    {
      var filled := FillIn(data.GetOr([]), defaults.GetOr([]));
      var formatted, remove := Format(url, filled);
      var rest := DeleteAll(filled, remove);
      d, leftover := Request(formatted, rest, ts);
    }
  }

  /** `Windex.create()`. */
  method Create(parse: Parser) returns (w: Windex)
    ensures fresh(w) && w.Config() == LibSpec.Initial(parse)
  {
    w := new Windex(parse);
  }

  /** The proxy's first loop: every default the data lacks is set. */
  method FillIn(data: Dict, defaults: Dict) returns (d: Dict)
    ensures d == T.FillDefaults(data, defaults)
  {
    d := data;
    var a := 0;
    while a < |defaults|
      invariant 0 <= a <= |defaults|
      invariant T.FillDefaults(d, defaults[a..]) == T.FillDefaults(data, defaults)
    {
      assert defaults[a..][1..] == defaults[a + 1..];
      if !Has(d, defaults[a].key) {
        d := JsValues.Put(d, defaults[a].key, defaults[a].val);
      }
      a := a + 1;
    }
  }

  /** The proxy's second loop: each data key whose placeholder occurs is substituted and marked. */
  method Format(url: string, data: Dict) returns (formatted: string, remove: seq<string>)
    ensures (formatted, remove) == T.ProxyFormat(url, data)
  {
    formatted := url;
    remove := [];
    var b := 0;
    assert data[b..] == data;
    assert [] + T.ProxyFormat(url, data).1 == T.ProxyFormat(url, data).1;
    while b < |data|
      invariant 0 <= b <= |data|
      invariant T.ProxyFormat(url, data)
             == (T.ProxyFormat(formatted, data[b..]).0, remove + T.ProxyFormat(formatted, data[b..]).1)
    {
      assert data[b..][1..] == data[b + 1..];
      var p := ":" + data[b].key;
      if Contains(formatted, p) {
        ghost var next := T.ProxyFormat(ReplaceFirst(formatted, p, ToStr(data[b].val)), data[b + 1..]);
        assert remove + ([data[b].key] + next.1) == (remove + [data[b].key]) + next.1;
        formatted := ReplaceFirst(formatted, p, ToStr(data[b].val));
        remove := remove + [data[b].key];
      }
      b := b + 1;
    }
    assert remove + [] == remove;
  }

  /** The proxy's third loop: `delete data[remove[c]]` for each marked key. */
  method DeleteAll(data: Dict, remove: seq<string>) returns (rest: Dict)
    ensures rest == T.Without(data, remove)
  {
    rest := data;
    var c := 0;
    assert rest == T.Without(data, remove[..c]) by {
      assert remove[..0] == [];
      T.WithoutNothing(data);
    }
    while c < |remove|
      invariant 0 <= c <= |remove|
      invariant rest == T.Without(data, remove[..c])
    {
      DeleteOneMore(data, remove, c);
      rest := JsValues.Delete(rest, remove[c]);
      c := c + 1;
    }
    TakeAll(remove);
  }

  lemma DeleteOneMore(data: Dict, remove: seq<string>, c: nat)
    requires c < |remove|
    ensures JsValues.Delete(T.Without(data, remove[..c]), remove[c]) == T.Without(data, remove[..c + 1])
  {
    TakeOneMore(remove, c);
    T.DeleteWithout(data, remove[..c], remove[c]);
  }

  lemma BracketedPiecesSnoc(obj: Dict, e: Entry, keyPrefix: string)
    ensures Query.BracketedPieces(obj + [e], keyPrefix)
         == Query.BracketedPieces(obj, keyPrefix) + [Query.BracketedPiece(e, keyPrefix)]
  {
  }
}
