/**
 * What both versions of the client share: the request the transport receives,
 * the response it hands back, the status gate, the request-line pattern of
 * src/windex.js and the stubs that intercept requests before the transport.
 *
 * The XMLHttpRequest itself is not modelled: a `Dispatch` records what
 * `open`, `setRequestHeader` and `send` would be called with, and a `Response`
 * is the finished request (`readyState` 4) as an input.
 */
module Http {
  import opened Wrappers
  import opened Strings
  import opened JsValues

  /** One `setRequestHeader(name, value)` call, or one entry of a headers object. */
  datatype Header = Header(name: string, value: string)

  /** What the transport is asked to do: `open(verb, url)`, the header calls in order, `send(body)`. */
  datatype Dispatch = Dispatch(verb: string, url: string, headers: seq<Header>, body: Option<string>)

  /** A finished response: its status line, its `Content-Type` header (if any) and its text. */
  datatype Response = Response(status: int, statusText: string, contentType: Option<string>, body: string)

  /** The errors the client raises. */
  datatype Failure =
    | NoRequestLine(spec: string)              // the request-line pattern did not match
    | UnexpectedStatus(status: int, statusText: string)
    | MissingContentType                        // a body arrived without a Content-Type header
    | ParseFailure(body: string, contentType: string)
    | Unconfigured                              // an option the code reads was never set

  /** A parser registered for a content type; `None` is a thrown exception. */
  type Parser = string -> Option<Value>

  /** `headers['Content-Type']`: the value of the first header with that exact name. */
  function HeaderValue(headers: seq<Header>, name: string): (r: Option<string>)
    ensures r.Some? <==> exists i :: 0 <= i < |headers| && headers[i].name == name
    ensures r.Some? ==> exists i :: 0 <= i < |headers| && headers[i] == Header(name, r.value)
  {
    if headers == [] then None
    else if headers[0].name == name then Some(headers[0].value)
    else HeaderValue(headers[1..], name)
  }

  /** The header both versions add in front of the configured ones for a form body. */
  function FormHeader(): Header {
    Header("Content-Type", "application/x-www-form-urlencoded")
  }

  // ---- the status gate (src/windex.js:129-131, lib/windex.js:100-102) ----

  predicate Accepted(status: int) {
    status == 200 || status == 304
  }

  /** A finished response passes on only with status 200 or 304; any other status is an error. */
  function Gate(r: Response): (g: Result<Response, Failure>)
    ensures g.Ok? <==> Accepted(r.status)
    ensures g.Ok? ==> g.value == r
    ensures g.Err? ==> g.error == UnexpectedStatus(r.status, r.statusText)
  {
    if Accepted(r.status) then Ok(r) else Err(UnexpectedStatus(r.status, r.statusText))
  }

  // ---- the request line of src/windex.js:87-88 ----

  /** The verb and the path the pattern `^([a-zA-Z]+)?\s+?(.*)` captures. */
  datatype RequestLine = RequestLine(verb: string, path: string)

  /**
   * `url.match(/^([a-zA-Z]+)?\s+?(.*)/)` followed by `(parts[1] || 'GET').toUpperCase()`.
   * The optional group takes the longest run of ASCII letters; the lazy `\s+?`
   * takes exactly one white-space character; `(.*)` takes the rest of the line.
   * When the letters are not followed by white space, backing off to a shorter
   * run leaves a letter where `\s` must match, so the pattern fails, and so it
   * does when the string neither starts with a letter nor with white space.
   * A failed match makes `parts[1]` throw.
   */
  function ParseLine(s: string): Result<RequestLine, Failure> {
    var letters := LeadingLetters(s);
    var n := |letters|;
    if n < |s| && IsSpace(s[n]) then
      Ok(RequestLine(if n == 0 then "GET" else Upper(letters), TakeLine(s[n + 1..])))
    else Err(NoRequestLine(s))
  }

  lemma {:induction false} LeadingLettersOf(w: string, rest: string)
    requires forall ch <- w :: IsAsciiLetter(ch)
    requires rest == [] || !IsAsciiLetter(rest[0])
    ensures LeadingLetters(w + rest) == w
    decreases |w|
  {
    if w == [] {
      assert w + rest == rest;
    } else {
      assert (w + rest)[0] == w[0] && (w + rest)[1..] == w[1..] + rest;
      assert w[0] in w;
      LeadingLettersOf(w[1..], rest);
    }
  }

  lemma {:induction false} TakeWholeLine(s: string)
    requires forall ch <- s :: !IsLineTerminator(ch)
    ensures TakeLine(s) == s
    decreases |s|
  {
    if s != [] {
      assert s[0] in s;
      TakeWholeLine(s[1..]);
      assert [s[0]] + s[1..] == s;
    }
  }

  /**
   * A request line written as letters, a space and a path reads back as the
   * upper-cased letters and the path up to its first line terminator (`.`
   * stops there); a path of one line is read whole.
   */
  lemma ParseVerbAndPath(verb: string, path: string)
    requires verb != [] && forall ch <- verb :: IsAsciiLetter(ch)
    ensures ParseLine(verb + " " + path) == Ok(RequestLine(Upper(verb), TakeLine(path)))
    ensures (forall ch <- path :: !IsLineTerminator(ch)) ==>
              ParseLine(verb + " " + path) == Ok(RequestLine(Upper(verb), path))
  {
    var s := verb + " " + path;
    assert s == verb + (" " + path);
    LeadingLettersOf(verb, " " + path);
    assert s[|verb|] == ' ';
    assert s[|verb| + 1..] == path;
    if forall ch <- path :: !IsLineTerminator(ch) {
      TakeWholeLine(path);
    }
  }

  /** A line that starts with white space has the verb GET. */
  lemma ParsePathOnly(sp: char, path: string)
    requires IsSpace(sp)
    requires forall ch <- path :: !IsLineTerminator(ch)
    ensures ParseLine([sp] + path) == Ok(RequestLine("GET", path))
  {
    var s := [sp] + path;
    ConsParts(sp, path);
    assert !IsAsciiLetter(sp);
    assert LeadingLetters(s) == [];
    TakeWholeLine(path);
  }

  /** A bare word such as `users` has no white space after its letters, so the pattern fails. */
  lemma BareWordFails(w: string)
    requires forall ch <- w :: IsAsciiLetter(ch)
    ensures ParseLine(w).Err?
  {
    LeadingLettersOf(w, []);
    assert w + [] == w;
  }

  /** A line that starts with neither a letter nor white space fails. */
  lemma StrayFirstCharacterFails(s: string)
    requires s != [] && !IsAsciiLetter(s[0]) && !IsSpace(s[0])
    ensures ParseLine(s).Err?
  {
  }

  /** The shorthands `get`, `post`, … of both versions (src/windex.js:49-83, lib/windex.js:29-63). */
  datatype Shorthand = Get | Post | Put | Delete | Patch | Options | Head | Trace | Connect

  function ShorthandVerb(m: Shorthand): (v: string)
    ensures v != [] && forall ch <- v :: 'A' <= ch <= 'Z'
  {
    match m
    case Get => "GET"
    case Post => "POST"
    case Put => "PUT"
    case Delete => "DELETE"
    case Patch => "PATCH"
    case Options => "OPTIONS"
    case Head => "HEAD"
    case Trace => "TRACE"
    case Connect => "CONNECT"
  }

  /** Upper-casing an upper-case verb changes nothing. */
  lemma UpperOfUpper(v: string)
    requires forall ch <- v :: 'A' <= ch <= 'Z'
    ensures Upper(v) == v
  {
    forall i | 0 <= i < |v| ensures Upper(v)[i] == v[i] {
      assert v[i] in v;
    }
  }

  /**
   * `windex.get(path)` and its siblings always match the pattern: they request
   * their own verb and the path up to its first line terminator, which is the
   * whole path when it is one line.
   */
  lemma ShorthandLine(m: Shorthand, path: string)
    ensures ParseLine(ShorthandVerb(m) + " " + path) == Ok(RequestLine(ShorthandVerb(m), TakeLine(path)))
    ensures (forall ch <- path :: !IsLineTerminator(ch)) ==>
              ParseLine(ShorthandVerb(m) + " " + path) == Ok(RequestLine(ShorthandVerb(m), path))
  {
    var v := ShorthandVerb(m);
    assert forall ch <- v :: IsAsciiLetter(ch);
    ParseVerbAndPath(v, path);
    UpperOfUpper(v);
  }

  // ---- stubs (src/windex.js:104-112, 241-252) ----

  /**
   * What a stub is matched with.  A string is compiled to `^string$`, which
   * (for text without pattern metacharacters) matches exactly that string and
   * yields the whole match; any other pattern is an abstract matcher that
   * yields the match array or nothing.
   */
  datatype Pattern = Literal(text: string) | Matcher(test: string -> Option<seq<string>>)

  /** What a stub answers with: a handler applied to the match array, or a constant. */
  datatype Reply = Handler(handle: seq<string> -> Value) | Constant(value: Value)

  datatype Stub = Stub(pattern: Pattern, reply: Reply)

  /** `stubUri.match(stub.uri)`. */
  function MatchStub(p: Pattern, s: string): (r: Option<seq<string>>)
    ensures p.Literal? ==> (r.Some? <==> s == p.text)
    ensures p.Literal? && r.Some? ==> r.value == [s]
  {
    match p
    case Literal(text) => if s == text then Some([s]) else None
    case Matcher(test) => test(s)
  }

  /** `stub.data.apply(stub.data, params)`; a non-function value was wrapped to return itself. */
  function Answer(r: Reply, params: seq<string>): (v: Value)
    ensures r.Constant? ==> v == r.value
  {
    match r
    case Handler(handle) => handle(params)
    case Constant(value) => value
  }

  predicate Matches(stubs: seq<Stub>, i: nat, s: string)
    requires i < |stubs|
  {
    MatchStub(stubs[i].pattern, s).Some?
  }

  /** The index of the first stub, at or after `from`, that matches `s`. */
  function FirstMatchFrom(stubs: seq<Stub>, s: string, from: nat): (r: Option<nat>)
    ensures r.Some? ==> from <= r.value < |stubs| && Matches(stubs, r.value, s)
    ensures r.Some? ==> forall j :: from <= j < r.value ==> !Matches(stubs, j, s)
    ensures r.None? ==> forall j :: from <= j < |stubs| ==> !Matches(stubs, j, s)
    decreases |stubs| - from
  {
    if from >= |stubs| then None
    else if MatchStub(stubs[from].pattern, s).Some? then Some(from)
    else FirstMatchFrom(stubs, s, from + 1)
  }

  /** The stub that answers `s`: the first registered one that matches. */
  function FirstMatch(stubs: seq<Stub>, s: string): Option<nat> {
    FirstMatchFrom(stubs, s, 0)
  }

  /** The first match is the least matching index. */
  lemma FirstMatchIsLeast(stubs: seq<Stub>, s: string, i: nat)
    requires i < |stubs| && Matches(stubs, i, s)
    ensures FirstMatch(stubs, s).Some? && FirstMatch(stubs, s).value <= i
  {
  }

  /**
   * Registering another stub never changes which stub answers a string some
   * earlier stub matches, and a string no earlier stub matches is answered by
   * the new stub exactly when it matches.
   */
  lemma FirstMatchAppend(stubs: seq<Stub>, x: Stub, s: string)
    ensures FirstMatch(stubs, s).Some? ==> FirstMatch(stubs + [x], s) == FirstMatch(stubs, s)
    ensures FirstMatch(stubs, s).None? ==>
      FirstMatch(stubs + [x], s) == if MatchStub(x.pattern, s).Some? then Some(|stubs|) else None
  {
    var all := stubs + [x];
    match FirstMatch(stubs, s)
    case Some(i) =>
      assert Matches(all, i, s);
      FirstMatchIsLeast(all, s, i);
      var k := FirstMatch(all, s).value;
      assert Matches(stubs, k, s);
    case None =>
      if MatchStub(x.pattern, s).Some? {
        assert Matches(all, |stubs|, s);
        FirstMatchIsLeast(all, s, |stubs|);
        var k := FirstMatch(all, s).value;
        if k < |stubs| {
          assert Matches(stubs, k, s);
        }
      } else {
        if FirstMatch(all, s).Some? {
          var k := FirstMatch(all, s).value;
          if k < |stubs| {
            assert Matches(stubs, k, s);
          }
        }
      }
  }
}
