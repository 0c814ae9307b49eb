/**
 * The state of a `Url` (src/windex.js:255-399) as a value, and what its
 * operations mean: the transitions of the fluent builder, the rendering of
 * `toString(data)` and the split of the data that `now(data)` performs.  The
 * `Url` class of WindexSrc is specified against these functions.  The
 * placeholder binding of lib's `proxy` (lib/windex.js:143-173), the earlier form
 * of `now`, is specified here as well.
 */
module Template {
  import opened Wrappers
  import opened Strings
  import opened JsValues

  /** A `Url`: the verb (`type`), the path template (`uri`) and the defaults. */
  datatype Template = Template(verb: string, uri: string, defaults: Dict)

  /** `new Url(windex, uri, defaults)`, with `uri || ''` and `defaults || {}` already applied. */
  function FromSpec(spec: string, defaults: Dict): Template {
    var parts := Split(spec, ' ');
    if |parts| == 2 then Template(Upper(parts[0]), parts[1], defaults)
    else Template("GET", parts[0], defaults)
  }

  /** A space-free verb and path become the upper-cased verb and the path. */
  lemma FromVerbAndPath(verb: string, path: string, defaults: Dict)
    requires ' ' !in verb && ' ' !in path
    ensures FromSpec(verb + " " + path, defaults) == Template(Upper(verb), path, defaults)
  {
    SplitAfterPiece(verb, path, ' ');
    SplitNoSeparator(path, ' ');
  }

  /** A single token is the path, with the verb GET. */
  lemma FromPathOnly(path: string, defaults: Dict)
    requires ' ' !in path
    ensures FromSpec(path, defaults) == Template("GET", path, defaults)
  {
    SplitNoSeparator(path, ' ');
  }

  /** With more than two tokens the verb is GET and the path is the first token. */
  lemma FromThreeOrMoreTokens(a: string, b: string, rest: string, defaults: Dict)
    requires ' ' !in a && ' ' !in b
    ensures FromSpec(a + " " + b + " " + rest, defaults) == Template("GET", a, defaults)
  {
    assert a + " " + b + " " + rest == a + [' '] + (b + [' '] + rest);
    SplitAfterPiece(a, b + [' '] + rest, ' ');
    SplitAfterPiece(b, rest, ' ');
  }

  /** The state after `wipe()`, and after `url()` with no arguments. */
  function Blank(): Template {
    Template("GET", "", [])
  }

  lemma NoArgumentsIsBlank()
    ensures FromSpec("", []) == Blank()
  {
  }

  /** The placeholder `:key` that a value of `key` replaces. */
  function Placeholder(key: string): (p: string)
    ensures |p| == |key| + 1 && p[0] == ':'
  {
    ":" + key
  }

  /** `uri += (uri ? '/' : '') + piece`. */
  function Append(uri: string, piece: string): (r: string)
    ensures uri == "" ==> r == piece
    ensures uri != "" ==> r == uri + "/" + piece
  {
    uri + (if uri == "" then "" else "/") + piece
  }

  /** Building a path from the empty one joins the pieces with '/'. */
  lemma {:induction false} AppendsJoin(pieces: seq<string>)
    requires |pieces| >= 1 && forall p <- pieces :: p != ""
    ensures Append(Join(pieces[..|pieces| - 1], "/"), pieces[|pieces| - 1]) == Join(pieces, "/")
  {
    var n := |pieces|;
    if n > 1 {
      var init := pieces[..n - 1];
      assert init[0] in pieces;
      JoinNonEmpty(init);
      JoinAppend(init, [pieces[n - 1]], "/");
      assert init + [pieces[n - 1]] == pieces;
    }
  }

  lemma JoinNonEmpty(parts: seq<string>)
    requires |parts| >= 1 && parts[0] != ""
    ensures Join(parts, "/") != ""
  {
  }

  /** `one(res)`: appends `res/:res`. */
  function One(t: Template, res: string): Template {
    t.(uri := Append(t.uri, res + "/" + Placeholder(res)))
  }

  /** `all(res)`: appends `res`. */
  function All(t: Template, res: string): Template {
    t.(uri := Append(t.uri, res))
  }

  /** `d[k] = v` unless `d` already has `k`. */
  function PutIfAbsent(d: Dict, k: string, v: Value): Dict {
    if Has(d, k) then d else Put(d, k, v)
  }

  /** `many(res)`: appends `res/:limit/:page` and defaults `limit` and `page` to '' when absent. */
  function Many(t: Template, res: string): Template {
    var withLimit := PutIfAbsent(t.defaults, "limit", Str(""));
    Template(t.verb, Append(t.uri, res + "/" + Placeholder("limit") + "/" + Placeholder("page")), PutIfAbsent(withLimit, "page", Str("")))
  }

  /**
   * `many` keeps the verb, gives `limit` and `page` the value '' only when they
   * are absent, and leaves every other default as it was.
   */
  lemma ManyDefaults(t: Template, res: string, k: string)
    ensures Many(t, res).verb == t.verb
    ensures k == "limit" || k == "page" ==> Lookup(Many(t, res).defaults, k) == Some(Lookup(t.defaults, k).GetOr(Str("")))
    ensures k != "limit" && k != "page" ==> Lookup(Many(t, res).defaults, k) == Lookup(t.defaults, k)
  {
  }

  /** `use(defaults)`: copies every given default over the current ones. */
  function Use(t: Template, d: Dict): Template {
    t.(defaults := Merge(t.defaults, d))
  }

  /** The verb accessors `get`, `add`, `update`, `replace` and `delete`. */
  function WithVerb(t: Template, verb: string): Template {
    t.(verb := verb)
  }

  /** The verb an accessor sets: the accessor names of src/windex.js:263-269. */
  datatype Accessor = Get | Add | Update | Replace | Remove

  function VerbOf(a: Accessor): string {
    match a
    case Get => "GET"
    case Add => "POST"
    case Update => "PATCH"
    case Replace => "PUT"
    case Remove => "DELETE"
  }

  /** Only the last accessor used decides the verb, and none touches the path or defaults. */
  lemma LastAccessorWins(t: Template, accessors: seq<Accessor>)
    requires |accessors| >= 1
    ensures ApplyAccessors(t, accessors) == Template(VerbOf(accessors[|accessors| - 1]), t.uri, t.defaults)
  {
  }

  function ApplyAccessors(t: Template, accessors: seq<Accessor>): Template
    decreases |accessors|
  {
    if accessors == [] then t
    else ApplyAccessors(WithVerb(t, VerbOf(accessors[0])), accessors[1..])
  }

  // ---- ordered maps ----

  /**
   * `for (a in defaults) if (typeof data[a] === 'undefined') data[a] = defaults[a]`:
   * existing keys keep their values and place; absent ones are appended.
   */
  function FillDefaults(data: Dict, defaults: Dict): (r: Dict)
    ensures |r| >= |data| && r[..|data|] == data
    decreases defaults
  {
    if defaults == [] then data
    else
      var e := defaults[0];
      var next := if Has(data, e.key) then data else Put(data, e.key, e.val);
      var r := FillDefaults(next, defaults[1..]);
      PrefixOfPrefix(r, next, data);
      r
  }

  lemma PrefixOfPrefix(r: Dict, next: Dict, data: Dict)
    requires |r| >= |next| && r[..|next|] == next
    requires |next| >= |data| && next[..|data|] == data
    ensures |r| >= |data| && r[..|data|] == data
  {
    assert r[..|data|] == r[..|next|][..|data|];
  }

  /**
   * After filling, a key is present when the data or the defaults have it; the
   * data's value wins, and an absent key takes the defaults' value.
   */
  lemma {:induction false} FillDefaultsLookup(data: Dict, defaults: Dict, k: string)
    ensures Has(FillDefaults(data, defaults), k) <==> Has(data, k) || Has(defaults, k)
    ensures Lookup(FillDefaults(data, defaults), k)
         == if Has(data, k) then Lookup(data, k) else Lookup(defaults, k)
    decreases defaults
  {
    if defaults != [] {
      var e := defaults[0];
      var next := if Has(data, e.key) then data else Put(data, e.key, e.val);
      assert FillDefaults(data, defaults) == FillDefaults(next, defaults[1..]);
      FillDefaultsLookup(next, defaults[1..], k);
      KeysCons(defaults);
      assert Lookup(defaults, k) == if e.key == k then Some(e.val) else Lookup(defaults[1..], k);
      if k == e.key {
        assert Has(next, k);
        assert Lookup(next, k) == if Has(data, k) then Lookup(data, k) else Some(e.val);
      } else {
        assert Lookup(next, k) == Lookup(data, k);
      }
    }
  }

  /** Filling defaults keeps the keys distinct. */
  lemma {:induction false} FillDefaultsUnique(data: Dict, defaults: Dict)
    requires UniqueKeys(data)
    ensures UniqueKeys(FillDefaults(data, defaults))
    decreases defaults
  {
    if defaults != [] {
      var e := defaults[0];
      if !Has(data, e.key) {
        var next := Put(data, e.key, e.val);
        forall i, j | 0 <= i < j < |next| ensures next[i].key != next[j].key {
          if j == |data| {
            assert next[i].key == Keys(data)[i];
          }
        }
        FillDefaultsUnique(next, defaults[1..]);
      } else {
        FillDefaultsUnique(data, defaults[1..]);
      }
    }
  }

  /** `for (a in d) into[a] = d[a]`: keys already there keep their place. */
  function Merge(into: Dict, d: Dict): Dict
    decreases d
  {
    if d == [] then into else Merge(Put(into, d[0].key, d[0].val), d[1..])
  }

  /** After merging, a key is present when either side has it; keys `d` lacks keep their value. */
  lemma {:induction false} MergeLookup(into: Dict, d: Dict, k: string)
    ensures Has(Merge(into, d), k) <==> Has(into, k) || Has(d, k)
    ensures !Has(d, k) ==> Lookup(Merge(into, d), k) == Lookup(into, k)
    decreases d
  {
    if d != [] {
      MergeLookup(Put(into, d[0].key, d[0].val), d[1..], k);
      KeysCons(d);
    }
  }

  /** Every key of `use`'s argument ends up with the argument's value. */
  lemma UseOverwrites(t: Template, d: Dict, k: string)
    requires UniqueKeys(d)
    ensures Use(t, d).verb == t.verb && Use(t, d).uri == t.uri
    ensures Has(Use(t, d).defaults, k) <==> Has(t.defaults, k) || Has(d, k)
    ensures Lookup(Use(t, d).defaults, k) == if Has(d, k) then Lookup(d, k) else Lookup(t.defaults, k)
  {
    MergeLookup(t.defaults, d, k);
    MergeOverwrites(t.defaults, d, k);
  }

  lemma {:induction false} MergeOverwrites(into: Dict, d: Dict, k: string)
    requires UniqueKeys(d)
    ensures Has(d, k) ==> Lookup(Merge(into, d), k) == Lookup(d, k)
    decreases d
  {
    if d != [] {
      var e := d[0];
      var next := Put(into, e.key, e.val);
      KeysCons(d);
      assert Merge(into, d) == Merge(next, d[1..]);
      UniqueTail(d);
      if k == e.key {
        MergeLookup(next, d[1..], k);
      } else {
        MergeOverwrites(next, d[1..], k);
      }
    }
  }

  /** The entries of `d` whose key is not in `ks`, in order. */
  function Without(d: Dict, ks: seq<string>): (r: Dict)
    ensures forall k :: Lookup(r, k) == if k in ks then None else Lookup(d, k)
    ensures |r| <= |d|
  {
    if d == [] then []
    else if d[0].key in ks then Without(d[1..], ks)
    else [d[0]] + Without(d[1..], ks)
  }

  /** Deleting one more key is filtering one more key out. */
  lemma {:induction false} DeleteWithout(d: Dict, ks: seq<string>, k: string)
    ensures Delete(Without(d, ks), k) == Without(d, ks + [k])
  {
    if d != [] {
      DeleteWithout(d[1..], ks, k);
    }
  }

  // ---- rendering ----

  /**
   * `if (url.match(':' + b)) url = url.replace(':' + b, data[b])` for every key
   * in order: each present placeholder has its first occurrence replaced.
   */
  function Substitute(url: string, data: Dict): string
    decreases data
  {
    if data == [] then url
    else Substitute(ReplaceFirst(url, Placeholder(data[0].key), ToStr(data[0].val)), data[1..])
  }

  /** A line without ':' holds no placeholder, so no data changes it. */
  lemma {:induction false} SubstituteNoPlaceholder(url: string, data: Dict)
    requires ':' !in url
    ensures Substitute(url, data) == url
    decreases data
  {
    if data != [] {
      NoColonNoMatch(url, Placeholder(data[0].key));
      SubstituteNoPlaceholder(url, data[1..]);
    }
  }

  /** Drops a leading run of '/'. */
  function DropSlashes(s: string): (r: string)
    ensures |r| <= |s| && r == s[|s| - |r|..]
    ensures r == [] || r[0] != '/'
    ensures forall i :: 0 <= i < |s| - |r| ==> s[i] == '/'
  {
    if s != [] && s[0] == '/' then DropSlashes(s[1..]) else s
  }

  /** `replace(/\/+/, '/')`: the first run of slashes becomes one slash. */
  function CollapseFirstRun(s: string): string {
    if s == [] then []
    else if s[0] == '/' then "/" + DropSlashes(s[1..])
    else [s[0]] + CollapseFirstRun(s[1..])
  }

  /** `replace(/\/$/, '')`: one trailing slash is removed. */
  function TrimTrailingSlash(s: string): (r: string)
    ensures |s| - 1 <= |r| <= |s| && r == s[..|r|]
    ensures r != s <==> s != [] && s[|s| - 1] == '/'
  {
    if s != [] && s[|s| - 1] == '/' then s[..|s| - 1] else s
  }

  /** The slash tidying that ends `toString`. */
  function Tidy(s: string): string {
    TrimTrailingSlash(CollapseFirstRun(s))
  }

  /** A string without '/' passes the collapse unchanged. */
  lemma {:induction false} CollapseNoSlash(s: string)
    requires '/' !in s
    ensures CollapseFirstRun(s) == s
  {
    if s != [] {
      CollapseNoSlash(s[1..]);
      assert [s[0]] + s[1..] == s;
    }
  }

  /** Slashes only: a non-empty run of '/'. */
  predicate IsRun(run: string) {
    |run| >= 1 && forall i :: 0 <= i < |run| ==> run[i] == '/'
  }

  lemma {:induction false} DropRun(run: string, b: string)
    requires forall i :: 0 <= i < |run| ==> run[i] == '/'
    requires b == [] || b[0] != '/'
    ensures DropSlashes(run + b) == b
  {
    if run != [] {
      assert (run + b)[1..] == run[1..] + b;
      DropRun(run[1..], b);
    } else {
      assert run + b == b;
    }
  }

  /** The collapse rewrites exactly the first run of slashes. */
  lemma {:induction false} CollapseAt(a: string, run: string, b: string)
    requires '/' !in a && IsRun(run) && (b == [] || b[0] != '/')
    ensures CollapseFirstRun(a + run + b) == a + "/" + b
  {
    var s := a + run + b;
    if a == [] {
      assert s == run + b by { assert a + run == run; }
      HeadOfConcat(run, b);
      DropRun(run[1..], b);
    } else {
      var t := a[1..] + run + b;
      ConcatAssoc(a, run, b);
      HeadOfConcat(a, run + b);
      ConcatAssoc(a[1..], run, b);
      NotInTail(a, '/');
      assert CollapseFirstRun(s) == [a[0]] + CollapseFirstRun(t);
      CollapseAt(a[1..], run, b);
      ConcatAssoc(a[1..], "/", b);
      HeadOfConcat(a, "/" + b);
      ConcatAssoc(a, "/", b);
    }
  }

  /** `type + ' ' + uri`, before any substitution. */
  function Line(t: Template): string {
    t.verb + " " + t.uri
  }

  /**
   * `toString(data)`: without data the line is only tidied; with data the
   * defaults fill absent keys and the placeholders are substituted first.
   */
  function Render(t: Template, data: Option<Dict>): string {
    match data
    case None => Tidy(Line(t))
    case Some(d) => Tidy(Substitute(Line(t), FillDefaults(d, t.defaults)))
  }

  /** The caller's data object after `toString(data)`: the defaults are filled into it. */
  function FilledBy(t: Template, data: Option<Dict>): Option<Dict> {
    match data
    case None => None
    case Some(d) => Some(FillDefaults(d, t.defaults))
  }

  /** A template without placeholders renders the same with or without data. */
  lemma RenderWithoutPlaceholders(t: Template, d: Dict)
    requires ':' !in Line(t)
    ensures Render(t, Some(d)) == Render(t, None)
  {
    SubstituteNoPlaceholder(Line(t), FillDefaults(d, t.defaults));
  }

  /** The first run of slashes collapses and a final slash goes: `a//b` becomes `a/b`. */
  lemma TidyRun(a: string, run: string, b: string)
    requires '/' !in a && IsRun(run) && b != [] && b[0] != '/' && b[|b| - 1] != '/'
    ensures Tidy(a + run + b) == a + "/" + b
  {
    CollapseAt(a, run, b);
    var c := a + "/" + b;
    assert c[|c| - 1] == b[|b| - 1];
  }

  /** A line ending in its first run of slashes loses the whole run. */
  lemma TidyTrailingRun(a: string, run: string)
    requires '/' !in a && IsRun(run)
    ensures Tidy(a + run) == a
  {
    CollapseAt(a, run, "");
    assert a + run + "" == a + run;
    assert (a + "/" + "")[..|a|] == a;
  }

  lemma FillNothing(d: Dict)
    ensures FillDefaults(d, []) == d
  {
  }

  lemma FillAbsent(d: Dict, e: Entry, rest: Dict)
    requires !Has(d, e.key)
    ensures FillDefaults(d, [e] + rest) == FillDefaults(d + [e], rest)
  {
    assert ([e] + rest)[0] == e && ([e] + rest)[1..] == rest;
  }

  lemma FillPresent(d: Dict, e: Entry, rest: Dict)
    requires Has(d, e.key)
    ensures FillDefaults(d, [e] + rest) == FillDefaults(d, rest)
  {
    assert ([e] + rest)[0] == e && ([e] + rest)[1..] == rest;
  }

  lemma SubstituteOne(url: string, e: Entry)
    ensures Substitute(url, [e]) == ReplaceFirst(url, Placeholder(e.key), ToStr(e.val))
  {
    assert [e][1..] == [];
  }

  lemma SubstituteTwo(url: string, e1: Entry, e2: Entry)
    ensures Substitute(url, [e1, e2])
         == ReplaceFirst(ReplaceFirst(url, Placeholder(e1.key), ToStr(e1.val)), Placeholder(e2.key), ToStr(e2.val))
  {
    assert [e1, e2][1..] == [e2];
    SubstituteOne(ReplaceFirst(url, Placeholder(e1.key), ToStr(e1.val)), e2);
  }

  /** `one(res)` on a template with no path renders from `VERB res/:res` and adds no default. */
  lemma OneEmptyLine(t: Template, res: string)
    requires t.uri == []
    ensures One(t, res).defaults == t.defaults
    ensures Line(One(t, res)) == (t.verb + " " + res) + "/" + Placeholder(res)
  {
  }

  /** `url().one(res).toString()` keeps the placeholder: `VERB res/:res`. */
  lemma OneRendersPlaceholder(t: Template, res: string)
    requires t.uri == [] && '/' !in t.verb && '/' !in res && res != []
    ensures Render(One(t, res), None) == t.verb + " " + res + "/" + Placeholder(res)
  {
    OneEmptyLine(t, res);
    TidyRun(t.verb + " " + res, "/", Placeholder(res));
  }

  /**
   * `url().one(res).toString({res: v})` puts the value in the placeholder's
   * place, unencoded: `VERB res/v`.
   */
  lemma OneRendersValue(t: Template, res: string, v: Value)
    requires t.uri == [] && t.defaults == [] && '/' !in t.verb && ':' !in t.verb
    requires '/' !in res && ':' !in res
    requires var x := ToStr(v); x != [] && '/' !in x
    ensures Render(One(t, res), Some([Entry(res, v)])) == t.verb + " " + res + "/" + ToStr(v)
  {
    var g := t.verb + " " + res;
    OneEmptyLine(t, res);
    FillNothing([Entry(res, v)]);
    SubstituteOne(Line(One(t, res)), Entry(res, v));
    NotInJoined(t.verb, res, ':');
    NotInConcat(g, "/", ':');
    ReplaceLast(g + "/", res, ToStr(v));
    TidyRun(g, "/", ToStr(v));
  }

  /** `many(res)` on a template with no path and no defaults defaults both `limit` and `page` to ''. */
  lemma ManyEmptyDefaults(t: Template, res: string)
    requires t.defaults == []
    ensures Many(t, res).defaults == [Entry("limit", Str("")), Entry("page", Str(""))]
  {
    var l := Entry("limit", Str(""));
    assert PutIfAbsent([], "limit", Str("")) == [l];
    assert Keys([l]) == ["limit"];
    assert PutIfAbsent([l], "page", Str("")) == [l] + [Entry("page", Str(""))];
  }

  /** `many(res)` on a template with no path renders from `VERB res/:limit/:page`. */
  lemma ManyEmptyLine(t: Template, res: string)
    requires t.uri == []
    ensures Line(Many(t, res)) == t.verb + " " + res + "/" + Placeholder("limit") + "/" + Placeholder("page")
  {
  }

  /** The first of two placeholders, preceded by text without ':', is the one replaced. */
  lemma ReplaceMiddle(g: string, key: string, rest: string, x: string)
    requires ':' !in g
    ensures ReplaceFirst(g + "/" + Placeholder(key) + "/" + rest, Placeholder(key), x) == g + "/" + x + "/" + rest
  {
    var a := g + "/";
    assert ':' !in a;
    NoEarlierMatch(a, Placeholder(key), "/" + rest);
    ReplaceFirstAt(a, Placeholder(key), "/" + rest, x);
    assert a + Placeholder(key) + ("/" + rest) == g + "/" + Placeholder(key) + "/" + rest;
    assert a + x + ("/" + rest) == g + "/" + x + "/" + rest;
  }

  /** A placeholder that ends the line, preceded by text without ':', is the one replaced. */
  lemma ReplaceLast(a: string, key: string, y: string)
    requires ':' !in a
    ensures ReplaceFirst(a + Placeholder(key), Placeholder(key), y) == a + y
  {
    NoEarlierMatch(a, Placeholder(key), "");
    ReplaceFirstAt(a, Placeholder(key), "", y);
    assert a + Placeholder(key) + "" == a + Placeholder(key);
    assert a + y + "" == a + y;
  }

  /** Two placeholders in a row are replaced in order. */
  lemma SubstituteTwoPlaceholders(g: string, e1: Entry, e2: Entry)
    requires ':' !in g && ':' !in ToStr(e1.val)
    ensures Substitute(g + "/" + Placeholder(e1.key) + "/" + Placeholder(e2.key), [e1, e2])
         == g + "/" + ToStr(e1.val) + "/" + ToStr(e2.val)
  {
    var x := ToStr(e1.val);
    SubstituteTwo(g + "/" + Placeholder(e1.key) + "/" + Placeholder(e2.key), e1, e2);
    ReplaceMiddle(g, e1.key, Placeholder(e2.key), x);
    assert ':' !in g + "/" + x + "/";
    ReplaceLast(g + "/" + x + "/", e2.key, ToStr(e2.val));
  }

  /** A template whose line ends in two placeholders, rendered with data that fills both. */
  lemma RenderPair(t: Template, g: string, data: Dict, e1: Entry, e2: Entry)
    requires ':' !in g && ':' !in ToStr(e1.val)
    requires Line(t) == g + "/" + Placeholder(e1.key) + "/" + Placeholder(e2.key)
    requires FillDefaults(data, t.defaults) == [e1, e2]
    ensures Render(t, Some(data)) == Tidy(g + "/" + ToStr(e1.val) + "/" + ToStr(e2.val))
  {
    SubstituteTwoPlaceholders(g, e1, e2);
  }

  /** Filling two distinct defaults into data that has neither, the first, or both. */
  lemma FillTwoNone(d1: Entry, d2: Entry)
    requires d1.key != d2.key
    ensures FillDefaults([], [d1, d2]) == [d1, d2]
  {
    assert [d1, d2] == [d1] + [d2];
    FillAbsent([], d1, [d2]);
    assert [] + [d1] == [d1];
    assert Keys([d1]) == [d1.key];
    FillAbsent([d1], d2, []);
    assert [d1] + [d2] == [d1, d2];
  }

  lemma FillTwoFirst(e1: Entry, d1: Entry, d2: Entry)
    requires d1.key != d2.key && e1.key == d1.key
    ensures FillDefaults([e1], [d1, d2]) == [e1, d2]
  {
    assert Keys([e1]) == [e1.key];
    assert FillDefaults([e1], [d1, d2]) == FillDefaults([e1], [d2]) by {
      assert [d1, d2] == [d1] + [d2];
      FillPresent([e1], d1, [d2]);
    }
    assert FillDefaults([e1], [d2]) == [e1, d2] by {
      assert [d2] == [d2] + [];
      FillAbsent([e1], d2, []);
      FillNothing([e1] + [d2]);
    }
  }


  lemma FillTwoBoth(e1: Entry, e2: Entry, d1: Entry, d2: Entry)
    requires e1.key == d1.key && e2.key == d2.key
    ensures FillDefaults([e1, e2], [d1, d2]) == [e1, e2]
  {
    assert [d1, d2] == [d1] + [d2];
    assert Keys([e1, e2]) == [e1.key, e2.key];
    FillPresent([e1, e2], d1, [d2]);
    FillPresent([e1, e2], d2, []);
  }


  /** `g//` tidies to `g`. */
  lemma TidyEmptyPair(g: string)
    requires '/' !in g
    ensures Tidy(g + "/" + "" + "/" + "") == g
  {
    assert g + "/" + "" + "/" + "" == g + "//";
    TidyTrailingRun(g, "//");
  }

  /** `g/x/` tidies to `g/x`. */
  lemma TidyEmptyLast(g: string, x: string)
    requires '/' !in g && x != [] && x[0] != '/'
    ensures Tidy(g + "/" + x + "/" + "") == g + "/" + x
  {
    var c := g + "/" + x + "/";
    assert c + "" == g + "/" + (x + "/");
    CollapseAt(g, "/", x + "/");
    assert c[..|c| - 1] == g + "/" + x;
  }

  /** `g/x/y` is already tidy. */
  lemma TidyFullPair(g: string, x: string, y: string)
    requires '/' !in g && x != [] && x[0] != '/' && y != [] && y[|y| - 1] != '/'
    ensures Tidy(g + "/" + x + "/" + y) == g + "/" + x + "/" + y
  {
    assert g + "/" + x + "/" + y == g + "/" + (x + "/" + y);
    TidyRun(g, "/", x + "/" + y);
  }

  /** A line ending in two placeholders whose defaults are both '', rendered with no data. */
  lemma RenderPairBare(t: Template, g: string, l: Entry, p: Entry)
    requires '/' !in g && ':' !in g
    requires l.key != p.key && l.val == Str("") && p.val == Str("")
    requires t.defaults == [l, p]
    requires Line(t) == g + "/" + Placeholder(l.key) + "/" + Placeholder(p.key)
    ensures Render(t, Some([])) == g
  {
    assert FillDefaults([], t.defaults) == [l, p] by { FillTwoNone(l, p); }
    RenderPair(t, g, [], l, p);
    TidyEmptyPair(g);
  }

  /** The same line rendered with a value for the first placeholder only. */
  lemma RenderPairFirst(t: Template, g: string, given: Entry, l: Entry, p: Entry)
    requires '/' !in g && ':' !in g
    requires var x := ToStr(given.val); x != [] && '/' !in x && ':' !in x
    requires l.key != p.key && l.key == given.key && p.val == Str("")
    requires t.defaults == [l, p]
    requires Line(t) == g + "/" + Placeholder(l.key) + "/" + Placeholder(p.key)
    ensures Render(t, Some([given])) == g + "/" + ToStr(given.val)
  {
    assert FillDefaults([given], t.defaults) == [given, p] by { FillTwoFirst(given, l, p); }
    RenderPair(t, g, [given], given, p);
    TidyEmptyLast(g, ToStr(given.val));
  }

  /** The same line rendered with values for both placeholders. */
  lemma RenderPairBoth(t: Template, g: string, e1: Entry, e2: Entry, l: Entry, p: Entry)
    requires '/' !in g && ':' !in g
    requires var x := ToStr(e1.val); x != [] && '/' !in x && ':' !in x
    requires var y := ToStr(e2.val); y != [] && '/' !in y
    requires l.key != p.key && e1.key == l.key && e2.key == p.key
    requires t.defaults == [l, p]
    requires Line(t) == g + "/" + Placeholder(l.key) + "/" + Placeholder(p.key)
    ensures Render(t, Some([e1, e2])) == g + "/" + ToStr(e1.val) + "/" + ToStr(e2.val)
  {
    assert FillDefaults([e1, e2], t.defaults) == [e1, e2] by { FillTwoBoth(e1, e2, l, p); }
    RenderPair(t, g, [e1, e2], e1, e2);
    TidyFullPair(g, ToStr(e1.val), ToStr(e2.val));
  }

  /** What the three renderings below share: `many(res)` on an empty template. */
  lemma ManyShape(t: Template, res: string)
    requires t.uri == [] && t.defaults == [] && '/' !in t.verb && ':' !in t.verb
    requires '/' !in res && ':' !in res
    ensures var g := t.verb + " " + res; '/' !in g && ':' !in g
    ensures Many(t, res).defaults == [Entry("limit", Str("")), Entry("page", Str(""))]
    ensures Line(Many(t, res)) == t.verb + " " + res + "/" + Placeholder("limit") + "/" + Placeholder("page")
    ensures "limit" != "page"
  {
    ManyEmptyDefaults(t, res);
    ManyEmptyLine(t, res);
    NotInJoined(t.verb, res, '/');
    NotInJoined(t.verb, res, ':');
    assert "limit"[0] != "page"[0];
  }

  /**
   * `url().many(res).toString({})`, for any verb: both empty paging defaults
   * vanish together with their slashes, leaving `VERB res`.
   */
  lemma ManyRendersBare(t: Template, res: string)
    requires t.uri == [] && t.defaults == [] && '/' !in t.verb && ':' !in t.verb
    requires '/' !in res && ':' !in res
    ensures Render(Many(t, res), Some([])) == t.verb + " " + res
  {
    ManyShape(t, res);
    RenderPairBare(Many(t, res), t.verb + " " + res, Entry("limit", Str("")), Entry("page", Str("")));
  }

  /** `url().many(res).toString({limit: l})` is `VERB res/l`. */
  lemma ManyRendersLimit(t: Template, res: string, lv: Value)
    requires t.uri == [] && t.defaults == [] && '/' !in t.verb && ':' !in t.verb
    requires '/' !in res && ':' !in res
    requires var x := ToStr(lv); x != [] && '/' !in x && ':' !in x
    ensures Render(Many(t, res), Some([Entry("limit", lv)])) == t.verb + " " + res + "/" + ToStr(lv)
  {
    ManyShape(t, res);
    RenderPairFirst(Many(t, res), t.verb + " " + res, Entry("limit", lv), Entry("limit", Str("")), Entry("page", Str("")));
  }

  /** `url().many(res).toString({limit: l, page: p})` is `VERB res/l/p`. */
  lemma ManyRendersLimitAndPage(t: Template, res: string, lv: Value, pv: Value)
    requires t.uri == [] && t.defaults == [] && '/' !in t.verb && ':' !in t.verb
    requires '/' !in res && ':' !in res
    requires var x := ToStr(lv); x != [] && '/' !in x && ':' !in x
    requires var y := ToStr(pv); y != [] && '/' !in y
    ensures Render(Many(t, res), Some([Entry("limit", lv), Entry("page", pv)]))
         == t.verb + " " + res + "/" + ToStr(lv) + "/" + ToStr(pv)
  {
    ManyShape(t, res);
    RenderPairBoth(Many(t, res), t.verb + " " + res, Entry("limit", lv), Entry("page", pv),
      Entry("limit", Str("")), Entry("page", Str("")));
  }

  // ---- now(data) ----

  /** The entries of `d` whose placeholder `:key` occurs in `url`, in order. */
  function Bound(url: string, d: Dict): (r: Dict)
    ensures forall k :: Lookup(r, k) == if Contains(url, Placeholder(k)) then Lookup(d, k) else None
    ensures |r| <= |d|
  {
    if d == [] then []
    else if Contains(url, Placeholder(d[0].key)) then [d[0]] + Bound(url, d[1..])
    else Bound(url, d[1..])
  }

  /** Every entry kept by `Bound` is an entry of the data. */
  lemma {:induction false} BoundFrom(url: string, d: Dict, e: Entry)
    requires e in Bound(url, d)
    ensures e in d
  {
    if d != [] {
      if e != d[0] {
        assert e in Bound(url, d[1..]);
        BoundFrom(url, d[1..], e);
      }
    }
  }

  /** Adding an entry whose key is new keeps the keys distinct. */
  lemma ConsUnique(x: Entry, rest: Dict)
    requires UniqueKeys(rest) && forall e <- rest :: e.key != x.key
    ensures UniqueKeys([x] + rest)
  {
    var r := [x] + rest;
    forall i, j | 0 <= i < j < |r| ensures r[i].key != r[j].key {
      assert r[j] == rest[j - 1] && r[j] in rest;
      if i > 0 {
        assert r[i] == rest[i - 1];
      }
    }
  }

  /** Keeping only the bound entries keeps the keys distinct. */
  lemma {:induction false} BoundUnique(url: string, d: Dict)
    requires UniqueKeys(d)
    ensures UniqueKeys(Bound(url, d))
  {
    if d != [] {
      var rest := Bound(url, d[1..]);
      BoundUnique(url, d[1..]);
      if Contains(url, Placeholder(d[0].key)) {
        forall e | e in rest ensures e.key != d[0].key {
          BoundFrom(url, d[1..], e);
          var i :| 0 <= i < |d[1..]| && d[1..][i] == e;
          assert d[i + 1] == e;
        }
        ConsUnique(d[0], rest);
      }
    }
  }


  /** What `now(data)` hands to `request`: the substituted line and the data left over. */
  datatype Call = Call(line: string, data: Dict)

  /**
   * `now(data)`: the defaults fill the data; every key whose placeholder occurs
   * in the unsubstituted rendering is moved into the substitution map, the rest
   * stays as data.
   */
  function Prepare(t: Template, data: Dict): Call {
    var url := Render(t, None);
    var filled := FillDefaults(data, t.defaults);
    var bound := Bound(url, filled);
    Call(Render(t, Some(bound)), Without(filled, Keys(bound)))
  }

  /**
   * The data `now` forwards holds exactly the filled keys whose placeholder does
   * not occur, with their values, and the substitution map exactly the others.
   */
  lemma PreparePartitions(t: Template, data: Dict, k: string)
    ensures var url := Render(t, None);
            var filled := FillDefaults(data, t.defaults);
            && Lookup(Prepare(t, data).data, k) == (if Contains(url, Placeholder(k)) then None else Lookup(filled, k))
            && Lookup(Bound(url, filled), k) == (if Contains(url, Placeholder(k)) then Lookup(filled, k) else None)
  {
    var url := Render(t, None);
    var filled := FillDefaults(data, t.defaults);
    var bound := Bound(url, filled);
    if Contains(url, Placeholder(k)) && Has(filled, k) {
      assert Lookup(bound, k).Some?;
    }
    if !Contains(url, Placeholder(k)) {
      assert !Has(bound, k);
    }
  }

  /** A template without placeholders forwards all the filled data and renders unchanged. */
  lemma PrepareWithoutPlaceholders(t: Template, data: Dict)
    requires ':' !in Line(t)
    ensures Prepare(t, data) == Call(Render(t, None), FillDefaults(data, t.defaults))
  {
    var url := Render(t, None);
    var filled := FillDefaults(data, t.defaults);
    assert ':' !in url by {
      forall i | 0 <= i < |url| ensures url[i] != ':' {
        TidyDropsOnlySlashes(Line(t), i);
      }
    }
    forall k ensures !Contains(url, Placeholder(k)) {
      NoColonNoMatch(url, Placeholder(k));
    }
    BoundNone(url, filled);
    RenderWithoutPlaceholders(t, []);
    WithoutNothing(filled);
  }

  lemma {:induction false} BoundNone(url: string, d: Dict)
    requires forall k :: !Contains(url, Placeholder(k))
    ensures Bound(url, d) == []
  {
    if d != [] {
      BoundNone(url, d[1..]);
    }
  }

  lemma {:induction false} WithoutNothing(d: Dict)
    ensures Without(d, []) == d
  {
    if d != [] {
      WithoutNothing(d[1..]);
    }
  }

  lemma {:induction false} DropSlashesChars(s: string, i: nat)
    requires i < |DropSlashes(s)|
    ensures DropSlashes(s)[i] in s
  {
    var r := DropSlashes(s);
    assert r[i] == s[|s| - |r| + i];
  }

  lemma {:induction false} CollapseChars(s: string, i: nat)
    requires i < |CollapseFirstRun(s)|
    ensures CollapseFirstRun(s)[i] in s || CollapseFirstRun(s)[i] == '/'
  {
    if s != [] {
      if s[0] == '/' {
        if i > 0 {
          DropSlashesChars(s[1..], i - 1);
        }
      } else if i > 0 {
        CollapseChars(s[1..], i - 1);
      }
    }
  }

  /** Tidying introduces no character but '/'. */
  lemma TidyDropsOnlySlashes(s: string, i: nat)
    requires i < |Tidy(s)|
    ensures Tidy(s)[i] in s || Tidy(s)[i] == '/'
  {
    CollapseChars(s, i);
  }

  /**
   * A template whose path is one placeholder with a default requests the
   * verb and the given value, or else the default, and forwards no data.
   */
  lemma PrepareSinglePlaceholder(verb: string, key: string, d: Value, w: Value, data: Dict)
    requires ':' !in verb && '/' !in verb && '/' !in key
    requires (data == [] && w == d) || data == [Entry(key, w)]
    requires ToStr(w) != [] && '/' !in ToStr(w)
    ensures Prepare(Template(verb, Placeholder(key), [Entry(key, d)]), data) == Call(verb + " " + ToStr(w), [])
  {
    var t := Template(verb, Placeholder(key), [Entry(key, d)]);
    var e := Entry(key, w);
    var line := verb + " " + Placeholder(key);
    SingleLine(verb, key, ToStr(w));
    assert Render(t, None) == line;
    FillSingle(data, key, d, w);
    FillSingle([e], key, d, w);
    assert Bound(line, [e]) == [e];
    assert Without([e], [key]) == [];
    SubstituteOne(line, e);
    NotInJoined(verb, ToStr(w), '/');
    TidyNoSlash(verb + " " + ToStr(w));
  }

  /** A line without '/' is already tidy. */
  lemma TidyNoSlash(s: string)
    requires '/' !in s
    ensures Tidy(s) == s
  {
    CollapseNoSlash(s);
    if s != [] {
      assert s[|s| - 1] in s;
    }
  }

  /** `VERB :key` is tidy, holds its placeholder, and substituting it gives `VERB x`. */
  lemma SingleLine(verb: string, key: string, x: string)
    requires ':' !in verb && '/' !in verb && '/' !in key
    ensures var line := verb + " " + Placeholder(key);
      Tidy(line) == line && Contains(line, Placeholder(key))
      && ReplaceFirst(line, Placeholder(key), x) == verb + " " + x
  {
    var a := verb + " ";
    var p := Placeholder(key);
    assert a + p + "" == verb + " " + p;
    assert a + x + "" == verb + " " + x;
    NotInConcat(verb, " ", ':');
    NoEarlierMatch(a, p, "");
    ReplaceFirstAt(a, p, "", x);
    NotInConcat([':'], key, '/');
    assert p == [':'] + key;
    NotInJoined(verb, p, '/');
    TidyNoSlash(verb + " " + p);
  }

  /** Filling the single default `key` gives the given entry, or the default when none is given. */
  lemma FillSingle(data: Dict, key: string, d: Value, w: Value)
    requires (data == [] && w == d) || data == [Entry(key, w)]
    ensures FillDefaults(data, [Entry(key, d)]) == [Entry(key, w)]
  {
    assert [Entry(key, d)] == [Entry(key, d)] + [];
    if data == [] {
      FillAbsent([], Entry(key, d), []);
      FillNothing([] + [Entry(key, d)]);
    } else {
      assert Keys(data) == [key];
      FillPresent(data, Entry(key, d), []);
      FillNothing(data);
    }
  }

  // ---- lib's proxy ----

  /**
   * The placeholder loop of `proxy`: for each key in order, if its placeholder
   * occurs in the progressively formatted string, the first occurrence is
   * replaced and the key is marked for removal.
   */
  function ProxyFormat(formatted: string, data: Dict): (string, seq<string>)
    decreases data
  {
    if data == [] then (formatted, [])
    else
      var k := data[0].key;
      if Contains(formatted, Placeholder(k)) then
        var next := ProxyFormat(ReplaceFirst(formatted, Placeholder(k), ToStr(data[0].val)), data[1..]);
        (next.0, [k] + next.1)
      else ProxyFormat(formatted, data[1..])
  }

  /**
   * The string `proxy` builds is `toString`'s substitution, without the slash
   * tidying, and only keys of the data are marked.
   */
  lemma {:induction false} ProxyFormatIsSubstitute(formatted: string, data: Dict)
    ensures ProxyFormat(formatted, data).0 == Substitute(formatted, data)
    ensures forall k <- ProxyFormat(formatted, data).1 :: Has(data, k)
    decreases data
  {
    if data != [] {
      var k := data[0].key;
      var r := ReplaceFirst(formatted, Placeholder(k), ToStr(data[0].val));
      ProxyFormatIsSubstitute(r, data[1..]);
      ProxyFormatIsSubstitute(formatted, data[1..]);
      assert forall k' :: Has(data[1..], k') ==> Has(data, k');
    }
  }

  /** The data `proxy` forwards: the filled data without the marked keys. */
  function ProxyRest(url: string, defaults: Dict, data: Dict): Dict {
    var filled := FillDefaults(data, defaults);
    Without(filled, ProxyFormat(url, filled).1)
  }

  /** A key stays in `proxy`'s data exactly when it was not marked, with its filled value. */
  lemma ProxyRestKeys(url: string, defaults: Dict, data: Dict, k: string)
    ensures var filled := FillDefaults(data, defaults);
            Lookup(ProxyRest(url, defaults, data), k)
              == if k in ProxyFormat(url, filled).1 then None else Lookup(filled, k)
  {
  }
}
