/**
 * The two query-string serializers of the client.
 *
 * lib/windex.js gives each leaf the key `parent[child]` (array indices as
 * keys) and percent-encodes every key and value; src/windex.js is the flat,
 * unencoded fallback that drops the parent key when it recurses.  Both push one
 * piece per property in `for…in` order and join the pieces with '&'; a nested
 * object contributes its own joined string, so an empty one contributes "".
 */
module Query {
  import opened Wrappers
  import opened Strings
  import opened JsValues
  import Percent

  /** `prefix ? prefix + '[' + key + ']' : key`. */
  function NestedKey(prefix: string, key: string): string {
    if prefix == "" then key else prefix + "[" + key + "]"
  }

  // ---- lib/windex.js: bracketed keys, encoded ----

  /** `serialize(obj, prefix)`: the pieces of `obj` joined by '&'. */
  function Bracketed(obj: Dict, prefix: string): string
    decreases obj, 1
  {
    Join(BracketedPieces(obj, prefix), "&")
  }

  function BracketedPieces(obj: Dict, prefix: string): (ps: seq<string>)
    ensures |ps| == |obj|
    ensures forall i :: 0 <= i < |obj| ==> ps[i] == BracketedPiece(obj[i], prefix)
    decreases obj, 0
  {
    if obj == [] then [] else [BracketedPiece(obj[0], prefix)] + BracketedPieces(obj[1..], prefix)
  }

  /** What one property pushes: its nested serialization, or `key=value` encoded. */
  function BracketedPiece(e: Entry, prefix: string): string
    decreases e
  {
    var k := NestedKey(prefix, e.key);
    match e.val
    case Obj(d) => Bracketed(d, k)
    case Arr(d) => Bracketed(d, k)
    case Null => ""
    case _ => Percent.EncodeComponent(k) + "=" + Percent.EncodeComponent(ToStr(e.val))
  }

  /** One `key=value` pair of a query, or the empty piece an empty nested object leaves. */
  datatype Item = Pair(key: string, value: string) | Blank

  /**
   * The reference meaning of the bracketed serializer: the leaves of `obj`,
   * each under its full bracketed key, in `for…in` order.
   */
  function Leaves(obj: Dict, prefix: string): (items: seq<Item>)
    ensures |items| >= |obj|
    decreases obj
  {
    if obj == [] then [] else EntryLeaves(obj[0], prefix) + Leaves(obj[1..], prefix)
  }

  function EntryLeaves(e: Entry, prefix: string): (items: seq<Item>)
    ensures |items| >= 1
    decreases e
  {
    var k := NestedKey(prefix, e.key);
    match e.val
    case Obj(d) => if d == [] then [Blank] else Leaves(d, k)
    case Arr(d) => if d == [] then [Blank] else Leaves(d, k)
    case Null => [Blank]
    case _ => [Pair(k, ToStr(e.val))]
  }

  function RenderItem(it: Item): string {
    match it
    case Pair(k, v) => Percent.EncodeComponent(k) + "=" + Percent.EncodeComponent(v)
    case Blank => ""
  }

  function RenderItems(items: seq<Item>): (ps: seq<string>)
    ensures |ps| == |items|
    ensures forall i :: 0 <= i < |items| ==> ps[i] == RenderItem(items[i])
  {
    if items == [] then [] else [RenderItem(items[0])] + RenderItems(items[1..])
  }

  lemma RenderItemsAppend(xs: seq<Item>, ys: seq<Item>)
    ensures RenderItems(xs + ys) == RenderItems(xs) + RenderItems(ys)
  {
  }

  /** The serializer writes exactly the rendered leaves, joined by '&'. */
  lemma {:induction false} BracketedIsLeaves(obj: Dict, prefix: string)
    ensures Bracketed(obj, prefix) == Join(RenderItems(Leaves(obj, prefix)), "&")
    decreases obj, 1
  {
    if obj != [] {
      var rest := obj[1..];
      var l0, ls := EntryLeaves(obj[0], prefix), Leaves(rest, prefix);
      EntryPieceIsLeaves(obj[0], prefix);
      assert BracketedPieces(obj, prefix) == [BracketedPiece(obj[0], prefix)] + BracketedPieces(rest, prefix);
      RenderItemsAppend(l0, ls);
      if rest != [] {
        BracketedIsLeaves(rest, prefix);
        JoinAppend(RenderItems(l0), RenderItems(ls), "&");
        assert BracketedPieces(obj, prefix)[1..] == BracketedPieces(rest, prefix);
      } else {
        assert ls == [];
        assert l0 + ls == l0;
      }
    }
  }

  lemma {:induction false} EntryPieceIsLeaves(e: Entry, prefix: string)
    ensures BracketedPiece(e, prefix) == Join(RenderItems(EntryLeaves(e, prefix)), "&")
    decreases e, 0
  {
    var k := NestedKey(prefix, e.key);
    match e.val
    case Obj(d) => BracketedIsLeaves(d, k);
    case Arr(d) => BracketedIsLeaves(d, k);
    case Null =>
    case Str(_) =>
    case Num(_) =>
    case Bool(_) =>
  }

  /** Only the empty object serializes to no leaves at all. */
  lemma LeavesEmpty(obj: Dict, prefix: string)
    ensures Leaves(obj, prefix) == [] <==> obj == []
  {
  }

  /** A flat object: one encoded `key=value` per property, in order, with no brackets. */
  lemma {:induction false} FlatObjectLeaves(obj: Dict)
    requires forall i :: 0 <= i < |obj| ==> !IsObject(obj[i].val)
    ensures Leaves(obj, "") == seq(|obj|, i requires 0 <= i < |obj| => Pair(obj[i].key, ToStr(obj[i].val)))
  {
    if obj != [] {
      var flat := seq(|obj|, i requires 0 <= i < |obj| => Pair(obj[i].key, ToStr(obj[i].val)));
      assert EntryLeaves(obj[0], "") == [flat[0]];
      FlatObjectLeaves(obj[1..]);
      assert Leaves(obj[1..], "") == flat[1..];
      ConsParts(flat[0], flat[1..]);
      assert [flat[0]] + flat[1..] == flat;
    }
  }

  /** A non-empty nested object or array lists its leaves under `key[child]`. */
  lemma NestedLeaves(key: string, d: Dict, prefix: string)
    requires d != []
    ensures EntryLeaves(Entry(key, Obj(d)), prefix) == Leaves(d, NestedKey(prefix, key))
    ensures EntryLeaves(Entry(key, Arr(d)), prefix) == Leaves(d, NestedKey(prefix, key))
  {
  }

  // ---- reading a query back ----

  /** One '&'-separated piece of a query: "" is blank, otherwise `key=value` decoded. */
  function ParseItem(piece: string): Option<Item> {
    if piece == "" then Some(Blank)
    else match IndexOf(piece, "=")
      case None => None
      case Some(i) =>
        match (Percent.Decode(piece[..i]), Percent.Decode(piece[i + 1..]))
        case (Some(k), Some(v)) => Some(Pair(k, v))
        case _ => None
  }

  function ParsePieces(pieces: seq<string>): Option<seq<Item>> {
    if pieces == [] then Some([])
    else match (ParseItem(pieces[0]), ParsePieces(pieces[1..]))
      case (Some(it), Some(its)) => Some([it] + its)
      case _ => None
  }

  /** Splits a query on '&' and decodes each piece. */
  function ParseQuery(q: string): Option<seq<Item>> {
    ParsePieces(Split(q, '&'))
  }

  lemma EncodedHasNo(s: string, ch: char)
    requires !Percent.Kept(ch, false) && ch != '%'
    ensures ch !in Percent.EncodeComponent(s)
  {
    Percent.EncodeAlphabet(s, false);
  }

  lemma ParseRenderItem(it: Item)
    ensures '&' !in RenderItem(it)
    ensures ParseItem(RenderItem(it)) == Some(it)
  {
    if it.Pair? {
      var ek, ev := Percent.EncodeComponent(it.key), Percent.EncodeComponent(it.value);
      EncodedHasNo(it.key, '&');
      EncodedHasNo(it.value, '&');
      EncodedHasNo(it.key, '=');
      NotInConcat(ek, "=", '&');
      NotInConcat(ek + "=", ev, '&');
      NoEarlierMatch(ek, "=", ev);
      ReplaceFirstAt(ek, "=", ev, "");
      OuterParts(ek, "=", ev);
      Percent.DecodeEncode(it.key, false);
      Percent.DecodeEncode(it.value, false);
    }
  }

  lemma {:induction false} ParseRenderedPieces(items: seq<Item>)
    ensures ParsePieces(RenderItems(items)) == Some(items)
  {
    if items != [] {
      ParseRenderItem(items[0]);
      ParseRenderedPieces(items[1..]);
      var ps := RenderItems(items);
      assert ps[0] == RenderItem(items[0]);
      assert ps[1..] == RenderItems(items[1..]);
      assert ParsePieces(ps) == Some([items[0]] + items[1..]);
      assert [items[0]] + items[1..] == items;
    }
  }

  /**
   * The query is unambiguous: splitting it on '&' and decoding each piece gives
   * back every leaf with its full bracketed key, in order.
   */
  lemma QueryRoundTrip(obj: Dict)
    requires obj != []
    ensures ParseQuery(Bracketed(obj, "")) == Some(Leaves(obj, ""))
  {
    var items := Leaves(obj, "");
    BracketedIsLeaves(obj, "");
    forall p <- RenderItems(items) ensures '&' !in p {
      var i :| 0 <= i < |items| && p == RenderItems(items)[i];
      ParseRenderItem(items[i]);
    }
    SplitJoin(RenderItems(items), '&');
    ParseRenderedPieces(items);
  }

  // ---- src/windex.js: flat, unencoded ----

  /** `serialize(obj)` without a registered serializer: `key=value` pieces joined by '&'. */
  function Flat(obj: Dict): string
    decreases obj, 1
  {
    Join(FlatPieces(obj), "&")
  }

  function FlatPieces(obj: Dict): (ps: seq<string>)
    ensures |ps| == |obj|
    ensures forall i :: 0 <= i < |obj| ==> ps[i] == FlatPiece(obj[i])
    decreases obj, 0
  {
    if obj == [] then [] else [FlatPiece(obj[0])] + FlatPieces(obj[1..])
  }

  /** A nested value pushes its own serialization: the parent key is dropped. */
  function FlatPiece(e: Entry): string
    decreases e
  {
    match e.val
    case Obj(d) => Flat(d)
    case Arr(d) => Flat(d)
    case Null => ""
    case _ => e.key + "=" + ToStr(e.val)
  }

  /** The reference meaning of the flat serializer: each leaf under its own key only. */
  function FlatLeaves(obj: Dict): (items: seq<Item>)
    ensures |items| >= |obj|
    decreases obj
  {
    if obj == [] then [] else FlatEntryLeaves(obj[0]) + FlatLeaves(obj[1..])
  }

  function FlatEntryLeaves(e: Entry): (items: seq<Item>)
    ensures |items| >= 1
    decreases e
  {
    match e.val
    case Obj(d) => if d == [] then [Blank] else FlatLeaves(d)
    case Arr(d) => if d == [] then [Blank] else FlatLeaves(d)
    case Null => [Blank]
    case _ => [Pair(e.key, ToStr(e.val))]
  }

  function RawItem(it: Item): string {
    match it
    case Pair(k, v) => k + "=" + v
    case Blank => ""
  }

  function RawItems(items: seq<Item>): (ps: seq<string>)
    ensures |ps| == |items|
    ensures forall i :: 0 <= i < |items| ==> ps[i] == RawItem(items[i])
  {
    if items == [] then [] else [RawItem(items[0])] + RawItems(items[1..])
  }

  lemma RawItemsAppend(xs: seq<Item>, ys: seq<Item>)
    ensures RawItems(xs + ys) == RawItems(xs) + RawItems(ys)
  {
  }

  /** The flat serializer writes exactly its leaves, unencoded, joined by '&'. */
  lemma {:induction false} FlatIsLeaves(obj: Dict)
    ensures Flat(obj) == Join(RawItems(FlatLeaves(obj)), "&")
    decreases obj, 1
  {
    if obj != [] {
      var rest := obj[1..];
      var l0, ls := FlatEntryLeaves(obj[0]), FlatLeaves(rest);
      FlatEntryIsLeaves(obj[0]);
      RawItemsAppend(l0, ls);
      if rest != [] {
        FlatIsLeaves(rest);
        JoinAppend(RawItems(l0), RawItems(ls), "&");
        assert FlatPieces(obj)[1..] == FlatPieces(rest);
      } else {
        assert l0 + ls == l0;
      }
    }
  }

  lemma {:induction false} FlatEntryIsLeaves(e: Entry)
    ensures FlatPiece(e) == Join(RawItems(FlatEntryLeaves(e)), "&")
    decreases e, 0
  {
    match e.val
    case Obj(d) => FlatIsLeaves(d);
    case Arr(d) => FlatIsLeaves(d);
    case Null =>
    case Str(_) =>
    case Num(_) =>
    case Bool(_) =>
  }

  /** The flat serializer never mentions a parent key: renaming it changes nothing. */
  lemma FlatIgnoresParentKey(k1: string, k2: string, d: Dict, rest: Dict)
    ensures Flat([Entry(k1, Obj(d))] + rest) == Flat([Entry(k2, Obj(d))] + rest)
  {
    assert FlatPieces([Entry(k1, Obj(d))] + rest) == FlatPieces([Entry(k2, Obj(d))] + rest);
  }

  /** For a flat object both serializers list the same pairs; only the encoding differs. */
  lemma {:induction false} FlatAgreesOnFlatObjects(obj: Dict)
    requires forall i :: 0 <= i < |obj| ==> !IsObject(obj[i].val)
    ensures FlatLeaves(obj) == Leaves(obj, "")
  {
    if obj != [] {
      FlatAgreesOnFlatObjects(obj[1..]);
    }
  }
}
