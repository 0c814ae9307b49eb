/**
 * Percent-encoding as ECMAScript's `encodeURIComponent` and `encodeURI` apply it:
 * each character outside the kept set becomes the "%XX" escapes (section 2.1 of
 * RFC 3986, upper-case hex) of its UTF-8 bytes (section 3 of RFC 3629).  A
 * decoder in the manner of `decodeURIComponent` is the partner that shows the
 * encoding loses nothing.
 */
module Percent {
  import opened Wrappers
  import Strings

  type Byte = b: int | 0 <= b < 256

  /** The UTF-8 bytes of one Unicode scalar value. */
  function Utf8(ch: char): (bytes: seq<Byte>)
    ensures 1 <= |bytes| <= 4
  {
    var n := ch as int;
    if n < 0x80 then [n]
    else if n < 0x800 then [0xC0 + n / 64, 0x80 + n % 64]
    else if n < 0x10000 then [0xE0 + n / 4096, 0x80 + n / 64 % 64, 0x80 + n % 64]
    else [0xF0 + n / 0x40000, 0x80 + n / 4096 % 64, 0x80 + n / 64 % 64, 0x80 + n % 64]
  }

  /** A continuation byte, 10xxxxxx. */
  predicate IsContinuation(b: Byte) {
    0x80 <= b < 0xC0
  }

  /** How many bytes a UTF-8 sequence starting with `b` has; 0 when `b` cannot start one. */
  function SequenceLength(b: Byte): nat {
    if b < 0x80 then 1
    else if 0xC2 <= b < 0xE0 then 2
    else if 0xE0 <= b < 0xF0 then 3
    else if 0xF0 <= b < 0xF5 then 4
    else 0
  }

  /** The scalar value a well-formed UTF-8 sequence stands for; None for an ill-formed one. */
  function DecodeScalar(bs: seq<Byte>): Option<char> {
    if |bs| == 1 && bs[0] < 0x80 then Some(bs[0] as char)
    else if |bs| == 2 && 0xC2 <= bs[0] < 0xE0 && IsContinuation(bs[1]) then
      Some(((bs[0] as int - 0xC0) * 64 + (bs[1] as int - 0x80)) as char)
    else if |bs| == 3 && 0xE0 <= bs[0] < 0xF0 && IsContinuation(bs[1]) && IsContinuation(bs[2]) then
      var n := (bs[0] as int - 0xE0) * 4096 + (bs[1] as int - 0x80) * 64 + (bs[2] as int - 0x80);
      if n < 0x800 || 0xD800 <= n < 0xE000 then None else Some(n as char)
    else if |bs| == 4 && 0xF0 <= bs[0] < 0xF5 && IsContinuation(bs[1]) && IsContinuation(bs[2])
            && IsContinuation(bs[3]) then
      var n := (bs[0] as int - 0xF0) * 0x40000 + (bs[1] as int - 0x80) * 4096
               + (bs[2] as int - 0x80) * 64 + (bs[3] as int - 0x80);
      if n < 0x10000 || 0x110000 <= n then None else Some(n as char)
    else None
  }

  lemma Split64(n: int)
    requires 0 <= n
    ensures n == n / 64 * 64 + n % 64
    ensures n / 64 == n / 4096 * 64 + n / 64 % 64
    ensures n / 4096 == n / 0x40000 * 64 + n / 4096 % 64
  {
  }

  /** Decoding the UTF-8 bytes of a character gives the character back. */
  lemma DecodeUtf8(ch: char)
    ensures SequenceLength(Utf8(ch)[0]) == |Utf8(ch)|
    ensures DecodeScalar(Utf8(ch)) == Some(ch)
  {
    var n := ch as int;
    Split64(n);
  }

  /** The hex digit for a value below 16, upper case. */
  function HexDigit(d: nat): (ch: char)
    requires d < 16
    ensures Strings.IsAsciiLetter(ch) || '0' <= ch <= '9'
  {
    if d < 10 then ('0' as int + d) as char else ('A' as int + d - 10) as char
  }

  /** The value of a hex digit of either case. */
  function HexValue(ch: char): (r: Option<nat>)
    ensures r.Some? ==> r.value < 16
  {
    if '0' <= ch <= '9' then Some(ch as int - '0' as int)
    else if 'A' <= ch <= 'F' then Some(ch as int - 'A' as int + 10)
    else if 'a' <= ch <= 'f' then Some(ch as int - 'a' as int + 10)
    else None
  }

  /** "%XX" for one byte. */
  function Escape(b: Byte): string {
    ['%', HexDigit(b / 16), HexDigit(b % 16)]
  }

  function EscapeBytes(bs: seq<Byte>): (s: string)
    ensures |s| == 3 * |bs|
  {
    if bs == [] then [] else Escape(bs[0]) + EscapeBytes(bs[1..])
  }

  /** The characters `encodeURIComponent` leaves alone. */
  predicate Unreserved(ch: char) {
    Strings.IsAsciiLetter(ch) || '0' <= ch <= '9' || ch in "-_.!~*'()"
  }

  /** The characters `encodeURI` leaves alone on top of the unreserved ones. */
  predicate Reserved(ch: char) {
    ch in ";/?:@&=+$,#"
  }

  predicate Kept(ch: char, wholeUri: bool) {
    Unreserved(ch) || (wholeUri && Reserved(ch))
  }

  function EncodeChar(ch: char, wholeUri: bool): string {
    if Kept(ch, wholeUri) then [ch] else EscapeBytes(Utf8(ch))
  }

  /** `encodeURI(s)` when `wholeUri`, `encodeURIComponent(s)` otherwise. */
  function Encode(s: string, wholeUri: bool): string {
    if s == [] then [] else EncodeChar(s[0], wholeUri) + Encode(s[1..], wholeUri)
  }

  function EncodeComponent(s: string): string {
    Encode(s, false)
  }

  function EncodeUri(s: string): string {
    Encode(s, true)
  }

  /** The byte written as "%XX" at index `i`, if there is one. */
  function ByteAt(s: string, i: nat): Option<Byte> {
    if i + 3 <= |s| && s[i] == '%' then
      match (HexValue(s[i + 1]), HexValue(s[i + 2]))
      case (Some(h), Some(l)) => Some(h * 16 + l)
      case _ => None
    else None
  }

  /** The `n` escaped bytes written from index `i` on. */
  function BytesAt(s: string, i: nat, n: nat): (r: Option<seq<Byte>>)
    ensures r.Some? ==> |r.value| == n
    decreases n
  {
    if n == 0 then Some([])
    else match (ByteAt(s, i), BytesAt(s, i + 3, n - 1))
      case (Some(b), Some(bs)) => Some([b] + bs)
      case _ => None
  }

  function Prepend(ch: char, rest: Option<string>): Option<string> {
    match rest
    case None => None
    case Some(t) => Some([ch] + t)
  }

  /** `decodeURIComponent(s)`; None where it would throw a URIError. */
  function Decode(s: string): Option<string>
    decreases |s|
  {
    if s == [] then Some([])
    else if s[0] != '%' then Prepend(s[0], Decode(s[1..]))
    else match ByteAt(s, 0)
      case None => None
      case Some(b0) =>
        var n := SequenceLength(b0);
        if n == 0 || |s| < 3 * n then None
        else match BytesAt(s, 0, n)
          case None => None
          case Some(bs) =>
            match DecodeScalar(bs)
            case None => None
            case Some(ch) => Prepend(ch, Decode(s[3 * n..]))
  }

  lemma HexRoundTrip(d: nat)
    requires d < 16
    ensures HexValue(HexDigit(d)) == Some(d)
  {
  }

  lemma {:induction false} EscapeSlice(bs: seq<Byte>, j: nat)
    requires j < |bs|
    ensures EscapeBytes(bs)[3 * j..3 * j + 3] == Escape(bs[j])
    decreases j
  {
    if j > 0 {
      EscapeSlice(bs[1..], j - 1);
      var t := EscapeBytes(bs[1..]);
      assert EscapeBytes(bs) == Escape(bs[0]) + t;
      assert EscapeBytes(bs)[3 * j..3 * j + 3] == t[3 * (j - 1)..3 * (j - 1) + 3];
    }
  }

  lemma ByteAtEscape(b: Byte, s: string, i: nat)
    requires i + 3 <= |s| && s[i..i + 3] == Escape(b)
    ensures ByteAt(s, i) == Some(b)
  {
    assert s[i] == '%' && s[i + 1] == HexDigit(b / 16) && s[i + 2] == HexDigit(b % 16);
    HexRoundTrip(b / 16);
    HexRoundTrip(b % 16);
  }

  lemma EscapeAt(bs: seq<Byte>, rest: string, j: nat)
    requires j < |bs|
    ensures ByteAt(EscapeBytes(bs) + rest, 3 * j) == Some(bs[j])
  {
    var s := EscapeBytes(bs) + rest;
    EscapeSlice(bs, j);
    Strings.SliceOfLeft(EscapeBytes(bs), rest, 3 * j, 3 * j + 3);
    ByteAtEscape(bs[j], s, 3 * j);
  }

  lemma {:induction false} EscapedBytesRead(bs: seq<Byte>, rest: string, j: nat)
    requires j <= |bs|
    ensures BytesAt(EscapeBytes(bs) + rest, 3 * j, |bs| - j) == Some(bs[j..])
    decreases |bs| - j
  {
    var s := EscapeBytes(bs) + rest;
    if j < |bs| {
      EscapedBytesRead(bs, rest, j + 1);
      EscapeAt(bs, rest, j);
      assert 3 * j + 3 == 3 * (j + 1);
      assert BytesAt(s, 3 * j, |bs| - j) == Some([bs[j]] + bs[j + 1..]);
      assert [bs[j]] + bs[j + 1..] == bs[j..];
    } else {
      assert bs[j..] == [];
    }
  }

  /** Decoding undoes the encoding of one character, whatever follows it. */
  lemma DecodeEncodeChar(ch: char, wholeUri: bool, rest: string)
    ensures Decode(EncodeChar(ch, wholeUri) + rest) == Prepend(ch, Decode(rest))
  {
    var s := EncodeChar(ch, wholeUri) + rest;
    if Kept(ch, wholeUri) {
      Strings.ConsParts(ch, rest);
    } else {
      var bs := Utf8(ch);
      DecodeUtf8(ch);
      EscapeAt(bs, rest, 0);
      EscapedBytesRead(bs, rest, 0);
      Strings.DropLeft(EscapeBytes(bs), rest);
    }
  }

  /** `decodeURIComponent` inverts both `encodeURIComponent` and `encodeURI`. */
  lemma {:induction false} DecodeEncode(s: string, wholeUri: bool)
    ensures Decode(Encode(s, wholeUri)) == Some(s)
    decreases |s|
  {
    if s != [] {
      DecodeEncode(s[1..], wholeUri);
      DecodeEncodeChar(s[0], wholeUri, Encode(s[1..], wholeUri));
      assert [s[0]] + s[1..] == s;
    }
  }

  /** Different strings never encode alike. */
  lemma EncodeInjective(s: string, t: string, wholeUri: bool)
    requires Encode(s, wholeUri) == Encode(t, wholeUri)
    ensures s == t
  {
    DecodeEncode(s, wholeUri);
    DecodeEncode(t, wholeUri);
  }

  /** Every character of an encoding is kept as it is or belongs to an escape. */
  lemma {:induction false} EncodeAlphabet(s: string, wholeUri: bool)
    ensures forall ch <- Encode(s, wholeUri) :: Kept(ch, wholeUri) || ch == '%'
    decreases |s|
  {
    if s != [] {
      EncodeAlphabet(s[1..], wholeUri);
      if !Kept(s[0], wholeUri) {
        EscapeAlphabet(Utf8(s[0]), wholeUri);
      }
    }
  }

  lemma {:induction false} EscapeAlphabet(bs: seq<Byte>, wholeUri: bool)
    ensures forall ch <- EscapeBytes(bs) :: Kept(ch, wholeUri) || ch == '%'
    decreases |bs|
  {
    if bs != [] {
      EscapeAlphabet(bs[1..], wholeUri);
    }
  }

  /** A string of kept characters is its own encoding. */
  lemma {:induction false} EncodeKept(s: string, wholeUri: bool)
    requires forall ch <- s :: Kept(ch, wholeUri)
    ensures Encode(s, wholeUri) == s
    decreases |s|
  {
    if s != [] {
      EncodeKept(s[1..], wholeUri);
      assert [s[0]] + s[1..] == s;
    }
  }

  /** The encoding of a non-empty string is non-empty. */
  lemma EncodeNonEmpty(s: string, wholeUri: bool)
    requires s != []
    ensures Encode(s, wholeUri) != []
  {
  }
}
