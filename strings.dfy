/**
 * The string operations of ECMAScript that the client relies on, restricted to
 * what it uses: `indexOf` / a literal `match`, `replace` with a literal pattern
 * (first occurrence only), `split` and `join` with a one-character separator,
 * and `toUpperCase` on ASCII letters.
 */
module Strings {
  import opened Wrappers

  /** `t` occurs in `s` starting at index `i`. */
  predicate OccursAt(s: string, t: string, i: nat) {
    i + |t| <= |s| && s[i..i + |t|] == t
  }

  /** The first index at or after `from` where `t` occurs in `s`. */
  function IndexFrom(s: string, t: string, from: nat): (r: Option<nat>)
    ensures r.Some? ==> from <= r.value && OccursAt(s, t, r.value)
    ensures r.Some? ==> forall j :: from <= j < r.value ==> !OccursAt(s, t, j)
    ensures r.None? ==> forall j :: from <= j ==> !OccursAt(s, t, j)
    decreases |s| - from
  {
    if from + |t| > |s| then None
    else if s[from..from + |t|] == t then Some(from)
    else IndexFrom(s, t, from + 1)
  }

  /** `s.indexOf(t)`, with "not found" as None. */
  function IndexOf(s: string, t: string): Option<nat> {
    IndexFrom(s, t, 0)
  }

  /** `s.match(t)` is truthy, for a pattern `t` without metacharacters. */
  predicate Contains(s: string, t: string) {
    IndexOf(s, t).Some?
  }

  /** `s.replace(t, r)` with a literal pattern: only the first occurrence is replaced. */
  function ReplaceFirst(s: string, t: string, r: string): string {
    match IndexOf(s, t)
    case None => s
    case Some(i) => s[..i] + r + s[i + |t|..]
  }

  /** Containment is exactly the existence of an occurrence. */
  lemma ContainsIff(s: string, t: string)
    ensures Contains(s, t) <==> exists i :: OccursAt(s, t, i)
  {
    if !Contains(s, t) {
      forall i ensures !OccursAt(s, t, i) { }
    }
  }

  /**
   * Replacing in `a + t + b` where `t` does not occur earlier than `|a|`
   * rewrites exactly that occurrence.
   */
  lemma ReplaceFirstAt(a: string, t: string, b: string, r: string)
    requires forall j :: 0 <= j < |a| ==> !OccursAt(a + t + b, t, j)
    ensures IndexOf(a + t + b, t) == Some(|a|)
    ensures ReplaceFirst(a + t + b, t, r) == a + r + b
  {
    var s := a + t + b;
    assert s[|a|..|a| + |t|] == t;
    assert OccursAt(s, t, |a|);
    var k := IndexOf(s, t);
    assert k.Some? && k.value == |a|;
    assert s[..|a|] == a;
    assert s[|a| + |t|..] == b;
  }

  /**
   * A pattern cannot occur inside a prefix that lacks the pattern's first character.
   */
  lemma NoEarlierMatch(a: string, t: string, b: string)
    requires |t| > 0 && t[0] !in a
    ensures forall j :: 0 <= j < |a| ==> !OccursAt(a + t + b, t, j)
  {
    var s := a + t + b;
    forall j | 0 <= j < |a| ensures !OccursAt(s, t, j) {
      assert s[j] == a[j] && a[j] in a;
      if j + |t| <= |s| {
        assert s[j..j + |t|][0] == s[j];
      }
    }
  }

  /** A string without ':' contains no pattern that starts with ':'. */
  lemma NoColonNoMatch(s: string, t: string)
    requires |t| > 0 && t[0] == ':' && ':' !in s
    ensures !Contains(s, t)
    ensures ReplaceFirst(s, t, "") == s
  {
    forall j: nat ensures !OccursAt(s, t, j) {
      if j + |t| <= |s| {
        assert s[j..j + |t|][0] == s[j] && s[j] in s;
      }
    }
  }

  /** `parts.join(sep)`. */
  function Join(parts: seq<string>, sep: string): string {
    if |parts| == 0 then ""
    else if |parts| == 1 then parts[0]
    else parts[0] + sep + Join(parts[1..], sep)
  }

  /** `s.split(c)`: the pieces between occurrences of `c`; never empty. */
  function Split(s: string, c: char): (parts: seq<string>)
    ensures |parts| >= 1
    ensures forall p <- parts :: c !in p
    decreases |s|
  {
    if s == [] then [""]
    else
      var rest := Split(s[1..], c);
      if s[0] == c then [""] + rest
      else [[s[0]] + rest[0]] + rest[1..]
  }

  lemma JoinCons(x: string, ps: seq<string>, sep: string)
    requires |ps| >= 1
    ensures Join([x + ps[0]] + ps[1..], sep) == x + Join(ps, sep)
  {
    var qs := [x + ps[0]] + ps[1..];
    if |ps| > 1 {
      assert qs[1..] == ps[1..];
    }
  }

  /** Joining the pieces of a split with the separator gives back the string. */
  lemma {:induction false} JoinSplit(s: string, c: char)
    ensures Join(Split(s, c), [c]) == s
    decreases |s|
  {
    if s != [] {
      var rest := Split(s[1..], c);
      JoinSplit(s[1..], c);
      if s[0] == c {
        assert ([""] + rest)[1..] == rest;
      } else {
        JoinCons([s[0]], rest, [c]);
      }
    }
  }

  lemma {:induction false} SplitNoSeparator(x: string, c: char)
    requires c !in x
    ensures Split(x, c) == [x]
    decreases |x|
  {
    if x != [] {
      SplitNoSeparator(x[1..], c);
      assert [x[0]] + x[1..] == x;
    }
  }

  lemma {:induction false} SplitAfterPiece(x: string, y: string, c: char)
    requires c !in x
    ensures Split(x + [c] + y, c) == [x] + Split(y, c)
    decreases |x|
  {
    var s := x + [c] + y;
    if x == [] {
      assert s[0] == c && s[1..] == y;
    } else {
      assert s[0] == x[0] && s[1..] == x[1..] + [c] + y;
      SplitAfterPiece(x[1..], y, c);
      assert [x[0]] + x[1..] == x;
    }
  }

  /** Splitting a join of separator-free pieces gives back the pieces. */
  lemma {:induction false} SplitJoin(parts: seq<string>, c: char)
    requires |parts| >= 1
    requires forall p <- parts :: c !in p
    ensures Split(Join(parts, [c]), c) == parts
    decreases |parts|
  {
    if |parts| == 1 {
      SplitNoSeparator(parts[0], c);
    } else {
      SplitJoin(parts[1..], c);
      SplitAfterPiece(parts[0], Join(parts[1..], [c]), c);
    }
  }

  /** Joining two non-empty lists is joining each and gluing with the separator. */
  lemma {:induction false} JoinAppend(xs: seq<string>, ys: seq<string>, sep: string)
    requires |xs| >= 1 && |ys| >= 1
    ensures Join(xs + ys, sep) == Join(xs, sep) + sep + Join(ys, sep)
    decreases |xs|
  {
    if |xs| == 1 {
      assert (xs + ys)[1..] == ys;
    } else {
      assert (xs + ys)[1..] == xs[1..] + ys;
      JoinAppend(xs[1..], ys, sep);
    }
  }

  /** `toUpperCase` on one character: ASCII a-z only. */
  function UpperChar(ch: char): char {
    if 'a' <= ch <= 'z' then (ch as int - 32) as char else ch
  }

  /** `s.toUpperCase()`, character by character. */
  function Upper(s: string): (u: string)
    ensures |u| == |s|
    ensures forall i :: 0 <= i < |s| ==> u[i] == UpperChar(s[i])
  {
    if s == [] then [] else [UpperChar(s[0])] + Upper(s[1..])
  }

  /** Upper-casing leaves no ASCII lower-case letter, and doing it twice changes nothing. */
  lemma UpperIdempotent(s: string)
    ensures forall i :: 0 <= i < |s| ==> !('a' <= Upper(s)[i] <= 'z')
    ensures Upper(Upper(s)) == Upper(s)
  {
  }

  predicate IsAsciiLetter(ch: char) {
    'a' <= ch <= 'z' || 'A' <= ch <= 'Z'
  }

  /** The ECMAScript line terminators, which `.` in a pattern does not match. */
  predicate IsLineTerminator(ch: char) {
    ch == '\n' || ch == '\r' || ch == '\U{2028}' || ch == '\U{2029}'
  }

  /** The characters matched by `\s` in an ECMAScript pattern. */
  predicate IsSpace(ch: char) {
    ch == '\t' || ch == '\U{000B}' || ch == '\U{000C}' || ch == ' ' || ch == '\U{00A0}'
    || ch == '\U{1680}' || ('\U{2000}' <= ch <= '\U{200A}') || ch == '\U{202F}'
    || ch == '\U{205F}' || ch == '\U{3000}' || ch == '\U{FEFF}' || IsLineTerminator(ch)
  }

  /** What `(.*)` captures: the longest prefix without a line terminator. */
  function TakeLine(s: string): (r: string)
    ensures |r| <= |s| && r == s[..|r|]
    ensures forall ch <- r :: !IsLineTerminator(ch)
    ensures |r| < |s| ==> IsLineTerminator(s[|r|])
  {
    if s == [] || IsLineTerminator(s[0]) then [] else [s[0]] + TakeLine(s[1..])
  }

  /** The longest prefix of ASCII letters. */
  function LeadingLetters(s: string): (r: string)
    ensures |r| <= |s| && r == s[..|r|]
    ensures forall ch <- r :: IsAsciiLetter(ch)
    ensures |r| < |s| ==> !IsAsciiLetter(s[|r|])
  {
    if s == [] || !IsAsciiLetter(s[0]) then [] else [s[0]] + LeadingLetters(s[1..])
  }

  /** A prefix one element longer is the prefix and that element. */
  lemma TakeOneMore<X>(s: seq<X>, c: nat)
    requires c < |s|
    ensures s[..c + 1] == s[..c] + [s[c]]
  {
  }

  /** The prefix as long as the sequence is the sequence. */
  lemma TakeAll<X>(s: seq<X>)
    ensures s[..|s|] == s
  {
  }

  /** A slice inside the left operand of a concatenation is a slice of that operand. */
  lemma SliceOfLeft<X>(a: seq<X>, b: seq<X>, i: nat, j: nat)
    requires i <= j <= |a|
    ensures (a + b)[i..j] == a[i..j]
  {
  }

  /** Dropping the head of a non-empty sequence commutes with appending at its end. */
  lemma DropHeadSnoc<X>(a: seq<X>, e: X)
    requires a != []
    ensures (a + [e])[0] == a[0] && (a + [e])[1..] == a[1..] + [e]
  {
  }

  /** Concatenation is associative. */
  lemma ConcatAssoc<X>(a: seq<X>, b: seq<X>, c: seq<X>)
    ensures a + (b + c) == (a + b) + c
  {
  }

  /** A character in neither word, and not a space, is not in the two words joined by a space. */
  lemma NotInJoined(a: string, b: string, ch: char)
    requires ch !in a && ch !in b && ch != ' '
    ensures ch !in a + " " + b
  {
  }

  /** A non-empty left operand keeps its head in front of a concatenation. */
  lemma HeadOfConcat<X>(a: seq<X>, r: seq<X>)
    requires a != []
    ensures (a + r)[0] == a[0] && (a + r)[1..] == a[1..] + r
    ensures [a[0]] + (a[1..] + r) == a + r
  {
  }

  /** The head and the tail of a sequence built from an element and a rest. */
  lemma ConsParts<X>(x: X, r: seq<X>)
    ensures ([x] + r)[0] == x && ([x] + r)[1..] == r
  {
  }

  /** An element missing from a non-empty sequence is missing from its tail and differs from its head. */
  lemma NotInTail<X>(a: seq<X>, x: X)
    requires a != [] && x !in a
    ensures x !in a[1..] && a[0] != x
  {
    assert a[0] in a;
  }

  /** An element in neither operand is not in their concatenation. */
  lemma NotInConcat<X>(a: seq<X>, b: seq<X>, x: X)
    requires x !in a && x !in b
    ensures x !in a + b
  {
  }

  /** The outer operands of a three-part concatenation are its prefix and its suffix. */
  lemma OuterParts<X>(a: seq<X>, m: seq<X>, b: seq<X>)
    ensures (a + m + b)[..|a|] == a && (a + m + b)[|a| + |m|..] == b
  {
  }

  /** Dropping the left operand of a concatenation leaves the right one. */
  lemma DropLeft<X>(a: seq<X>, b: seq<X>)
    ensures (a + b)[|a|..] == b
  {
  }
}
