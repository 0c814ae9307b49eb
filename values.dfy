/**
 * The JavaScript values the client receives as request data and template
 * defaults.  A plain object is an ordered list of entries, because `for…in`
 * visits its keys in insertion order and both serialization and placeholder
 * substitution follow that order.
 */
module JsValues {
  import opened Wrappers
  import Strings

  /**
   * A value as `typeof` and `String()` see it.  Numbers are integers.  An array
   * is held as what `for…in` enumerates of it: the entries "0", "1", … in order.
   */
  datatype Value =
    | Str(s: string)
    | Num(n: int)
    | Bool(b: bool)
    | Null
    | Arr(elems: Dict)
    | Obj(fields: Dict)

  datatype Entry = Entry(key: string, val: Value)

  /** A plain object: its own enumerable properties in `for…in` order. */
  type Dict = seq<Entry>

  function Keys(d: Dict): (ks: seq<string>)
    ensures |ks| == |d|
    ensures forall i :: 0 <= i < |d| ==> ks[i] == d[i].key
  {
    if d == [] then [] else [d[0].key] + Keys(d[1..])
  }

  /** `typeof d[k] !== 'undefined'`: the object has the key. */
  predicate Has(d: Dict, k: string) {
    k in Keys(d)
  }

  /** A JavaScript object never holds a key twice. */
  predicate UniqueKeys(d: Dict) {
    forall i, j :: 0 <= i < j < |d| ==> d[i].key != d[j].key
  }

  /** `d[k]`. */
  function Lookup(d: Dict, k: string): (r: Option<Value>)
    ensures r.Some? <==> Has(d, k)
    ensures r.Some? ==> exists i :: 0 <= i < |d| && d[i] == Entry(k, r.value)
  {
    if d == [] then None
    else if d[0].key == k then Some(d[0].val)
    else Lookup(d[1..], k)
  }

  /**
   * `d[k] = v`: an existing key keeps its place and takes the new value; a new
   * key goes to the end.
   */
  function Put(d: Dict, k: string, v: Value): (r: Dict)
    ensures Has(d, k) ==> Keys(r) == Keys(d)
    ensures !Has(d, k) ==> r == d + [Entry(k, v)]
    ensures Lookup(r, k) == Some(v)
    ensures forall k' :: k' != k ==> Lookup(r, k') == Lookup(d, k')
  {
    if d == [] then [Entry(k, v)]
    else if d[0].key == k then
      PutHead(d, k, v);
      [Entry(k, v)] + d[1..]
    else
      var rest := Put(d[1..], k, v);
      PutCons(d, k, v, rest);
      [d[0]] + rest
  }

  /** Overwriting the first entry keeps the keys and changes only that key's value. */
  lemma PutHead(d: Dict, k: string, v: Value)
    requires d != [] && d[0].key == k
    ensures Keys([Entry(k, v)] + d[1..]) == Keys(d)
    ensures Lookup([Entry(k, v)] + d[1..], k) == Some(v)
    ensures forall k' :: k' != k ==> Lookup([Entry(k, v)] + d[1..], k') == Lookup(d, k')
  {
    var r := [Entry(k, v)] + d[1..];
    assert r[1..] == d[1..];
  }

  /** Putting into the tail of a list whose head has another key. */
  lemma PutCons(d: Dict, k: string, v: Value, rest: Dict)
    requires d != [] && d[0].key != k
    requires Has(d[1..], k) ==> Keys(rest) == Keys(d[1..])
    requires !Has(d[1..], k) ==> rest == d[1..] + [Entry(k, v)]
    requires Lookup(rest, k) == Some(v)
    requires forall k' :: k' != k ==> Lookup(rest, k') == Lookup(d[1..], k')
    ensures Has(d, k) ==> Keys([d[0]] + rest) == Keys(d)
    ensures !Has(d, k) ==> [d[0]] + rest == d + [Entry(k, v)]
    ensures Lookup([d[0]] + rest, k) == Some(v)
    ensures forall k' :: k' != k ==> Lookup([d[0]] + rest, k') == Lookup(d, k')
  {
    KeysCons(d);
    if Has(d, k) {
      PutConsKeys(d, rest);
    } else {
      PutConsAppend(d, rest, Entry(k, v));
    }
    PutConsLookup(d, k, rest);
  }

  lemma PutConsKeys(d: Dict, rest: Dict)
    requires d != [] && Keys(rest) == Keys(d[1..])
    ensures Keys([d[0]] + rest) == Keys(d)
  {
    var r := [d[0]] + rest;
    assert r[1..] == rest;
    KeysCons(d);
    KeysCons(r);
  }

  lemma PutConsAppend(d: Dict, rest: Dict, e: Entry)
    requires d != [] && rest == d[1..] + [e]
    ensures [d[0]] + rest == d + [e]
  {
    assert d == [d[0]] + d[1..];
  }

  lemma PutConsLookup(d: Dict, k: string, rest: Dict)
    requires d != [] && d[0].key != k
    ensures Lookup([d[0]] + rest, k) == Lookup(rest, k)
    ensures forall k' :: Lookup([d[0]] + rest, k') == if k' == d[0].key then Some(d[0].val) else Lookup(rest, k')
  {
    var r := [d[0]] + rest;
    assert r[1..] == rest;
  }

  lemma KeysCons(d: Dict)
    requires d != []
    ensures Keys(d) == [d[0].key] + Keys(d[1..])
  {
  }

  /** The tail of a dictionary with distinct keys has distinct keys and lacks the head's key. */
  lemma UniqueTail(d: Dict)
    requires d != [] && UniqueKeys(d)
    ensures UniqueKeys(d[1..]) && !Has(d[1..], d[0].key)
  {
    forall i | 0 <= i < |d[1..]| ensures Keys(d[1..])[i] != d[0].key {
      assert d[1..][i] == d[i + 1];
    }
  }

  /** `delete d[k]`. */
  function Delete(d: Dict, k: string): (r: Dict)
    ensures !Has(r, k)
    ensures forall k' :: k' != k ==> Lookup(r, k') == Lookup(d, k')
    ensures |r| <= |d|
  {
    if d == [] then []
    else if d[0].key == k then Delete(d[1..], k)
    else [d[0]] + Delete(d[1..], k)
  }

  /** In an object with distinct keys, looking up an entry's key finds that entry. */
  lemma {:induction false} LookupUnique(d: Dict, i: nat)
    requires UniqueKeys(d) && i < |d|
    ensures Lookup(d, d[i].key) == Some(d[i].val)
  {
    if i > 0 {
      LookupUnique(d[1..], i - 1);
    }
  }

  /** `typeof v === 'object'`: objects, arrays and null. */
  predicate IsObject(v: Value) {
    v.Obj? || v.Arr? || v.Null?
  }

  /** What `for (k in v)` visits: nothing for null. */
  function Fields(v: Value): Dict
    requires IsObject(v)
  {
    match v
    case Obj(d) => d
    case Arr(d) => d
    case Null => []
  }

  function Digit(d: nat): char
    requires d < 10
  {
    ('0' as int + d) as char
  }

  predicate IsDigits(s: string) {
    forall i :: 0 <= i < |s| ==> '0' <= s[i] <= '9'
  }

  /** The decimal numeral of a natural number, without leading zeros. */
  function NatToString(n: nat): (s: string)
    ensures |s| >= 1
    ensures IsDigits(s)
    ensures |s| > 1 ==> s[0] != '0'
  {
    if n < 10 then [Digit(n)] else NatToString(n / 10) + [Digit(n % 10)]
  }

  /** `String(n)` for an integer. */
  function IntToString(n: int): string {
    if n < 0 then "-" + NatToString(-n) else NatToString(n)
  }

  /** The value of a string of decimal digits. */
  function DigitsValue(s: string): nat
    requires IsDigits(s)
  {
    if s == [] then 0 else DigitsValue(s[..|s| - 1]) * 10 + (s[|s| - 1] as int - '0' as int)
  }

  /** Reading a numeral back gives the number it was written from. */
  lemma {:induction false} NatToStringRoundTrip(n: nat)
    ensures DigitsValue(NatToString(n)) == n
  {
    if n >= 10 {
      NatToStringRoundTrip(n / 10);
      var s := NatToString(n);
      assert s[..|s| - 1] == NatToString(n / 10);
    }
  }

  /** Distinct numbers have distinct numerals. */
  lemma NatToStringInjective(m: nat, n: nat)
    requires NatToString(m) == NatToString(n)
    ensures m == n
  {
    NatToStringRoundTrip(m);
    NatToStringRoundTrip(n);
  }

  /** `String(v)`: how a value turns into text when concatenated or substituted. */
  function ToStr(v: Value): string
    decreases v
  {
    match v
    case Str(s) => s
    case Num(n) => IntToString(n)
    case Bool(b) => if b then "true" else "false"
    case Null => "null"
    case Arr(d) => JoinElements(d)
    case Obj(_) => "[object Object]"
  }

  /** `Array.prototype.join(',')`: null elements print as nothing. */
  function JoinElements(d: Dict): string
    decreases d
  {
    if d == [] then ""
    else
      var first := if d[0].val.Null? then "" else ToStr(d[0].val);
      if |d| == 1 then first else first + "," + JoinElements(d[1..])
  }

  /** An array built from its elements, with index keys. */
  function ArrayOf(items: seq<Value>): Value {
    Arr(seq(|items|, i requires 0 <= i < |items| => Entry(NatToString(i), items[i])))
  }
}
