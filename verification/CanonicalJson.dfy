/**
 The canonical JSON printer behind ClusterHash (internal/hardware/hash.go): json.dumps with sorted
 keys, ", " and ": " separators and ASCII-only strings.  A JSON reader for the grammar of sections
 2 to 7 of RFC 8259 (with integer numbers) is given beside it and shown to be its left inverse.

 A Dafny char is a Unicode scalar value, which is what ranging over a valid Go string yields.
 */
module CanonicalJson {
  /** A decoded JSON value; a number keeps its literal text, as json.Number does. */
  datatype Value =
    | Null | Bool(b: bool) | Str(s: string) | Num(literal: string)
    | Arr(items: seq<Value>) | Obj(fields: map<string, Value>)

  predicate IsDigit(c: char) {
    '0' <= c <= '9'
  }

  predicate AllDigits(s: string) {
    forall i | 0 <= i < |s| :: IsDigit(s[i])
  }

  /** int of RFC 8259 section 6, without sign: "0", or digits not starting with 0. */
  predicate IsMagnitude(s: string) {
    s == "0" || (s != "" && AllDigits(s) && s[0] != '0')
  }

  predicate IsInteger(s: string) {
    IsMagnitude(s) || (s != "" && s[0] == '-' && IsMagnitude(s[1..]))
  }

  /** Every number in the value is an integer literal. */
  predicate Integral(v: Value) {
    match v
    case Num(literal) => IsInteger(literal)
    case Arr(items) => forall i | 0 <= i < |items| :: Integral(items[i])
    case Obj(fields) => forall k | k in fields :: Integral(fields[k])
    case _ => true
  }

  // ---------------------------------------------------------------------------------------
  // Strings

  function HexDigit(n: nat): char
    requires n < 16
  {
    "0123456789abcdef"[n]
  }

  function Hex4(n: nat): string
    requires n < 0x10000
  {
    [HexDigit(n / 4096 % 16), HexDigit(n / 256 % 16), HexDigit(n / 16 % 16), HexDigit(n % 16)]
  }

  /** writeUnicodeEscape. */
  function UnicodeEscape(n: nat): string
    requires n < 0x10000
  {
    "\\u" + Hex4(n)
  }

  const BACKSPACE := 8 as char
  const FORM_FEED := 12 as char

  /** utf16.EncodeRune. */
  function HighSurrogate(r: nat): (n: nat)
    requires 0x10000 <= r < 0x110000
    ensures 0xd800 <= n < 0xdc00
  {
    0xd800 + (r - 0x10000) / 0x400
  }

  function LowSurrogate(r: nat): (n: nat)
    requires 0x10000 <= r < 0x110000
    ensures 0xdc00 <= n < 0xe000
  {
    0xdc00 + (r - 0x10000) % 0x400
  }

  /** The loop body of writePythonString. */
  function EscapeRune(c: char): string {
    var r := c as int;
    if c == '"' then "\\\""
    else if c == '\\' then "\\\\"
    else if c == '\n' then "\\n"
    else if c == '\r' then "\\r"
    else if c == '\t' then "\\t"
    else if c == BACKSPACE then "\\b"
    else if c == FORM_FEED then "\\f"
    else if 0x20 <= r < 0x7f then [c]
    else if r > 0xffff then
      UnicodeEscape(HighSurrogate(r)) + UnicodeEscape(LowSurrogate(r))
    else UnicodeEscape(r)
  }

  function Escape(s: string): string {
    if s == "" then "" else EscapeRune(s[0]) + Escape(s[1..])
  }

  function PrintString(s: string): string {
    "\"" + Escape(s) + "\""
  }

  // ---------------------------------------------------------------------------------------
  // Key order

  /** sort.Strings: byte order of UTF-8, which is the order of the code points. */
  predicate StrLess(a: string, b: string) {
    b != "" && (a == "" || a[0] < b[0] || (a[0] == b[0] && StrLess(a[1..], b[1..])))
  }

  lemma {:induction false} StrLessTotal(a: string, b: string)
    ensures StrLess(a, b) || a == b || StrLess(b, a)
    ensures !(StrLess(a, b) && StrLess(b, a)) && (a == b ==> !StrLess(a, b))
    decreases a
  {
    if a != "" && b != "" && a[0] == b[0] {
      StrLessTotal(a[1..], b[1..]);
      assert a == [a[0]] + a[1..] && b == [b[0]] + b[1..];
    }
  }

  lemma {:induction false} StrLessTransitive(a: string, b: string, c: string)
    requires StrLess(a, b) && StrLess(b, c)
    ensures StrLess(a, c)
    decreases a
  {
    if a != "" && a[0] == b[0] == c[0] {
      StrLessTransitive(a[1..], b[1..], c[1..]);
    }
  }

  predicate Ascending(keys: seq<string>) {
    forall i, j | 0 <= i < j < |keys| :: StrLess(keys[i], keys[j])
  }

  ghost predicate IsLeast(k: string, s: set<string>) {
    k in s && forall x | x in s :: x == k || StrLess(k, x)
  }

  lemma {:induction false} LeastExists(s: set<string>)
    requires s != {}
    ensures exists k :: IsLeast(k, s)
  {
    var x :| x in s;
    if s == {x} {
      assert IsLeast(x, s);
    } else {
      LeastExists(s - {x});
      var m :| IsLeast(m, s - {x});
      StrLessTotal(m, x);
      if StrLess(m, x) {
        assert IsLeast(m, s);
      } else {
        forall y | y in s ensures y == x || StrLess(x, y) {
          if y != x && y != m { StrLessTransitive(x, m, y); }
        }
        assert IsLeast(x, s);
      }
    }
  }

  ghost function Least(s: set<string>): (k: string)
    requires s != {}
    ensures IsLeast(k, s)
  {
    LeastExists(s);
    var k :| IsLeast(k, s);
    k
  }

  /** The keys in ascending order. */
  ghost function SortedKeys(s: set<string>): (l: seq<string>)
    ensures forall k :: k in l <==> k in s
    ensures Ascending(l)
  {
    if s == {} then [] else
      var k := Least(s);
      [k] + SortedKeys(s - {k})
  }

  /** Only one ascending list holds these keys: the order in which a map is ranged over cannot matter. */
  lemma {:induction false} SortedKeysUnique(l: seq<string>, s: set<string>)
    requires Ascending(l) && forall k :: k in l <==> k in s
    ensures l == SortedKeys(s)
    decreases |l|
  {
    if l == [] {
      assert s == {};
    } else {
      var k := l[0];
      assert k in s;
      assert Least(s) == k by {
        var m := Least(s);
        StrLessTotal(m, k);
        var i :| 0 <= i < |l| && l[i] == m;
        assert i == 0 || StrLess(k, m);
      }
      forall x ensures x in l[1..] <==> x in s - {k} {
        if x in l[1..] {
          var i :| 0 < i < |l| && l[i] == x;
          StrLessTotal(k, x);
        }
      }
      SortedKeysUnique(l[1..], s - {k});
    }
  }

  // ---------------------------------------------------------------------------------------
  // The printer's output as a function of the value

  ghost function Print(v: Value): string
    decreases v, 2
  {
    match v
    case Null => "null"
    case Bool(b) => if b then "true" else "false"
    case Str(s) => PrintString(s)
    case Num(literal) => literal
    case Arr(items) => "[" + PrintItems(v, items) + "]"
    case Obj(fields) => "{" + PrintFields(v, SortedKeys(fields.Keys)) + "}"
  }

  ghost function PrintItems(v: Value, items: seq<Value>): string
    requires forall i | 0 <= i < |items| :: items[i] < v
    decreases v, 1, |items|
  {
    if items == [] then "" else
      Print(items[0]) + if |items| == 1 then "" else ", " + PrintItems(v, items[1..])
  }

  ghost function PrintFields(v: Value, keys: seq<string>): string
    requires v.Obj? && forall k | k in keys :: k in v.fields
    decreases v, 1, |keys|
  {
    if keys == [] then "" else
      PrintString(keys[0]) + ": " + Print(v.fields[keys[0]])
      + if |keys| == 1 then "" else ", " + PrintFields(v, keys[1..])
  }
}
