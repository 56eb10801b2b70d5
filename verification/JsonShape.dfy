/**
 The canonical text byte for byte: what json.dumps with sorted keys writes, apart from being readable again.
 */
module JsonShape {
  import opened CanonicalJson

  /** The parts with a separator between them. */
  function Join(parts: seq<string>, separator: string): string {
    if parts == [] then ""
    else if |parts| == 1 then parts[0]
    else parts[0] + separator + Join(parts[1..], separator)
  }

  ghost function Texts(items: seq<Value>): (r: seq<string>)
    ensures |r| == |items| && forall i | 0 <= i < |items| :: r[i] == Print(items[i])
  {
    seq(|items|, i requires 0 <= i < |items| => Print(items[i]))
  }

  ghost function MemberTexts(fields: map<string, Value>, keys: seq<string>): (r: seq<string>)
    requires forall k | k in keys :: k in fields
    ensures |r| == |keys|
    ensures forall i | 0 <= i < |keys| ::
              keys[i] in fields && r[i] == PrintString(keys[i]) + ": " + Print(fields[keys[i]])
  {
    seq(|keys|, i requires 0 <= i < |keys| =>
      assert keys[i] in keys; PrintString(keys[i]) + ": " + Print(fields[keys[i]]))
  }

  lemma {:induction false} ItemsJoin(v: Value, items: seq<Value>)
    requires forall i | 0 <= i < |items| :: items[i] < v
    ensures PrintItems(v, items) == Join(Texts(items), ", ")
    decreases |items|
  {
    if |items| == 1 {
      assert Print(items[0]) + "" == Print(items[0]);
    } else if |items| > 1 {
      ItemsJoin(v, items[1..]);
      assert Texts(items)[1..] == Texts(items[1..]);
      Group(Print(items[0]), ", ", PrintItems(v, items[1..]));
    }
  }

  lemma Group(a: string, b: string, c: string)
    ensures a + b + c == a + (b + c)
  {
  }

  lemma {:induction false} FieldsJoin(v: Value, keys: seq<string>)
    requires v.Obj? && forall k | k in keys :: k in v.fields
    ensures PrintFields(v, keys) == Join(MemberTexts(v.fields, keys), ", ")
    decreases |keys|
  {
    if |keys| == 1 {
      var text := PrintString(keys[0]) + ": " + Print(v.fields[keys[0]]);
      assert text + "" == text;
    } else if |keys| > 1 {
      FieldsJoin(v, keys[1..]);
      assert MemberTexts(v.fields, keys)[1..] == MemberTexts(v.fields, keys[1..]);
      Group(PrintString(keys[0]) + ": " + Print(v.fields[keys[0]]), ", ", PrintFields(v, keys[1..]));
    }
  }

  /** An array is its elements between brackets, separated by a comma and a space. */
  lemma ArrayShape(items: seq<Value>)
    ensures Print(Arr(items)) == "[" + Join(Texts(items), ", ") + "]"
  {
    ItemsJoin(Arr(items), items);
  }

  /** The keys in the order of their code points. */
  predicate InCodePointOrder(a: string, b: string) {
    || (|a| < |b| && a == b[..|a|])
    || exists k | 0 <= k < |a| && k < |b| :: a[..k] == b[..k] && a[k] as int < b[k] as int
  }

  lemma {:induction false} StrLessMeaning(a: string, b: string)
    ensures StrLess(a, b) <==> InCodePointOrder(a, b)
    decreases |a|
  {
    if a != "" && b != "" && a[0] == b[0] {
      StrLessMeaning(a[1..], b[1..]);
      assert a == [a[0]] + a[1..] && b == [b[0]] + b[1..];
      if InCodePointOrder(a[1..], b[1..]) {
        ShiftOrder(a, b);
      }
      if InCodePointOrder(a, b) {
        UnshiftOrder(a, b);
      }
    } else if a != "" && b != "" && a[0] < b[0] {
      assert a[..0] == b[..0];
    }
  }

  lemma ShiftOrder(a: string, b: string)
    requires a != "" && b != "" && a[0] == b[0] && InCodePointOrder(a[1..], b[1..])
    ensures InCodePointOrder(a, b)
  {
    var x, y := a[1..], b[1..];
    if |x| < |y| && x == y[..|x|] {
      assert a == [a[0]] + x && b[..|a|] == [b[0]] + y[..|x|];
    } else {
      var k :| 0 <= k < |x| && k < |y| && x[..k] == y[..k] && x[k] as int < y[k] as int;
      assert a[..k + 1] == [a[0]] + x[..k] && b[..k + 1] == [b[0]] + y[..k];
      assert a[k + 1] == x[k] && b[k + 1] == y[k];
    }
  }

  lemma UnshiftOrder(a: string, b: string)
    requires a != "" && b != "" && a[0] == b[0] && InCodePointOrder(a, b)
    ensures InCodePointOrder(a[1..], b[1..])
  {
    var x, y := a[1..], b[1..];
    if |a| < |b| && a == b[..|a|] {
      assert x == b[..|a|][1..] == y[..|x|];
    } else {
      var k :| 0 <= k < |a| && k < |b| && a[..k] == b[..k] && a[k] as int < b[k] as int;
      assert x[..k - 1] == a[..k][1..] == b[..k][1..] == y[..k - 1];
      assert x[k - 1] == a[k] && y[k - 1] == b[k];
    }
  }

  /**
   An object is its members between braces, each a key, a colon, a space and a value, in code point order of
   the keys.
   */
  lemma ObjectShape(fields: map<string, Value>)
    ensures var keys := SortedKeys(fields.Keys);
            && (forall k :: k in keys <==> k in fields)
            && (forall i, j | 0 <= i < j < |keys| :: InCodePointOrder(keys[i], keys[j]))
            && Print(Obj(fields)) == "{" + Join(MemberTexts(fields, keys), ", ") + "}"
  {
    var keys := SortedKeys(fields.Keys);
    FieldsJoin(Obj(fields), keys);
    forall i, j | 0 <= i < j < |keys| ensures InCodePointOrder(keys[i], keys[j]) {
      StrLessMeaning(keys[i], keys[j]);
    }
  }

  /** Scalars, and a string between quotes. */
  lemma ScalarShapes(s: string, literal: string)
    ensures Print(Null) == "null" && Print(Bool(true)) == "true" && Print(Bool(false)) == "false"
    ensures Print(Str(s)) == "\"" + Escape(s) + "\"" && Print(Num(literal)) == literal
  {
  }

  predicate IsShort(c: char) {
    c in {'"', '\\', '\n', '\r', '\t', 8 as char, 12 as char}
  }

  /**
   Escapes are as short as ASCII output allows: printable characters stand for themselves, seven characters take two,
   the rest of the basic plane six, and everything above two escapes of six.
   */
  lemma EscapeLengths(c: char)
    ensures |EscapeRune(c)|
            == if IsShort(c) then 2 else if 0x20 <= c as int < 0x7f then 1 else if c as int <= 0xffff then 6 else 12
    ensures |EscapeRune(c)| == 1 ==> EscapeRune(c) == [c]
    ensures |EscapeRune(c)| > 1 ==> EscapeRune(c)[0] == '\\'
  {
  }

  /** Hexadecimal digits are lower case. */
  lemma HexIsLower(n: nat, i: nat)
    requires n < 0x10000 && i < 4
    ensures '0' <= Hex4(n)[i] <= '9' || 'a' <= Hex4(n)[i] <= 'f'
  {
  }
}
