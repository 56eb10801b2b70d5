/** A JSON reader and the proof that it undoes the canonical printer. */
module JsonReader {
  import opened Options
  import opened CanonicalJson

  datatype Parsed<+T> = Ok(value: T, rest: string) | Fail

  predicate IsSpace(c: char) {
    c == ' ' || c == '\t' || c == '\n' || c == '\r'
  }

  function SkipSpace(s: string): (r: string)
    ensures |r| <= |s|
  {
    if s != "" && IsSpace(s[0]) then SkipSpace(s[1..]) else s
  }

  function HexValue(c: char): (r: Option<nat>)
    ensures r.Some? ==> r.value < 16
  {
    if '0' <= c <= '9' then Some(c as int - '0' as int)
    else if 'a' <= c <= 'f' then Some(c as int - 'a' as int + 10)
    else if 'A' <= c <= 'F' then Some(c as int - 'A' as int + 10)
    else None
  }

  /** Four hexadecimal digits. */
  function ReadHex(s: string): (r: Option<nat>)
    ensures r.Some? ==> |s| >= 4 && r.value < 0x10000
  {
    if |s| < 4 then None else
      var a, b, c, d := HexValue(s[0]), HexValue(s[1]), HexValue(s[2]), HexValue(s[3]);
      if a.None? || b.None? || c.None? || d.None? then None
      else Some(a.value * 4096 + b.value * 256 + c.value * 16 + d.value)
  }

  /**
   One `\uXXXX` escape after its `\u`, taking a low surrogate along with its high one; a lone surrogate reads
   as U+FFFD.
   */
  function ReadUnicode(s: string): (r: Parsed<char>)
    ensures r.Ok? ==> |r.rest| < |s|
  {
    var n := ReadHex(s);
    if n.None? then Fail
    else if n.value < 0xd800 || 0xe000 <= n.value then Ok(n.value as char, s[4..])
    else if n.value < 0xdc00 && |s| >= 6 && s[4] == '\\' && s[5] == 'u' then
      var low := ReadHex(s[6..]);
      if low.Some? && 0xdc00 <= low.value < 0xe000 then
        Ok((0x10000 + (n.value - 0xd800) * 0x400 + (low.value - 0xdc00)) as char, s[10..])
      else Ok(0xfffd as char, s[4..])
    else Ok(0xfffd as char, s[4..])
  }

  /** One character of a string, escaped or not. */
  function ReadRune(s: string): (r: Parsed<char>)
    ensures r.Ok? ==> |r.rest| < |s|
  {
    if s == "" || s[0] == '"' || s[0] as int < 0x20 then Fail
    else if s[0] != '\\' then Ok(s[0], s[1..])
    else if |s| == 1 then Fail
    else
      var c, rest := s[1], s[2..];
      if c == '"' || c == '\\' || c == '/' then Ok(c, rest)
      else if c == 'n' then Ok('\n', rest)
      else if c == 'r' then Ok('\r', rest)
      else if c == 't' then Ok('\t', rest)
      else if c == 'b' then Ok(BACKSPACE, rest)
      else if c == 'f' then Ok(FORM_FEED, rest)
      else if c == 'u' then ReadUnicode(rest)
      else Fail
  }

  /** The rest of a string after its opening quote. */
  function ReadString(s: string): (r: Parsed<string>)
    ensures r.Ok? ==> |r.rest| < |s|
    decreases |s|
  {
    if s != "" && s[0] == '"' then Ok("", s[1..]) else
      var head := ReadRune(s);
      if head.Fail? then Fail else
        var tail := ReadString(head.rest);
        if tail.Fail? then Fail else Ok([head.value] + tail.value, tail.rest)
  }

  /** How many digits `s` starts with. */
  function DigitCount(s: string): (n: nat)
    ensures n <= |s| && AllDigits(s[..n])
    ensures n < |s| ==> !IsDigit(s[n])
  {
    if s != "" && IsDigit(s[0]) then 1 + DigitCount(s[1..]) else 0
  }

  /** A leading zero stands alone. */
  function ReadMagnitude(s: string): (r: Parsed<string>)
    ensures r.Ok? ==> |r.rest| < |s|
  {
    if s != "" && s[0] == '0' then Ok("0", s[1..]) else
      var n := DigitCount(s);
      if n == 0 then Fail else Ok(s[..n], s[n..])
  }

  function ReadNumber(s: string): (r: Parsed<string>)
    ensures r.Ok? ==> |r.rest| < |s|
  {
    if s != "" && s[0] == '-' then
      var m := ReadMagnitude(s[1..]);
      if m.Fail? then Fail else Ok("-" + m.value, m.rest)
    else ReadMagnitude(s)
  }

  function ReadValue(s: string): (r: Parsed<Value>)
    ensures r.Ok? ==> |r.rest| < |s|
    decreases |s|, 1
  {
    if s == "" then Fail
    else if s[0] == 'n' then if "null" <= s then Ok(Null, s[4..]) else Fail
    else if s[0] == 't' then if "true" <= s then Ok(Bool(true), s[4..]) else Fail
    else if s[0] == 'f' then if "false" <= s then Ok(Bool(false), s[5..]) else Fail
    else if s[0] == '"' then
      var t := ReadString(s[1..]);
      if t.Fail? then Fail else Ok(Str(t.value), t.rest)
    else if s[0] == '[' then
      var t := SkipSpace(s[1..]);
      if t != "" && t[0] == ']' then Ok(Arr([]), t[1..]) else
        var items := ReadItems(t);
        if items.Fail? then Fail else Ok(Arr(items.value), items.rest)
    else if s[0] == '{' then
      var t := SkipSpace(s[1..]);
      if t != "" && t[0] == '}' then Ok(Obj(map[]), t[1..]) else
        var fields := ReadFields(t);
        if fields.Fail? then Fail else Ok(Obj(fields.value), fields.rest)
    else
      var n := ReadNumber(s);
      if n.Fail? then Fail else Ok(Num(n.value), n.rest)
  }

  /** One or more array elements up to and including the closing bracket. */
  function ReadItems(s: string): (r: Parsed<seq<Value>>)
    ensures r.Ok? ==> |r.rest| < |s|
    decreases |s|, 2
  {
    var v := ReadValue(s);
    if v.Fail? then Fail else
      var t := SkipSpace(v.rest);
      if t == "" then Fail
      else if t[0] == ']' then Ok([v.value], t[1..])
      else if t[0] != ',' then Fail
      else
        var more := ReadItems(SkipSpace(t[1..]));
        if more.Fail? then Fail else Ok([v.value] + more.value, more.rest)
  }

  /** One or more members up to and including the closing brace; the last of equal keys wins. */
  function ReadFields(s: string): (r: Parsed<map<string, Value>>)
    ensures r.Ok? ==> |r.rest| < |s|
    decreases |s|, 2
  {
    if s == "" || s[0] != '"' then Fail else
      var k := ReadString(s[1..]);
      if k.Fail? then Fail else
        var t := SkipSpace(k.rest);
        if t == "" || t[0] != ':' then Fail else
          var v := ReadValue(SkipSpace(t[1..]));
          if v.Fail? then Fail else
            var u := SkipSpace(v.rest);
            if u == "" then Fail
            else if u[0] == '}' then Ok(map[k.value := v.value], u[1..])
            else if u[0] != ',' then Fail
            else
              var more := ReadFields(SkipSpace(u[1..]));
              if more.Fail? then Fail else Ok(map[k.value := v.value] + more.value, more.rest)
  }

  // ---------------------------------------------------------------------------------------
  // Strings come back

  lemma HexDigitRoundTrip(n: nat)
    requires n < 16
    ensures HexValue(HexDigit(n)) == Some(n)
  {
  }

  lemma HexParts(n: nat)
    requires n < 0x10000
    ensures n == (n / 4096 % 16) * 4096 + (n / 256 % 16) * 256 + (n / 16 % 16) * 16 + n % 16
  {
    var a, b, c := n / 16, n / 256, n / 4096;
    assert b == a / 16 && c == b / 16;
  }

  lemma HexRoundTrip(n: nat, rest: string)
    requires n < 0x10000
    ensures ReadHex(Hex4(n) + rest) == Some(n)
  {
    HexDigitRoundTrip(n / 4096 % 16);
    HexDigitRoundTrip(n / 256 % 16);
    HexDigitRoundTrip(n / 16 % 16);
    HexDigitRoundTrip(n % 16);
    HexParts(n);
  }

  /** What a reader sees of an escape: `\u`, four digits that read as n, and the rest. */
  lemma EscapeReads(n: nat, rest: string)
    requires n < 0x10000
    ensures var s := UnicodeEscape(n) + rest;
            && s[0] == '\\' && s[1] == 'u' && |s| == 6 + |rest|
            && s[2..] == Hex4(n) + rest
            && ReadHex(s[2..]) == Some(n)
            && s[6..] == rest && s[2..][4..] == rest
  {
    HexRoundTrip(n, rest);
    var s := UnicodeEscape(n) + rest;
    assert s[2..] == Hex4(n) + rest;
  }

  /** A `\u` escape is read by ReadUnicode. */
  lemma ReadsUnicode(s: string)
    requires |s| >= 2 && s[0] == '\\' && s[1] == 'u'
    ensures ReadRune(s) == ReadUnicode(s[2..])
  {
  }

  lemma PairReads(head: string, high: nat, second: string, low: nat, rest: string)
    requires 0xd800 <= high < 0xdc00 && 0xdc00 <= low < 0xe000 && |head| == 4
    requires ReadHex(head + second) == Some(high)
    requires |second| == 6 + |rest| && second[0] == '\\' && second[1] == 'u'
    requires ReadHex(second[2..]) == Some(low) && second[6..] == rest
    ensures ReadUnicode(head + second) == Ok((0x10000 + (high - 0xd800) * 0x400 + (low - 0xdc00)) as char, rest)
  {
    var body := head + second;
    assert body[4] == second[0] && body[5] == second[1];
    assert body[6..] == second[2..];
    assert body[10..] == second[6..];
  }

  lemma PairRoundTrip(high: nat, low: nat, rest: string)
    requires 0xd800 <= high < 0xdc00 && 0xdc00 <= low < 0xe000
    ensures ReadRune(UnicodeEscape(high) + (UnicodeEscape(low) + rest))
            == Ok((0x10000 + (high - 0xd800) * 0x400 + (low - 0xdc00)) as char, rest)
  {
    var second := UnicodeEscape(low) + rest;
    EscapeReads(low, rest);
    EscapeReads(high, second);
    ReadsUnicode(UnicodeEscape(high) + second);
    PairReads(Hex4(high), high, second, low, rest);
  }

  /** utf16.EncodeRune splits a code point into halves that recombine to it. */
  lemma SurrogateHalves(c: char) returns (high: nat, low: nat)
    requires c as int > 0xffff
    ensures 0xd800 <= high < 0xdc00 && 0xdc00 <= low < 0xe000
    ensures 0x10000 + (high - 0xd800) * 0x400 + (low - 0xdc00) == c as int
    ensures EscapeRune(c) == UnicodeEscape(high) + UnicodeEscape(low)
  {
    high, low := HighSurrogate(c as int), LowSurrogate(c as int);
  }

  /** A code point outside the BMP is written as a surrogate pair that decodes to it. */
  lemma SurrogatePairRoundTrip(c: char, rest: string)
    requires c as int > 0xffff
    ensures ReadRune(EscapeRune(c) + rest) == Ok(c, rest)
  {
    var high, low := SurrogateHalves(c);
    PairRoundTrip(high, low, rest);
    Associate(UnicodeEscape(high), UnicodeEscape(low), rest);
  }

  lemma Associate(a: string, b: string, c: string)
    ensures (a + b) + c == a + (b + c)
  {
  }

  lemma BmpEscapeRoundTrip(c: char, rest: string)
    requires c as int <= 0xffff
    ensures ReadRune(UnicodeEscape(c as int) + rest) == Ok(c, rest)
  {
    EscapeReads(c as int, rest);
  }

  lemma RuneRoundTrip(c: char, rest: string)
    ensures ReadRune(EscapeRune(c) + rest) == Ok(c, rest)
  {
    var s := EscapeRune(c) + rest;
    if c as int > 0xffff {
      SurrogatePairRoundTrip(c, rest);
    } else if EscapeRune(c) == UnicodeEscape(c as int) {
      BmpEscapeRoundTrip(c, rest);
    } else if EscapeRune(c) == [c] {
      assert s[1..] == rest;
    } else {
      ShortEscapeRoundTrip(c, rest);
    }
  }

  lemma ShortEscapeRoundTrip(c: char, rest: string)
    requires |EscapeRune(c)| == 2
    ensures ReadRune(EscapeRune(c) + rest) == Ok(c, rest)
  {
    assert (EscapeRune(c) + rest)[2..] == rest;
  }

  lemma EscapeRuneStart(c: char)
    ensures EscapeRune(c) != "" && EscapeRune(c)[0] != '"'
  {
  }

  lemma {:induction false} StringRoundTrip(t: string, rest: string)
    ensures ReadString(Escape(t) + "\"" + rest) == Ok(t, rest)
    decreases t
  {
    var s := Escape(t) + "\"" + rest;
    if t == "" {
      assert s == "\"" + rest;
    } else {
      var tail := Escape(t[1..]) + "\"" + rest;
      assert s == EscapeRune(t[0]) + tail;
      EscapeRuneStart(t[0]);
      RuneRoundTrip(t[0], tail);
      StringRoundTrip(t[1..], rest);
      assert t == [t[0]] + t[1..];
    }
  }

  // ---------------------------------------------------------------------------------------
  // Numbers come back when no digit follows

  predicate NoDigit(rest: string) {
    rest == "" || !IsDigit(rest[0])
  }

  lemma {:induction false} DigitCountOf(s: string, rest: string)
    requires AllDigits(s) && NoDigit(rest)
    ensures DigitCount(s + rest) == |s|
    decreases s
  {
    if s == "" {
      assert s + rest == rest;
    } else {
      assert (s + rest)[1..] == s[1..] + rest;
      DigitCountOf(s[1..], rest);
    }
  }

  lemma NumberRoundTrip(s: string, rest: string)
    requires IsInteger(s) && NoDigit(rest)
    ensures ReadNumber(s + rest) == Ok(s, rest)
  {
    var m := if s[0] == '-' then s[1..] else s;
    assert (m + rest)[..|m|] == m && (m + rest)[|m|..] == rest;
    if m != "0" {
      DigitCountOf(m, rest);
    }
    if s[0] == '-' {
      assert (s + rest)[1..] == m + rest && s == "-" + m;
    }
  }

  // ---------------------------------------------------------------------------------------
  // Values come back

  predicate ValueStart(c: char) {
    c == 'n' || c == 't' || c == 'f' || c == '"' || c == '-' || IsDigit(c) || c == '[' || c == '{'
  }

  lemma PrintStart(v: Value)
    requires Integral(v)
    ensures Print(v) != "" && ValueStart(Print(v)[0])
  {
  }

  lemma SkipOne(s: string)
    requires s == "" || !IsSpace(s[0])
    ensures SkipSpace(s) == s && SkipSpace(" " + s) == s
  {
    assert (" " + s)[1..] == s;
  }

  lemma LiteralRoundTrip(v: Value, rest: string)
    requires v.Null? || v.Bool?
    ensures ReadValue(Print(v) + rest) == Ok(v, rest)
  {
    var s := Print(v) + rest;
    assert s[|Print(v)|..] == rest;
    assert s[0] == if v.Null? then 'n' else if v.b then 't' else 'f';
  }

  lemma StrRoundTrip(t: string, rest: string)
    ensures ReadValue(PrintString(t) + rest) == Ok(Str(t), rest)
  {
    var s := PrintString(t) + rest;
    assert s[0] == '"' && s[1..] == Escape(t) + "\"" + rest;
    StringRoundTrip(t, rest);
  }

  lemma NumRoundTrip(literal: string, rest: string)
    requires IsInteger(literal) && NoDigit(rest)
    ensures ReadValue(literal + rest) == Ok(Num(literal), rest)
  {
    var s := literal + rest;
    assert s[0] == literal[0] && (s[0] == '-' || IsDigit(s[0]));
    NumberRoundTrip(literal, rest);
  }

  /** Reading a printed value, followed by anything that is not a digit, gives the value back. */
  lemma {:induction false} ValueRoundTrip(v: Value, rest: string)
    requires Integral(v) && NoDigit(rest)
    ensures ReadValue(Print(v) + rest) == Ok(v, rest)
    decreases v, 2
  {
    match v
    case Str(t) => StrRoundTrip(t, rest);
    case Num(literal) => NumRoundTrip(literal, rest);
    case Arr(_) => ArrayRoundTrip(v, rest);
    case Obj(_) => ObjectRoundTrip(v, rest);
    case _ => LiteralRoundTrip(v, rest);
  }

  lemma {:induction false} ArrayRoundTrip(v: Value, rest: string)
    requires v.Arr? && Integral(v)
    ensures ReadValue(Print(v) + rest) == Ok(v, rest)
    decreases v, 1, |v.items| + 1
  {
    ArrayText(v, rest);
    if v.items == [] {
      ReadsEmptyArray(rest);
    } else {
      ItemsStart(v, v.items);
      ItemsRoundTrip(v, v.items, rest);
      ReadsArray(PrintItems(v, v.items) + "]" + rest, v.items, rest);
    }
  }

  lemma ArrayText(v: Value, rest: string)
    requires v.Arr?
    ensures Print(v) + rest == "[" + (PrintItems(v, v.items) + "]" + rest)
  {
  }

  lemma ReadsEmptyArray(rest: string)
    ensures ReadValue("[" + ("" + "]" + rest)) == Ok(Arr([]), rest)
  {
    var body := "" + "]" + rest;
    var s := "[" + body;
    assert s[0] == '[' && s[1..] == body && body[1..] == rest;
    SkipOne(body);
  }

  lemma ReadsArray(body: string, items: seq<Value>, rest: string)
    requires body != "" && ValueStart(body[0]) && ReadItems(body) == Ok(items, rest)
    ensures ReadValue("[" + body) == Ok(Arr(items), rest)
  {
    var s := "[" + body;
    assert s[0] == '[' && s[1..] == body;
    SkipOne(body);
  }

  lemma ItemsStart(v: Value, items: seq<Value>)
    requires items != [] && forall i | 0 <= i < |items| :: items[i] < v
    requires Integral(items[0])
    ensures PrintItems(v, items) != "" && ValueStart(PrintItems(v, items)[0])
  {
    PrintStart(items[0]);
  }

  lemma Group(a: string, b: string, c: string)
    ensures a + b + c == a + (b + c)
  {
  }

  /** The text of the last element. */
  lemma LastItemText(v: Value, items: seq<Value>, rest: string)
    requires |items| == 1 && forall i | 0 <= i < |items| :: items[i] < v
    ensures PrintItems(v, items) + "]" + rest == Print(items[0]) + ("]" + rest)
  {
    assert Print(items[0]) + "" == Print(items[0]);
    Group(Print(items[0]), "]", rest);
  }

  /** The text of an element and those after it, parenthesized the way the reader takes it apart. */
  lemma NextItemText(v: Value, items: seq<Value>, rest: string)
    requires |items| > 1 && forall i | 0 <= i < |items| :: items[i] < v
    ensures PrintItems(v, items) + "]" + rest == Print(items[0]) + (", " + (PrintItems(v, items[1..]) + "]" + rest))
  {
    GroupItem(Print(items[0]), PrintItems(v, items[1..]), rest);
  }

  lemma GroupItem(text: string, others: string, rest: string)
    ensures text + (", " + others) + "]" + rest == text + (", " + (others + "]" + rest))
  {
    Group(text, ", " + others, "]");
    Group(text, ", " + others + "]", rest);
    Group(", ", others, "]");
    Group(", ", others + "]", rest);
  }

  lemma LastItem(x: Value, text: string, rest: string)
    requires ReadValue(text + ("]" + rest)) == Ok(x, "]" + rest)
    ensures ReadItems(text + ("]" + rest)) == Ok([x], rest)
  {
    SkipOne("]" + rest);
    assert ("]" + rest)[1..] == rest;
  }

  lemma NextItem(x: Value, text: string, more: string, others: seq<Value>, rest: string)
    requires ReadValue(text + (", " + more)) == Ok(x, ", " + more)
    requires more != "" && !IsSpace(more[0]) && ReadItems(more) == Ok(others, rest)
    ensures ReadItems(text + (", " + more)) == Ok([x] + others, rest)
  {
    SeparatorThen(',', ", " + more, more);
  }

  lemma {:induction false} ObjectRoundTrip(v: Value, rest: string)
    requires v.Obj? && Integral(v)
    ensures ReadValue(Print(v) + rest) == Ok(v, rest)
    decreases v, 1, |SortedKeys(v.fields.Keys)| + 1
  {
    var keys := SortedKeys(v.fields.Keys);
    ObjectText(v, keys, rest);
    if keys == [] {
      NoFields(v.fields, keys);
      ReadsEmptyObject(rest);
    } else {
      FieldsStart(v, keys);
      FieldsRoundTrip(v, keys, rest);
      RestrictAll(v.fields, keys);
      ReadsObject(PrintFields(v, keys) + "}" + rest, v.fields, rest);
    }
  }

  lemma ObjectText(v: Value, keys: seq<string>, rest: string)
    requires v.Obj? && keys == SortedKeys(v.fields.Keys)
    ensures Print(v) + rest == "{" + (PrintFields(v, keys) + "}" + rest)
  {
  }

  lemma NoFields(fields: map<string, Value>, keys: seq<string>)
    requires keys == [] && forall k :: k in keys <==> k in fields
    ensures fields == map[]
  {
    assert fields.Keys == {};
  }

  lemma FieldsStart(v: Value, keys: seq<string>)
    requires v.Obj? && keys != [] && forall k | k in keys :: k in v.fields
    ensures PrintFields(v, keys) != "" && PrintFields(v, keys)[0] == '"'
  {
  }

  lemma ReadsEmptyObject(rest: string)
    ensures ReadValue("{" + ("" + "}" + rest)) == Ok(Obj(map[]), rest)
  {
    var body := "" + "}" + rest;
    var s := "{" + body;
    assert s[0] == '{' && s[1..] == body && body[1..] == rest;
    SkipOne(body);
  }

  lemma ReadsObject(body: string, fields: map<string, Value>, rest: string)
    requires body != "" && body[0] == '"' && ReadFields(body) == Ok(fields, rest)
    ensures ReadValue("{" + body) == Ok(Obj(fields), rest)
  {
    var s := "{" + body;
    assert s[0] == '{' && s[1..] == body;
    SkipOne(body);
  }

  lemma {:induction false} ItemsRoundTrip(v: Value, items: seq<Value>, rest: string)
    requires items != [] && forall i | 0 <= i < |items| :: items[i] < v && Integral(items[i])
    ensures ReadItems(PrintItems(v, items) + "]" + rest) == Ok(items, rest)
    decreases v, 1, |items|
  {
    if |items| == 1 {
      ValueRoundTrip(items[0], "]" + rest);
      LastItem(items[0], Print(items[0]), rest);
      LastItemText(v, items, rest);
      assert items == [items[0]];
    } else {
      ItemsRoundTrip(v, items[1..], rest);
      ItemsStart(v, items[1..]);
      var more := PrintItems(v, items[1..]) + "]" + rest;
      ValueRoundTrip(items[0], ", " + more);
      ItemsStep(items, Print(items[0]), more, rest);
      NextItemText(v, items, rest);
    }
  }

  lemma ItemsStep(items: seq<Value>, text: string, more: string, rest: string)
    requires |items| > 1 && more != "" && ValueStart(more[0]) && ReadItems(more) == Ok(items[1..], rest)
    requires ReadValue(text + (", " + more)) == Ok(items[0], ", " + more)
    ensures ReadItems(text + (", " + more)) == Ok(items, rest)
  {
    NextItem(items[0], text, more, items[1..], rest);
    assert items == [items[0]] + items[1..];
  }

  lemma {:induction false} FieldsRoundTrip(v: Value, keys: seq<string>, rest: string)
    requires v.Obj? && Integral(v) && keys != [] && Ascending(keys)
    requires forall k | k in keys :: k in v.fields
    ensures ReadFields(PrintFields(v, keys) + "}" + rest) == Ok(Restrict(v.fields, keys), rest)
    decreases v, 1, |keys|
  {
    var k, x := keys[0], v.fields[keys[0]];
    PrintStart(x);
    FieldsUnfold(v, keys, rest);
    if |keys| == 1 {
      var after := "}" + rest;
      ValueRoundTrip(x, after);
      LastMember(k, x, Print(x), after, rest);
      RestrictOne(v.fields, keys);
    } else {
      var more := PrintFields(v, keys[1..]) + "}" + rest;
      ValueRoundTrip(x, ", " + more);
      FieldsRoundTrip(v, keys[1..], rest);
      FieldsStart(v, keys[1..]);
      NextMember(k, x, Print(x), ", " + more, more, Restrict(v.fields, keys[1..]), rest);
      RestrictTail(v.fields, keys);
    }
  }

  lemma GroupMember(key: string, colon: string, value: string, tail: string, brace: string, rest: string)
    ensures key + colon + value + tail + brace + rest == key + (colon + (value + (tail + brace + rest)))
  {
    Group(key + colon + value, tail, brace);
    Group(key + colon + value, tail + brace, rest);
    Group(key + colon, value, tail + brace + rest);
    Group(key, colon, value + (tail + brace + rest));
  }

  /** What follows a member's value. */
  ghost function AfterMember(v: Value, keys: seq<string>, rest: string): string
    requires v.Obj? && keys != [] && forall k | k in keys :: k in v.fields
  {
    if |keys| == 1 then "}" + rest else ", " + (PrintFields(v, keys[1..]) + "}" + rest)
  }

  /** The text of the fields, parenthesized the way the reader takes it apart. */
  lemma FieldsUnfold(v: Value, keys: seq<string>, rest: string)
    requires v.Obj? && keys != [] && forall k | k in keys :: k in v.fields
    ensures PrintFields(v, keys) + "}" + rest
            == PrintString(keys[0]) + (": " + (Print(v.fields[keys[0]]) + AfterMember(v, keys, rest)))
  {
    var key, value := PrintString(keys[0]), Print(v.fields[keys[0]]);
    if |keys| == 1 {
      GroupMember(key, ": ", value, "", "}", rest);
      assert "" + "}" == "}";
    } else {
      var others := PrintFields(v, keys[1..]);
      GroupMember(key, ": ", value, ", " + others, "}", rest);
      Group(", ", others, "}");
      Group(", ", others + "}", rest);
    }
  }

  /** Reading the key and the colon of a printed member leads to the text of its value. */
  lemma MemberReads(k: string, text: string)
    requires text != "" && !IsSpace(text[0])
    ensures var s := PrintString(k) + (": " + text);
            && s[0] == '"' && ReadString(s[1..]) == Ok(k, ": " + text)
            && SkipSpace(": " + text) == ": " + text && SkipSpace((": " + text)[1..]) == text
  {
    KeyReads(k, ": " + text);
    SeparatorThen(':', ": " + text, text);
  }

  lemma KeyReads(k: string, after: string)
    ensures (PrintString(k) + after)[0] == '"' && ReadString((PrintString(k) + after)[1..]) == Ok(k, after)
  {
    assert (PrintString(k) + after)[1..] == Escape(k) + "\"" + after;
    StringRoundTrip(k, after);
  }

  lemma SeparatorThen(c: char, s: string, more: string)
    requires !IsSpace(c) && s == [c, ' '] + more && more != "" && !IsSpace(more[0])
    ensures SkipSpace(s) == s && SkipSpace(s[1..]) == more
  {
    SkipOne(s);
    assert s[1..] == " " + more;
    SkipOne(more);
  }

  lemma LastMember(k: string, x: Value, text: string, after: string, rest: string)
    requires text != "" && !IsSpace(text[0]) && after == "}" + rest && ReadValue(text + after) == Ok(x, after)
    ensures ReadFields(PrintString(k) + (": " + (text + after))) == Ok(map[k := x], rest)
  {
    MemberReads(k, text + after);
    SkipOne(after);
    assert after[1..] == rest;
  }

  lemma NextMember(
    k: string, x: Value, text: string, after: string, more: string, others: map<string, Value>, rest: string)
    requires text != "" && !IsSpace(text[0]) && after == ", " + more && ReadValue(text + after) == Ok(x, after)
    requires more != "" && !IsSpace(more[0]) && ReadFields(more) == Ok(others, rest)
    ensures ReadFields(PrintString(k) + (": " + (text + after))) == Ok(map[k := x] + others, rest)
  {
    MemberReads(k, text + after);
    SeparatorThen(',', ", " + more, more);
    var value := text + after;
    ReadsMember(PrintString(k) + (": " + value), k, ": " + value, value, x, after, more, others, rest);
  }

  /** One unfolding of ReadFields on a member that is not the last. */
  lemma ReadsMember(
    s: string, k: string, colon: string, text: string, x: Value, after: string, more: string,
    others: map<string, Value>, rest: string)
    requires s != "" && s[0] == '"' && ReadString(s[1..]) == Ok(k, colon)
    requires SkipSpace(colon) == colon && colon != "" && colon[0] == ':' && SkipSpace(colon[1..]) == text
    requires ReadValue(text) == Ok(x, after) && SkipSpace(after) == after && after != "" && after[0] == ','
    requires SkipSpace(after[1..]) == more && ReadFields(more) == Ok(others, rest)
    ensures ReadFields(s) == Ok(map[k := x] + others, rest)
  {
  }

  ghost function Restrict(fields: map<string, Value>, keys: seq<string>): map<string, Value> {
    map k | k in keys && k in fields :: fields[k]
  }

  lemma RestrictOne(fields: map<string, Value>, keys: seq<string>)
    requires |keys| == 1 && keys[0] in fields
    ensures Restrict(fields, keys) == map[keys[0] := fields[keys[0]]]
  {
    assert keys == [keys[0]];
  }

  lemma RestrictTail(fields: map<string, Value>, keys: seq<string>)
    requires |keys| > 1 && keys[0] in fields
    ensures map[keys[0] := fields[keys[0]]] + Restrict(fields, keys[1..]) == Restrict(fields, keys)
  {
    assert forall k | k in keys :: k == keys[0] || k in keys[1..];
  }

  lemma RestrictAll(fields: map<string, Value>, keys: seq<string>)
    requires forall k :: k in keys <==> k in fields
    ensures Restrict(fields, keys) == fields
  {
  }

  /** The whole output reads back as the value that was printed. */
  lemma PrintIsInvertible(v: Value)
    requires Integral(v)
    ensures ReadValue(Print(v)) == Ok(v, "")
  {
    assert Print(v) + "" == Print(v);
    ValueRoundTrip(v, "");
  }

  /** So different cluster infos never share their canonical text. */
  lemma PrintIsInjective(v: Value, w: Value)
    requires Integral(v) && Integral(w) && Print(v) == Print(w)
    ensures v == w
  {
    PrintIsInvertible(v);
    PrintIsInvertible(w);
  }

  // ---------------------------------------------------------------------------------------
  // The output is printable ASCII

  predicate Printable(s: string) {
    forall i | 0 <= i < |s| :: 0x20 <= s[i] as int < 0x7f
  }

  lemma RuneIsPrintable(c: char)
    ensures Printable(EscapeRune(c))
  {
    if c as int > 0xffff {
      PairIsPrintable(c);
    } else if EscapeRune(c) == UnicodeEscape(c as int) {
      HexIsPrintable(c as int);
    }
  }

  lemma PairIsPrintable(c: char)
    requires c as int > 0xffff
    ensures Printable(EscapeRune(c))
  {
    var high, low := SurrogateHalves(c);
    HexIsPrintable(high);
    HexIsPrintable(low);
    JoinIsPrintable(UnicodeEscape(high), UnicodeEscape(low));
  }

  lemma JoinIsPrintable(a: string, b: string)
    requires Printable(a) && Printable(b)
    ensures Printable(a + b)
  {
  }

  lemma HexIsPrintable(n: nat)
    requires n < 0x10000
    ensures Printable(UnicodeEscape(n))
  {
  }

  lemma {:induction false} EscapeIsPrintable(s: string)
    ensures Printable(Escape(s))
    decreases s
  {
    if s != "" {
      EscapeIsPrintable(s[1..]);
      RuneIsPrintable(s[0]);
    }
  }

  lemma {:induction false} PrintIsPrintable(v: Value)
    requires Integral(v)
    ensures Printable(Print(v))
    decreases v, 2
  {
    match v
    case Str(s) =>
      EscapeIsPrintable(s);
      WrapIsPrintable("\"", Escape(s), "\"");
    case Arr(items) =>
      ItemsArePrintable(v, items);
      WrapIsPrintable("[", PrintItems(v, items), "]");
    case Obj(fields) =>
      FieldsArePrintable(v, SortedKeys(fields.Keys));
      WrapIsPrintable("{", PrintFields(v, SortedKeys(fields.Keys)), "}");
    case _ => ScalarIsPrintable(v);
  }

  lemma WrapIsPrintable(open: string, text: string, close: string)
    requires Printable(open) && Printable(text) && Printable(close)
    ensures Printable(open + text + close)
  {
  }

  lemma ScalarIsPrintable(v: Value)
    requires Integral(v) && (v.Null? || v.Bool? || v.Num?)
    ensures Printable(Print(v))
  {
  }

  lemma {:induction false} ItemsArePrintable(v: Value, items: seq<Value>)
    requires forall i | 0 <= i < |items| :: items[i] < v && Integral(items[i])
    ensures Printable(PrintItems(v, items))
    decreases v, 1, |items|
  {
    if items != [] {
      PrintIsPrintable(items[0]);
      ItemsArePrintable(v, items[1..]);
    }
  }

  lemma {:induction false} FieldsArePrintable(v: Value, keys: seq<string>)
    requires v.Obj? && Integral(v) && forall k | k in keys :: k in v.fields
    ensures Printable(PrintFields(v, keys))
    decreases v, 1, |keys|
  {
    if keys != [] {
      EscapeIsPrintable(keys[0]);
      PrintIsPrintable(v.fields[keys[0]]);
      FieldsArePrintable(v, keys[1..]);
    }
  }
}
