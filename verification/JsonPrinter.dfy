/**
 The writers of internal/hardware/hash.go, which append to one shared strings.Builder.  A map is
 ranged over in an arbitrary order; what is written does not depend on it.
 */
module JsonPrinter {
  import opened CanonicalJson

  /** sort.Strings on keys that are all different. */
  method SortKeys(keys: seq<string>) returns (sorted: seq<string>)
    ensures Ascending(sorted)
    ensures forall k :: k in sorted <==> k in keys
  {
    sorted := [];
    for i := 0 to |keys|
      invariant Ascending(sorted)
      invariant forall k :: k in sorted <==> k in keys[..i]
    {
      sorted := InsertKey(sorted, keys[i]);
      assert keys[..i + 1] == keys[..i] + [keys[i]];
    }
    assert keys[..|keys|] == keys;
  }

  method InsertKey(keys: seq<string>, key: string) returns (r: seq<string>)
    requires Ascending(keys)
    ensures Ascending(r)
    ensures forall k :: k in r <==> k in keys || k == key
  {
    var i := 0;
    while i < |keys| && StrLess(keys[i], key)
      invariant 0 <= i <= |keys|
      invariant forall j | 0 <= j < i :: StrLess(keys[j], key)
    {
      i := i + 1;
    }
    if i < |keys| && keys[i] == key {
      return keys;
    }
    r := keys[..i] + [key] + keys[i..];
    assert keys == keys[..i] + keys[i..];
    InsertedAscends(keys, i, key);
  }

  lemma InsertedAscends(keys: seq<string>, i: nat, key: string)
    requires Ascending(keys) && i <= |keys|
    requires forall j | 0 <= j < i :: StrLess(keys[j], key)
    requires i < |keys| ==> !StrLess(keys[i], key) && keys[i] != key
    ensures Ascending(keys[..i] + [key] + keys[i..])
  {
    forall j | i <= j < |keys| ensures StrLess(key, keys[j]) {
      StrLessTotal(keys[i], key);
      if j > i { StrLessTransitive(key, keys[i], keys[j]); }
    }
  }

  /** `for k := range m`: the keys in whatever order the map yields them. */
  method CollectKeys(fields: map<string, Value>) returns (keys: seq<string>)
    ensures forall k :: k in keys <==> k in fields
    ensures |keys| == |fields|
  {
    keys := [];
    var remaining := fields.Keys;
    while remaining != {}
      invariant remaining <= fields.Keys
      invariant forall k :: k in keys <==> k in fields && k !in remaining
      invariant |keys| + |remaining| == |fields|
      decreases |remaining|
    {
      var k :| k in remaining;
      keys := keys + [k];
      remaining := remaining - {k};
    }
  }

  lemma Regroup(out: string, separator: string, text: string, tail: string)
    ensures out + (separator + text + tail) == out + separator + text + tail
  {
  }

  lemma EscapeNext(out: string, s: string, i: nat)
    requires i < |s|
    ensures out + Escape(s[i..]) == out + EscapeRune(s[i]) + Escape(s[i + 1..])
  {
    assert s[i..][1..] == s[i + 1..];
  }

  /** What is still to be written before element i of an array. */
  ghost function ItemsFrom(v: Value, items: seq<Value>, i: nat): (r: string)
    requires i <= |items| && forall j | 0 <= j < |items| :: items[j] < v
    ensures i == 0 ==> r == PrintItems(v, items)
  {
    assert items[0..] == items;
    if i == |items| then "" else (if i > 0 then ", " else "") + PrintItems(v, items[i..])
  }

  lemma ItemsFromNext(v: Value, items: seq<Value>, i: nat)
    requires i < |items| && forall j | 0 <= j < |items| :: items[j] < v
    ensures ItemsFrom(v, items, i) == (if i > 0 then ", " else "") + Print(items[i]) + ItemsFrom(v, items, i + 1)
  {
    assert items[i..][1..] == items[i + 1..];
  }

  ghost function Member(v: Value, key: string): string
    requires v.Obj? && key in v.fields
  {
    PrintString(key) + ": " + Print(v.fields[key])
  }

  /** What is still to be written before member i of an object. */
  ghost function FieldsFrom(v: Value, keys: seq<string>, i: nat): (r: string)
    requires i <= |keys| && v.Obj? && forall k | k in keys :: k in v.fields
    ensures i == 0 ==> r == PrintFields(v, keys)
  {
    assert keys[0..] == keys;
    if i == |keys| then "" else (if i > 0 then ", " else "") + PrintFields(v, keys[i..])
  }

  lemma FieldsFromNext(v: Value, keys: seq<string>, i: nat)
    requires i < |keys| && v.Obj? && forall k | k in keys :: k in v.fields
    ensures FieldsFrom(v, keys, i)
            == (if i > 0 then ", " else "") + Member(v, keys[i]) + FieldsFrom(v, keys, i + 1)
  {
    assert keys[i..][1..] == keys[i + 1..];
  }

  class Builder {
    var out: string

    constructor ()
      ensures out == ""
    {
      out := "";
    }

    method WriteUnicodeEscape(r: nat)
      requires r < 0x10000
      modifies this
      ensures out == old(out) + UnicodeEscape(r)
    {
      out := out + "\\u";
      out := out + [HexDigit(r / 4096 % 16)];
      out := out + [HexDigit(r / 256 % 16)];
      out := out + [HexDigit(r / 16 % 16)];
      out := out + [HexDigit(r % 16)];
    }

    method WriteRune(c: char)
      modifies this
      ensures out == old(out) + EscapeRune(c)
    {
      if c == '"' {
        out := out + "\\\"";
      } else if c == '\\' {
        out := out + "\\\\";
      } else if c == '\n' {
        out := out + "\\n";
      } else if c == '\r' {
        out := out + "\\r";
      } else if c == '\t' {
        out := out + "\\t";
      } else if c == BACKSPACE {
        out := out + "\\b";
      } else if c == FORM_FEED {
        out := out + "\\f";
      } else if 0x20 <= c as int < 0x7f {
        out := out + [c];
      } else if c as int > 0xffff {
        WriteUnicodeEscape(HighSurrogate(c as int));
        WriteUnicodeEscape(LowSurrogate(c as int));
      } else {
        WriteUnicodeEscape(c as int);
      }
    }

    /** writePythonString. */
    method WriteString(s: string)
      modifies this
      ensures out == old(out) + PrintString(s)
    {
      Regroup(out, "\"", Escape(s), "\"");
      out := out + "\"";
      WriteRunes(s);
      out := out + "\"";
    }

    method WriteRunes(s: string)
      modifies this
      ensures out == old(out) + Escape(s)
    {
      ghost var done := out + Escape(s);
      for i := 0 to |s|
        invariant out + Escape(s[i..]) == done
      {
        EscapeNext(out, s, i);
        WriteRune(s[i]);
      }
    }

    /** writePythonJSON: the text does not depend on the order in which maps are ranged over. */
    method WriteJSON(v: Value)
      requires Integral(v)
      modifies this
      ensures out == old(out) + Print(v)
      decreases v, 3
    {
      match v {
        case Null => out := out + "null";
        case Bool(b) => out := out + if b then "true" else "false";
        case Str(s) => WriteString(s);
        case Num(literal) => out := out + literal;
        case Arr(items) => WriteItems(v, items);
        case Obj(fields) => WriteFields(v);
      }
    }

    method WriteItems(v: Value, items: seq<Value>)
      requires v == Arr(items) && Integral(v)
      modifies this
      ensures out == old(out) + "[" + PrintItems(v, items) + "]"
      decreases v, 2
    {
      out := out + "[";
      ghost var done := out + PrintItems(v, items);
      for i := 0 to |items|
        invariant out + ItemsFrom(v, items, i) == done
      {
        ghost var text, separator := Print(items[i]), if i > 0 then ", " else "";
        ItemsFromNext(v, items, i);
        Regroup(out, separator, text, ItemsFrom(v, items, i + 1));
        out := out + if i > 0 then ", " else "";
        WriteJSON(items[i]);
      }
      out := out + "]";
    }

    method WriteFields(v: Value)
      requires v.Obj? && Integral(v)
      modifies this
      ensures out == old(out) + "{" + PrintFields(v, SortedKeys(v.fields.Keys)) + "}"
      decreases v, 2
    {
      var keys := CollectKeys(v.fields);
      keys := SortKeys(keys);
      SortedKeysUnique(keys, v.fields.Keys);
      out := out + "{";
      WriteMembers(v, keys);
      out := out + "}";
    }

    method WriteMembers(v: Value, keys: seq<string>)
      requires v.Obj? && Integral(v) && forall k | k in keys :: k in v.fields
      modifies this
      ensures out == old(out) + PrintFields(v, keys)
      decreases v, 1
    {
      ghost var done := out + PrintFields(v, keys);
      for i := 0 to |keys|
        invariant out + FieldsFrom(v, keys, i) == done
      {
        ghost var separator := if i > 0 then ", " else "";
        FieldsFromNext(v, keys, i);
        Regroup(out, separator, Member(v, keys[i]), FieldsFrom(v, keys, i + 1));
        out := out + if i > 0 then ", " else "";
        WriteMember(v, keys[i]);
      }
    }

    method WriteMember(v: Value, key: string)
      requires v.Obj? && Integral(v) && key in v.fields
      modifies this
      ensures out == old(out) + Member(v, key)
      decreases v, 0
    {
      Regroup(out, PrintString(key), ": ", Print(v.fields[key]));
      WriteString(key);
      out := out + ": ";
      WriteJSON(v.fields[key]);
    }
  }
}
