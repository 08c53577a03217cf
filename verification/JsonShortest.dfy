/** Of all texts that a JSON reader takes for the value, the printed one is the shortest (rjson.go). */
module JsonShortest {
  import opened Common
  import opened Values
  import opened Utf8
  import opened Decimal
  import opened Base64
  import opened JsonPrinter
  import opened JsonReader
  import opened JsonTheorems

  // -------------------------------------------------------------- characters

  /** Quotation mark, backslash and five control characters take two bytes, other control characters six. */
  lemma EscapeLength(c: CodePoint)
    ensures
      |Escape(c)| == if ShortEscaped(c) then 2 else if c < 0x20 then 6 else |EncodeRune(c)|
  {
    hide EncodeRune;
  }

  /** Every other character stands as its own UTF-8, and the four hexadecimal digits of the six bytes are lower case. */
  lemma EscapeText(c: CodePoint)
    ensures c >= 0x20 && c != 34 && c != 92 ==> Escape(c) == EncodeRune(c)
    ensures c < 0x20 && !ShortEscaped(c) ==> Escape(c) == Ascii("\\u00") + Hex([c])
    ensures c == 34 || c == 92 ==> Escape(c) == [92, c]
  {
    hide EncodeRune;
    if c < 0x20 {
      var d: Bytes := [c];
      assert d[1..] == [];
      assert Hex(d) == [HexDigit(d[0] / 16), HexDigit(d[0] % 16)];
    }
  }

  lemma RuneAlone(s: Bytes)
    requires s != [] && s[0] >= 0x20 && s[0] != 34 && s[0] != 92 && Clean(DecodeRune(s))
    ensures
      var r := DecodeRune(s);
      Escape(r.code) == s[..r.width]
  {
    EncodeDecodedRune(s);
    FirstByte(DecodeRune(s).code);
    hide DecodeRune, EncodeRune;
  }

  lemma FirstByte(c: CodePoint)
    ensures EncodeRune(c) != [] && (c < 0x80 ==> EncodeRune(c)[0] == c)
  {
  }

  /** No spelling of a character is shorter, and none is as short but the same one with capital hexadecimal digits. */
  lemma EscapeShortest(s: Bytes, c: CodePoint, rest: Bytes)
    requires ParseChar(s) == Some(Parsed(c, rest))
    ensures |s| >= |Escape(c)| + |rest|
    ensures |s| == |Escape(c)| + |rest| ==>
      if c < 0x20 && !ShortEscaped(c) then s[..4] == Ascii("\\u00") else s == Escape(c) + rest
  {
    if s[0] != 92 {
      hide DecodeRune, EncodeRune, ParseUnit;
      RuneAlone(s);
      assert s == s[..DecodeRune(s).width] + rest;
    } else if s[1] != 117 {
      hide DecodeRune, EncodeRune, ParseUnit;
      assert s == [92, s[1]] + rest;
      if c == 47 {
        SolidusIsPlain();
      }
    } else {
      EscapeLength(c);
      hide DecodeRune, EncodeRune, Escape, HexValue;
      if c < 0x20 && !ShortEscaped(c) && |s| == 6 + |rest| {
        SmallUnit(s[2..], c);
        assert s[2..][0] == s[2] && s[2..][1] == s[3];
      }
    }
  }

  lemma SolidusIsPlain()
    ensures Escape(47) == [47]
  {
  }

  lemma SmallUnit(s: Bytes, c: int)
    requires ParseUnit(s) == Some(c) && c < 0x20
    ensures s[0] == s[1] == 48
  {
  }

  // ------------------------------------------------------------------ strings

  /** A text that needs no six-byte escape. */
  predicate NoUnits(rs: seq<CodePoint>) { forall i :: 0 <= i < |rs| ==> rs[i] >= 0x20 || ShortEscaped(rs[i]) }

  /**
   * The contents of a string are the shortest for its characters, and but for capital digits the only ones as short.
   */
  lemma {:induction false} CharsShortest(s: Bytes, rs: seq<CodePoint>, rest: Bytes)
    requires ParseChars(s) == Some(Parsed(rs, rest))
    ensures |s| >= |EscapeAll(rs)| + 1 + |rest|
    ensures |s| == |EscapeAll(rs)| + 1 + |rest| && NoUnits(rs) ==> s == EscapeAll(rs) + ([34] + rest)
    decreases |s|
  {
    hide ParseChar, Escape, ShortEscaped;
    if s[0] == 34 {
      assert s == [] + ([34] + rest);
    } else {
      var c, t := ParseChar(s).value.value, ParseChar(s).value.rest;
      assert rs[0] == c && ParseChars(t) == Some(Parsed(rs[1..], rest));
      EscapeShortest(s, c, t);
      CharsShortest(t, rs[1..], rest);
      if |s| == |EscapeAll(rs)| + 1 + |rest| && NoUnits(rs) {
        assert NoUnits(rs[1..]) && (rs[0] >= 0x20 || ShortEscaped(rs[0]));
        Assoc(Escape(c), EscapeAll(rs[1..]), [34] + rest);
      }
    }
  }

  lemma StringShortest(s: Bytes, text: Bytes, rest: Bytes)
    requires s != [] && s[0] == 34 && ParseChars(s[1..]) == Some(Parsed(Runes(text), rest))
    ensures |s| >= |PrintString(text)| + |rest|
  {
    hide Runes, EscapeAll, ParseChars;
    CharsShortest(s[1..], Runes(text), rest);
  }

  // ------------------------------------------------------------------ numbers

  lemma {:induction false} DigitsShortest(d: Bytes)
    requires d != [] && AllDigits(d)
    ensures |Digits(DigitsValue(d))| <= |d|
  {
    var front := d[..|d| - 1];
    if front != [] {
      DigitsShortest(front);
      var m := DigitsValue(front);
      assert DigitsValue(d) == 10 * m + (d[|d| - 1] - 48);
      assert IsDigit(d[|d| - 1]);
      if DigitsValue(d) >= 10 {
        assert DigitsValue(d) / 10 == m;
      }
    } else {
      assert DigitsValue(front) == 0 && IsDigit(d[0]);
    }
  }

  lemma NumberShortest(s: Bytes, n: int, rest: Bytes)
    requires ParseNumber(s) == Some(Parsed(JInt(n), rest))
    ensures |s| >= |Itoa(n)| + |rest|
  {
    hide Digits, DigitsValue, FractionLength, ExponentLength;
    var minus := s != [] && s[0] == 45;
    var t := if minus then s[1..] else s;
    DigitsShortest(t[..DigitRun(t)]);
  }

  // ------------------------------------------------------------------- values

  lemma NumberKind(s: Bytes)
    requires ParseNumber(s).Some?
    ensures ParseNumber(s).value.value.JInt? || ParseNumber(s).value.value.JReal?
  {
    hide DigitRun, DigitsValue, FractionLength, ExponentLength;
  }

  /** The first character tells the kind of a value, and from there it is read by that kind's rule. */
  lemma Kinds(s: Bytes, j: Json, rest: Bytes)
    requires ParseValue(s) == Some(Parsed(j, rest))
    ensures SkipSpace(s) != [] && |SkipSpace(s)| <= |s|
    ensures
      var t := SkipSpace(s);
      && (j.JArray? ==> ParseArray(t[1..]) == Some(Parsed(j, rest)))
      && (j.JObject? ==> ParseObject(t[1..]) == Some(Parsed(j, rest)))
      && (j.JString? ==> t[0] == 34 && ParseChars(t[1..]) == Some(Parsed(j.s, rest)))
      && (j.JInt? ==> ParseNumber(t) == Some(Parsed(j, rest)))
      && (j.JNull? || j == JBool(true) ==> |t| == 4 + |rest|)
      && (j == JBool(false) ==> |t| == 5 + |rest|)
  {
    hide ParseNumber, ParseChars, ParseElements, ParseMembers, SkipSpace;
    var t := SkipSpace(s);
    if t[0] != 91 && t[0] != 123 && t[0] != 34 && ParseNumber(t).Some? {
      NumberKind(t);
    }
  }

  /** The printed text is the shortest in front of anything. */
  lemma {:induction false} ValueShortest(s: Bytes, v: Value, rest: Bytes)
    requires Supported(v) && ParseValue(s) == Some(Parsed(Denote(v), rest))
    ensures |s| >= |Print(v)| + |rest|
    decreases v, 2
  {
    hide ParseValue, ParseArray, ParseObject, ParseChars, ParseNumber, EscapeAll, Itoa, Runes, SkipSpace;
    Kinds(s, Denote(v), rest);
    var t := SkipSpace(s);
    match v {
      case Nil =>
      case Bool(b) =>
      case Int(n) => NumberShortest(t, n, rest);
      case Str(text) => StringShortest(t, text, rest);
      case Sym(text) => StringShortest(t, text, rest);
      case Arr(items) => ArrayShortest(t[1..], items, rest);
      case Dict(entries) => ObjectShortest(t[1..], entries, rest);
    }
  }

  lemma {:induction false} ArrayShortest(s: Bytes, items: seq<Value>, rest: Bytes)
    requires AllSupported(items) && ParseArray(s) == Some(Parsed(JArray(DenoteItems(items)), rest))
    ensures |s| >= |PrintItems(items, true)| + 1 + |rest|
    decreases items, 1
  {
    hide ParseElements, SkipSpace, Denote, Print;
    var t := SkipSpace(s);
    if t != [] && t[0] == 93 {
      assert items == [];
    } else {
      ElementsShortest(t, items, rest);
    }
  }

  /** One or more items, the commas between them and the closing bracket. */
  lemma {:induction false} ElementsShortest(s: Bytes, items: seq<Value>, rest: Bytes)
    requires AllSupported(items) && ParseElements(s) == Some(Parsed(DenoteItems(items), rest))
    ensures |s| >= |PrintItems(items, true)| + 1 + |rest|
    decreases items, 0
  {
    hide ParseValue, SkipSpace, Denote, Print;
    var first := ParseValue(s).value;
    assert DenoteItems(items)[0] == first.value && items != [];
    ValueShortest(s, items[0], first.rest);
    var t := SkipSpace(first.rest);
    if t[0] == 93 {
      assert |DenoteItems(items)| == 1;
      assert items[1..] == [];
    } else {
      var more := ParseElements(t[1..]).value.value;
      assert DenoteItems(items)[1..] == more && DenoteItems(items)[1..] == DenoteItems(items[1..]);
      ElementsShortest(t[1..], items[1..], rest);
      FirstComma(items[1..]);
    }
  }

  lemma FirstComma(items: seq<Value>)
    requires AllSupported(items)
    ensures |PrintItems(items, false)| <= |PrintItems(items, true)| + 1
  {
    hide Print;
  }

  lemma {:induction false} ObjectShortest(s: Bytes, entries: seq<Entry>, rest: Bytes)
    requires EntriesSupported(entries) && ParseObject(s) == Some(Parsed(JObject(DenoteEntries(entries)), rest))
    ensures |s| >= |PrintEntries(entries, true)| + 1 + |rest|
    decreases entries, 1
  {
    hide ParseMembers, SkipSpace, Denote, Print, PrintString;
    var t := SkipSpace(s);
    if t != [] && t[0] == 125 {
      assert entries == [];
    } else {
      MembersShortest(t, entries, rest);
    }
  }

  lemma NameShortest(s: Bytes, key: Bytes, rest: Bytes)
    requires ParseName(s) == Some(Parsed(Runes(key), rest))
    ensures |s| >= |PrintString(key)| + 1 + |rest|
  {
    hide ParseChars, Runes, PrintString, SkipSpace;
    var t := SkipSpace(s);
    StringShortest(t, key, ParseChars(t[1..]).value.rest);
  }

  /** One or more members, the commas between them and the closing bracket. */
  lemma {:induction false} MembersShortest(s: Bytes, entries: seq<Entry>, rest: Bytes)
    requires EntriesSupported(entries) && ParseMembers(s) == Some(Parsed(DenoteEntries(entries), rest))
    ensures |s| >= |PrintEntries(entries, true)| + 1 + |rest|
    decreases entries, 0
  {
    hide ParseName, ParseValue, SkipSpace, Denote, Print, PrintString, Runes;
    var name := ParseName(s).value;
    var value := ParseValue(name.rest).value;
    assert DenoteEntries(entries)[0] == Member(name.value, value.value) && entries != [];
    var e := entries[0];
    NameShortest(s, e.key, name.rest);
    ValueShortest(name.rest, e.value, value.rest);
    var t := SkipSpace(value.rest);
    if t[0] == 125 {
      assert |DenoteEntries(entries)| == 1;
      assert entries[1..] == [];
    } else {
      var more := ParseMembers(t[1..]).value.value;
      assert DenoteEntries(entries)[1..] == more && DenoteEntries(entries)[1..] == DenoteEntries(entries[1..]);
      MembersShortest(t[1..], entries[1..], rest);
      FirstEntryComma(entries[1..]);
    }
  }

  lemma FirstEntryComma(entries: seq<Entry>)
    requires EntriesSupported(entries)
    ensures |PrintEntries(entries, false)| <= |PrintEntries(entries, true)| + 1
  {
    hide Print, PrintString;
  }

  /**
   * Whatever text parses to what the value stands for, the printed one is no longer: no spaces, no needless escapes.
   */
  lemma PrintShortest(v: Value, s: Bytes)
    requires Supported(v) && Parse(s) == Some(Denote(v))
    ensures |Print(v)| <= |s|
  {
    ValueShortest(s, v, ParseValue(s).value.rest);
  }
}
