/** What the JSON printer means: the reader's image of the value, and exactly that. */
module JsonTheorems {
  import opened Common
  import opened Values
  import opened Utf8
  import opened Decimal
  import opened JsonPrinter
  import opened JsonReader

  /** The JSON value a Ruby value stands for: Symbols and Strings alike are their code points. */
  function Denote(v: Value): Json
    requires Supported(v)
    decreases v, 1
  {
    match v
    case Nil => JNull
    case Bool(b) => JBool(b)
    case Int(n) => JInt(n)
    case Str(s) => JString(Runes(s))
    case Sym(name) => JString(Runes(name))
    case Arr(items) => JArray(DenoteItems(items))
    case Dict(entries) => JObject(DenoteEntries(entries))
  }

  function DenoteItems(items: seq<Value>): seq<Json>
    requires AllSupported(items)
    decreases items, 0
  {
    if items == [] then [] else [Denote(items[0])] + DenoteItems(items[1..])
  }

  function DenoteEntries(entries: seq<Entry>): seq<Member>
    requires EntriesSupported(entries)
    decreases entries, 0
  {
    if entries == [] then []
    else [Member(Runes(entries[0].key), Denote(entries[0].value))] + DenoteEntries(entries[1..])
  }

  // ----------------------------------------------------------------- strings

  lemma HexDigitValue(n: int)
    requires 0 <= n < 16
    ensures HexValue(HexDigit(n)) == Some(n)
  {
  }

  predicate ShortEscaped(c: CodePoint) {
    c == 34 || c == 92 || c == 8 || c == 12 || c == 10 || c == 13 || c == 9
  }

  lemma ShortEscapeParses(c: CodePoint, t: Bytes)
    requires ShortEscaped(c)
    ensures ParseChar(Escape(c) + t) == Some(Parsed(c, t)) && Escape(c)[0] != 34
  {
    hide DecodeRune, EncodeRune, ParseUnit, HexDigit;
    assert (Escape(c) + t)[2..] == t;
  }

  lemma UnitParses(c: CodePoint, t: Bytes)
    requires c < 0x20
    ensures ParseUnit([48, 48, HexDigit(c / 16), HexDigit(c % 16)] + t) == Some(c)
  {
    HexDigitValue(0);
    HexDigitValue(c / 16);
    HexDigitValue(c % 16);
  }

  lemma LongEscapeParses(c: CodePoint, t: Bytes)
    requires c < 0x20 && !ShortEscaped(c)
    ensures ParseChar(Escape(c) + t) == Some(Parsed(c, t)) && Escape(c)[0] != 34
  {
    hide DecodeRune, EncodeRune, ParseUnit, HexDigit, ShortEscape;
    var s := Escape(c) + t;
    var unit := [48, 48, HexDigit(c / 16), HexDigit(c % 16)];
    UnitParses(c, t);
    assert s[2..] == unit + t && s[6..] == t;
  }

  lemma RuneParses(c: CodePoint, t: Bytes)
    requires c >= 0x20 && !ShortEscaped(c)
    ensures ParseChar(Escape(c) + t) == Some(Parsed(c, t)) && Escape(c)[0] != 34
  {
    DecodeEncodedRune(c, t);
    RuneBegins(c);
    hide DecodeRune, EncodeRune, ParseUnit, HexDigit, ShortEscape;
    var s := EncodeRune(c) + t;
    assert s[0] == EncodeRune(c)[0];
    assert Clean(DecodeRune(s));
  }

  lemma RuneBegins(c: CodePoint)
    requires c >= 0x20 && c != 34 && c != 92
    ensures EncodeRune(c)[0] >= 0x20 && EncodeRune(c)[0] != 34 && EncodeRune(c)[0] != 92
    ensures |EncodeRune(c)| == 1 ==> c < 0x80
  {
  }

  lemma EscapeParses(c: CodePoint, t: Bytes)
    ensures ParseChar(Escape(c) + t) == Some(Parsed(c, t))
    ensures Escape(c)[0] != 34
  {
    hide ParseChar, Escape;
    if ShortEscaped(c) {
      ShortEscapeParses(c, t);
    } else if c < 0x20 {
      LongEscapeParses(c, t);
    } else {
      RuneParses(c, t);
    }
  }

  lemma PrependChar(s: Bytes, c: CodePoint, t: Bytes, rs: seq<CodePoint>, rest: Bytes)
    requires s != [] && s[0] != 34 && ParseChar(s) == Some(Parsed(c, t)) && ParseChars(t) == Some(Parsed(rs, rest))
    ensures ParseChars(s) == Some(Parsed([c] + rs, rest))
  {
  }

  lemma {:induction false} CharsParse(rs: seq<CodePoint>, rest: Bytes)
    ensures ParseChars(EscapeAll(rs) + [34] + rest) == Some(Parsed(rs, rest))
  {
    if rs == [] {
      assert EscapeAll(rs) + [34] + rest == [34] + rest;
      TakeDrop([34], rest);
    } else {
      var e, t := EscapeAll(rs[1..]), EscapeAll(rs[1..]) + [34] + rest;
      Assoc(Escape(rs[0]), e, [34]);
      Assoc(Escape(rs[0]), e + [34], rest);
      EscapeParses(rs[0], t);
      CharsParse(rs[1..], rest);
      PrependChar(Escape(rs[0]) + t, rs[0], t, rs[1..], rest);
      assert rs == [rs[0]] + rs[1..];
    }
  }

  lemma StringParses(s: Bytes, rest: Bytes)
    ensures var t := PrintString(s) + rest;
            t != [] && t[0] == 34 && ParseChars(t[1..]) == Some(Parsed(Runes(s), rest))
  {
    hide ParseChars, EscapeAll, Runes;
    assert (PrintString(s) + rest)[1..] == EscapeAll(Runes(s)) + [34] + rest;
    CharsParse(Runes(s), rest);
  }

  // ----------------------------------------------------------------- numbers

  /** What may follow a value inside a printed text. */
  predicate Ends(rest: Bytes) { rest == [] || rest[0] == 44 || rest[0] == 93 || rest[0] == 125 }

  lemma {:induction false} DigitRunOf(d: Bytes, rest: Bytes)
    requires AllDigits(d) && (rest == [] || !IsDigit(rest[0]))
    ensures DigitRun(d + rest) == |d|
  {
    if d == [] {
      assert d + rest == rest;
    } else {
      assert (d + rest)[1..] == d[1..] + rest;
      DigitRunOf(d[1..], rest);
    }
  }

  lemma WholeNumber(rest: Bytes)
    requires Ends(rest)
    ensures FractionLength(rest) == Some(0) && ExponentLength(rest) == Some(0)
  {
  }

  lemma UnsignedParses(d: Bytes, rest: Bytes)
    requires d != [] && AllDigits(d) && (d[0] == 48 ==> |d| == 1) && Ends(rest)
    ensures ParseNumber(d + rest) == Some(Parsed(JInt(DigitsValue(d)), rest))
  {
    hide DigitRun, DigitsValue, FractionLength, ExponentLength;
    var s := d + rest;
    DigitRunOf(d, rest);
    TakeDrop(d, rest);
    WholeNumber(rest);
    assert s[0] == d[0] && IsDigit(s[0]);
    assert s[|d| + 0..] == rest;
  }

  lemma NegatedParses(s: Bytes, n: int, rest: Bytes)
    requires s != [] && IsDigit(s[0]) && ParseNumber(s) == Some(Parsed(JInt(n), rest))
    ensures ParseNumber([45] + s) == Some(Parsed(JInt(-n), rest))
  {
    assert ([45] + s)[1..] == s;
  }

  lemma NumberParses(n: int, rest: Bytes)
    requires Ends(rest)
    ensures ParseNumber(Itoa(n) + rest) == Some(Parsed(JInt(n), rest))
  {
    var m := if n < 0 then -n else n;
    ValueOfDigits(m);
    UnsignedParses(Digits(m), rest);
    if n < 0 {
      NegatedParses(Digits(m) + rest, m, rest);
      Assoc([45], Digits(m), rest);
    }
  }

  // ------------------------------------------------------------------ values

  /** How a printed value begins: never with white space, a comma or a closing bracket. */
  lemma PrintBegins(v: Value)
    requires Supported(v)
    ensures
      var s := Print(v);
      && s != [] && !IsSpace(s[0]) && s[0] != 93 && s[0] != 125
      && (v.Nil? ==> s[0] == 110)
      && (v.Bool? ==> s[0] == if v.b then 116 else 102)
      && (v.Int? ==> s[0] == 45 || IsDigit(s[0]))
      && (v.Str? || v.Sym? ==> s[0] == 34)
      && (v.Arr? ==> s[0] == 91)
      && (v.Dict? ==> s[0] == 123)
  {
  }

  lemma {:induction false} ValueParses(v: Value, rest: Bytes)
    requires Supported(v) && Ends(rest)
    ensures ParseValue(Print(v) + rest) == Some(Parsed(Denote(v), rest))
    decreases v, 2
  {
    hide ParseArray, ParseObject, ParseNumber, ParseChars, PrintItems, PrintEntries, EscapeAll, Itoa, Runes;
    PrintBegins(v);
    var s := Print(v) + rest;
    assert SkipSpace(s) == s;
    match v {
      case Nil => TakeDrop(Print(v), rest);
      case Bool(b) => TakeDrop(Print(v), rest);
      case Int(n) => NumberParses(n, rest);
      case Str(t) => StringParses(t, rest);
      case Sym(t) => StringParses(t, rest);
      case Arr(items) =>
        Tagged(91, PrintItems(items, true), [93], rest);
        ArrayParses(items, rest);
      case Dict(entries) =>
        Tagged(123, PrintEntries(entries, true), [125], rest);
        ObjectParses(entries, rest);
    }
  }

  lemma {:induction false} ArrayParses(items: seq<Value>, rest: Bytes)
    requires AllSupported(items)
    ensures ParseArray(PrintItems(items, true) + ([93] + rest)) == Some(Parsed(JArray(DenoteItems(items)), rest))
    decreases items, 1
  {
    var body := PrintItems(items, true);
    var t := body + ([93] + rest);
    TakeDrop([93], rest);
    if items == [] {
      assert t == [93] + rest;
    } else {
      PrintBegins(items[0]);
      ItemsShape(items, rest);
      ElementsParse(items, rest);
    }
  }

  lemma ItemsShape(items: seq<Value>, rest: Bytes)
    requires AllSupported(items) && items != []
    ensures
      PrintItems(items, true) + ([93] + rest)
      == Print(items[0]) + (if |items| == 1 then [93] + rest else [44] + (PrintItems(items[1..], true) + ([93] + rest)))
  {
    var tail, end := PrintItems(items[1..], false), [93] + rest;
    Assoc(Print(items[0]), tail, end);
    if |items| == 1 {
      assert tail + end == end;
    } else {
      Assoc([44], Print(items[1]), PrintItems(items[2..], false));
      assert items[1..][1..] == items[2..];
      Assoc([44], PrintItems(items[1..], true), end);
    }
  }

  lemma LastElement(s: Bytes, v: Json, rest: Bytes)
    ensures ParseValue(s) == Some(Parsed(v, [93] + rest)) ==> ParseElements(s) == Some(Parsed([v], rest))
  {
    TakeDrop([93], rest);
  }

  lemma NextElement(s: Bytes, v: Json, next: Bytes, l: seq<Json>, rest: Bytes)
    ensures
      ParseValue(s) == Some(Parsed(v, [44] + next)) && ParseElements(next) == Some(Parsed(l, rest)) ==>
        ParseElements(s) == Some(Parsed([v] + l, rest))
  {
    hide ParseValue;
    TakeDrop([44], next);
  }

  lemma {:induction false} ElementsParse(items: seq<Value>, rest: Bytes)
    requires AllSupported(items) && items != []
    ensures ParseElements(PrintItems(items, true) + ([93] + rest)) == Some(Parsed(DenoteItems(items), rest))
    decreases items, 0
  {
    var s := PrintItems(items, true) + ([93] + rest);
    ItemsShape(items, rest);
    if |items| == 1 {
      ValueParses(items[0], [93] + rest);
      LastElement(s, Denote(items[0]), rest);
      assert DenoteItems(items) == [Denote(items[0])];
    } else {
      var next := PrintItems(items[1..], true) + ([93] + rest);
      ValueParses(items[0], [44] + next);
      ElementsParse(items[1..], rest);
      NextElement(s, Denote(items[0]), next, DenoteItems(items[1..]), rest);
    }
  }

  lemma {:induction false} ObjectParses(entries: seq<Entry>, rest: Bytes)
    requires EntriesSupported(entries)
    ensures ParseObject(PrintEntries(entries, true) + ([125] + rest))
         == Some(Parsed(JObject(DenoteEntries(entries)), rest))
    decreases entries, 1
  {
    var body := PrintEntries(entries, true);
    var t := body + ([125] + rest);
    TakeDrop([125], rest);
    if entries == [] {
      assert t == [125] + rest;
    } else {
      EntriesShape(entries, rest);
      MembersParse(entries, rest);
    }
  }

  lemma EntriesShape(entries: seq<Entry>, rest: Bytes)
    requires EntriesSupported(entries) && entries != []
    ensures
      var key, value := PrintString(entries[0].key), Print(entries[0].value);
      PrintEntries(entries, true) + ([125] + rest)
      == key + ([58] + (value +
           (if |entries| == 1 then [125] + rest else [44] + (PrintEntries(entries[1..], true) + ([125] + rest)))))
  {
    var key, value := PrintString(entries[0].key), Print(entries[0].value);
    var tail, end := PrintEntries(entries[1..], false), [125] + rest;
    Assoc(key, [58] + (value + tail), end);
    Assoc([58], value + tail, end);
    Assoc(value, tail, end);
    if |entries| == 1 {
      assert tail + end == end;
    } else {
      SecondEntry(entries[1..]);
      Assoc([44], PrintEntries(entries[1..], true), end);
    }
  }

  lemma SecondEntry(entries: seq<Entry>)
    requires EntriesSupported(entries) && entries != []
    ensures PrintEntries(entries, false) == [44] + PrintEntries(entries, true)
  {
    var value := Print(entries[0].value) + PrintEntries(entries[1..], false);
    Assoc([44], PrintString(entries[0].key), [58] + value);
  }

  lemma NameParses(key: Bytes, rest: Bytes)
    ensures ParseName(PrintString(key) + ([58] + rest)) == Some(Parsed(Runes(key), rest))
  {
    StringParses(key, [58] + rest);
    TakeDrop([58], rest);
  }

  lemma LastMember(s: Bytes, name: seq<CodePoint>, s1: Bytes, v: Json, rest: Bytes)
    ensures
      ParseName(s) == Some(Parsed(name, s1)) && ParseValue(s1) == Some(Parsed(v, [125] + rest)) ==>
        ParseMembers(s) == Some(Parsed([Member(name, v)], rest))
  {
    hide ParseName, ParseValue;
    TakeDrop([125], rest);
  }

  lemma NextMember(s: Bytes, name: seq<CodePoint>, s1: Bytes, v: Json, next: Bytes, l: seq<Member>, rest: Bytes)
    ensures
      && ParseName(s) == Some(Parsed(name, s1)) && ParseValue(s1) == Some(Parsed(v, [44] + next))
      && ParseMembers(next) == Some(Parsed(l, rest)) ==>
        ParseMembers(s) == Some(Parsed([Member(name, v)] + l, rest))
  {
    hide ParseName, ParseValue;
    TakeDrop([44], next);
  }

  lemma {:induction false} MembersParse(entries: seq<Entry>, rest: Bytes)
    requires EntriesSupported(entries) && entries != []
    ensures ParseMembers(PrintEntries(entries, true) + ([125] + rest)) == Some(Parsed(DenoteEntries(entries), rest))
    decreases entries, 0
  {
    var name, v := Runes(entries[0].key), entries[0].value;
    var s := PrintEntries(entries, true) + ([125] + rest);
    EntriesShape(entries, rest);
    if |entries| == 1 {
      NameParses(entries[0].key, Print(v) + ([125] + rest));
      ValueParses(v, [125] + rest);
      LastMember(s, name, Print(v) + ([125] + rest), Denote(v), rest);
      assert DenoteEntries(entries) == [Member(name, Denote(v))];
    } else {
      var next := PrintEntries(entries[1..], true) + ([125] + rest);
      NameParses(entries[0].key, Print(v) + ([44] + next));
      ValueParses(v, [44] + next);
      MembersParse(entries[1..], rest);
      NextMember(s, name, Print(v) + ([44] + next), Denote(v), next, DenoteEntries(entries[1..]), rest);
    }
  }

  /** Reading a printed value gives back its image: key order, duplicate keys and nesting included. */
  lemma ParsePrint(v: Value)
    requires Supported(v)
    ensures Parse(Print(v)) == Some(Denote(v))
  {
    ValueParses(v, []);
    assert Print(v) + [] == Print(v);
  }

  // ------------------------------------------------------------------ kernel

  /** What printing forgets: Symbol versus String, and what stood in for an invalid byte. */
  function Erase(v: Value): Value
    requires Supported(v)
    decreases v, 1
  {
    match v
    case Str(s) => Str(Scrub(s))
    case Sym(name) => Str(Scrub(name))
    case Arr(items) => Arr(EraseItems(items))
    case Dict(entries) => Dict(EraseEntries(entries))
    case _ => v
  }

  function EraseItems(items: seq<Value>): seq<Value>
    requires AllSupported(items)
    decreases items, 0
  {
    if items == [] then [] else [Erase(items[0])] + EraseItems(items[1..])
  }

  function EraseEntries(entries: seq<Entry>): seq<Entry>
    requires EntriesSupported(entries)
    decreases entries, 0
  {
    if entries == [] then []
    else [Entry(Scrub(entries[0].key), Erase(entries[0].value))] + EraseEntries(entries[1..])
  }

  /** The value of this package that a JSON value reads as. */
  function Recover(j: Json): Value
    decreases j, 1
  {
    match j
    case JNull => Nil
    case JBool(b) => Bool(b)
    case JInt(n) => if -0x8000_0000_0000_0000 <= n < 0x8000_0000_0000_0000 then Int(n) else Opaque
    case JReal(_) => Opaque
    case JString(s) => Str(EncodeAll(s))
    case JArray(items) => Arr(RecoverItems(items))
    case JObject(members) => Dict(RecoverMembers(members))
  }

  function RecoverItems(items: seq<Json>): seq<Value>
    decreases items, 0
  {
    if items == [] then [] else [Recover(items[0])] + RecoverItems(items[1..])
  }

  function RecoverMembers(members: seq<Member>): seq<Entry>
    decreases members, 0
  {
    if members == [] then []
    else [Entry(EncodeAll(members[0].name), Recover(members[0].value))] + RecoverMembers(members[1..])
  }

  lemma {:induction false} RecoverDenote(v: Value)
    requires Supported(v)
    ensures Recover(Denote(v)) == Erase(v)
    decreases v, 1
  {
    match v {
      case Arr(items) => RecoverDenoteItems(items);
      case Dict(entries) => RecoverDenoteEntries(entries);
      case _ =>
    }
  }

  lemma {:induction false} RecoverDenoteItems(items: seq<Value>)
    requires AllSupported(items)
    ensures RecoverItems(DenoteItems(items)) == EraseItems(items)
    decreases items, 0
  {
    if items != [] {
      RecoverDenote(items[0]);
      RecoverDenoteItems(items[1..]);
      assert DenoteItems(items)[1..] == DenoteItems(items[1..]);
    }
  }

  lemma {:induction false} RecoverDenoteEntries(entries: seq<Entry>)
    requires EntriesSupported(entries)
    ensures RecoverMembers(DenoteEntries(entries)) == EraseEntries(entries)
    decreases entries, 0
  {
    if entries != [] {
      RecoverDenote(entries[0].value);
      RecoverDenoteEntries(entries[1..]);
      assert DenoteEntries(entries)[1..] == DenoteEntries(entries[1..]);
    }
  }

  lemma {:induction false} PrintErase(v: Value)
    requires Supported(v)
    ensures Supported(Erase(v)) && Print(Erase(v)) == Print(v)
    decreases v, 1
  {
    match v {
      case Str(s) => ScrubChangesInvalid(s);
      case Sym(name) => ScrubChangesInvalid(name);
      case Arr(items) => PrintEraseItems(items, true);
      case Dict(entries) => PrintEraseEntries(entries, true);
      case _ =>
    }
  }

  lemma {:induction false} PrintEraseItems(items: seq<Value>, first: bool)
    requires AllSupported(items)
    ensures AllSupported(EraseItems(items)) && PrintItems(EraseItems(items), first) == PrintItems(items, first)
    decreases items, 0
  {
    if items != [] {
      PrintErase(items[0]);
      PrintEraseItems(items[1..], false);
      assert EraseItems(items)[1..] == EraseItems(items[1..]);
    }
  }

  lemma {:induction false} PrintEraseEntries(entries: seq<Entry>, first: bool)
    requires EntriesSupported(entries)
    ensures EntriesSupported(EraseEntries(entries))
    ensures PrintEntries(EraseEntries(entries), first) == PrintEntries(entries, first)
    decreases entries, 0
  {
    if entries != [] {
      ScrubChangesInvalid(entries[0].key);
      PrintErase(entries[0].value);
      PrintEraseEntries(entries[1..], false);
      assert EraseEntries(entries)[1..] == EraseEntries(entries[1..]);
    }
  }

  /** A printed value reads back as its erasure. */
  lemma RecoverParse(v: Value)
    requires Supported(v)
    ensures Parse(Print(v)).Some? && Recover(Parse(Print(v)).value) == Erase(v)
  {
    ParsePrint(v);
    RecoverDenote(v);
  }

  /** Two values print alike exactly when they have the same erasure. */
  lemma JsonKernel(v: Value, w: Value)
    requires Supported(v) && Supported(w)
    ensures Print(v) == Print(w) <==> Erase(v) == Erase(w)
  {
    RecoverParse(v);
    RecoverParse(w);
    PrintErase(v);
    PrintErase(w);
  }
}
