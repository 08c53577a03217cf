/** The JSON printer (rjson.go). */
module JsonPrinter {
  import opened Common
  import opened Values
  import opened Utf8
  import opened Decimal

  /** What rjString writes for one code point. */
  function Escape(c: CodePoint): Bytes {
    if c == 34 then [92, 34]
    else if c == 92 then [92, 92]
    else if c == 8 then [92, 98]
    else if c == 12 then [92, 102]
    else if c == 10 then [92, 110]
    else if c == 13 then [92, 114]
    else if c == 9 then [92, 116]
    else if c < 0x20 then [92, 117, 48, 48, HexDigit(c / 16), HexDigit(c % 16)]
    else EncodeRune(c)
  }

  function EscapeAll(rs: seq<CodePoint>): Bytes {
    if rs == [] then [] else Escape(rs[0]) + EscapeAll(rs[1..])
  }

  function PrintString(s: Bytes): Bytes { [34] + EscapeAll(Runes(s)) + [34] }

  /** Every element but the first follows a comma. */
  function Lead(first: bool, text: Bytes): Bytes { if first then text else [44] + text }

  function Print(v: Value): Bytes
    requires Supported(v)
    decreases v, 1
  {
    match v
    case Nil => Ascii("null")
    case Bool(b) => if b then Ascii("true") else Ascii("false")
    case Int(n) => Itoa(n)
    case Str(s) => PrintString(s)
    case Sym(name) => PrintString(name)
    case Arr(items) => [91] + PrintItems(items, true) + [93]
    case Dict(entries) => [123] + PrintEntries(entries, true) + [125]
  }

  function PrintItems(items: seq<Value>, first: bool): Bytes
    requires AllSupported(items)
    decreases items, 0
  {
    if items == [] then [] else Lead(first, Print(items[0])) + PrintItems(items[1..], false)
  }

  function PrintEntries(entries: seq<Entry>, first: bool): Bytes
    requires EntriesSupported(entries)
    decreases entries, 0
  {
    if entries == [] then []
    else
      var tail := PrintEntries(entries[1..], false);
      Lead(first, PrintString(entries[0].key)) + ([58] + (Print(entries[0].value) + tail))
  }

  // ------------------------------------------------------------- the printer

  /** The switch in rjString. */
  method WriteEscaped(b: Buffer, c: CodePoint)
    modifies b
    ensures b.data == old(b.data) + Escape(c)
  {
    match c {
      case 34 => b.WriteString([92, 34]);
      case 92 => b.WriteString([92, 92]);
      case 8 => b.WriteString([92, 98]);
      case 12 => b.WriteString([92, 102]);
      case 10 => b.WriteString([92, 110]);
      case 13 => b.WriteString([92, 114]);
      case 9 => b.WriteString([92, 116]);
      case _ =>
        if c < 0x20 {
          b.WriteString([92, 117, 48, 48, HexDigit(c / 16), HexDigit(c % 16)]);
        } else {
          b.WriteString(EncodeRune(c));
        }
    }
  }

  method RjString(b: Buffer, s: Bytes)
    modifies b
    ensures b.data == old(b.data) + PrintString(s)
  {
    b.WriteByte(34);
    ghost var start := b.data;
    var i := 0;
    while i < |s|
      invariant 0 <= i <= |s|
      invariant start + EscapeAll(Runes(s)) == b.data + EscapeAll(Runes(s[i..]))
    {
      var r := DecodeRune(s[i..]);
      ghost var before := b.data;
      WriteEscaped(b, r.code);
      assert s[i..][r.width..] == s[i + r.width..];
      EscapeAllCons(r.code, Runes(s[i + r.width..]));
      Assoc(before, Escape(r.code), EscapeAll(Runes(s[i + r.width..])));
      i := i + r.width;
    }
    assert b.data == old(b.data) + [34] + EscapeAll(Runes(s));
    b.WriteByte(34);
    Assoc(old(b.data), [34], EscapeAll(Runes(s)));
    Assoc(old(b.data), [34] + EscapeAll(Runes(s)), [34]);
  }

  lemma EscapeAllCons(c: CodePoint, rs: seq<CodePoint>)
    ensures EscapeAll([c] + rs) == Escape(c) + EscapeAll(rs)
  {
    assert ([c] + rs)[1..] == rs;
  }

  /** Reports an error exactly on unsupported values; otherwise appends the value's text. */
  method RjEncode(b: Buffer, v: Value) returns (ok: bool)
    modifies b
    ensures ok <==> Supported(v)
    ensures ok ==> b.data == old(b.data) + Print(v)
    decreases v, 1
  {
    match v {
      case Nil => b.WriteString(Ascii("null"));
      case Bool(t) =>
        if t {
          b.WriteString(Ascii("true"));
        } else {
          b.WriteString(Ascii("false"));
        }
      case Int(n) => b.WriteString(Itoa(n));
      case Str(s) => RjString(b, s);
      case Sym(name) => RjString(b, name);
      case Arr(items) =>
        ok := RjItems(b, items);
        return;
      case Dict(entries) =>
        ok := RjEntries(b, entries);
        return;
      case Opaque =>
        return false;
    }
    ok := true;
  }

  /** The []any case of rjEncode. */
  method RjItems(b: Buffer, items: seq<Value>) returns (ok: bool)
    modifies b
    ensures ok <==> AllSupported(items)
    ensures ok ==> b.data == old(b.data) + ([91] + PrintItems(items, true) + [93])
    decreases items, 0
  {
    hide Print;
    b.WriteByte(91);
    ghost var start := b.data;
    for i := 0 to |items|
      invariant forall j :: 0 <= j < i ==> Supported(items[j])
      invariant AllSupported(items) ==> start + PrintItems(items, true) == b.data + PrintItems(items[i..], i == 0)
    {
      ghost var before, todo := b.data, items[i..];
      if i > 0 {
        b.WriteByte(44);
      }
      ok := RjEncode(b, items[i]);
      if !ok {
        return;
      }
      assert todo[1..] == items[i + 1..];
      if AllSupported(items) {
        Assoc(before, [44], Print(items[i]));
        assert b.data == before + Lead(i == 0, Print(items[i]));
        Assoc(before, Lead(i == 0, Print(items[i])), PrintItems(items[i + 1..], false));
      }
    }
    b.WriteByte(93);
    Assoc(old(b.data), [91], PrintItems(items, true));
    Assoc(old(b.data), [91] + PrintItems(items, true), [93]);
    ok := true;
  }

  /** The Hash case of rjEncode. */
  method RjEntries(b: Buffer, entries: seq<Entry>) returns (ok: bool)
    modifies b
    ensures ok <==> EntriesSupported(entries)
    ensures ok ==> b.data == old(b.data) + ([123] + PrintEntries(entries, true) + [125])
    decreases entries, 0
  {
    hide Print, PrintString;
    b.WriteByte(123);
    ghost var start := b.data;
    for i := 0 to |entries|
      invariant forall j :: 0 <= j < i ==> Supported(entries[j].value)
      invariant EntriesSupported(entries) ==>
          start + PrintEntries(entries, true) == b.data + PrintEntries(entries[i..], i == 0)
    {
      ghost var before, todo := b.data, entries[i..];
      if i > 0 {
        b.WriteByte(44);
        Assoc(before, [44], PrintString(entries[i].key));
      }
      RjString(b, entries[i].key);
      b.WriteByte(58);
      ok := RjEncode(b, entries[i].value);
      if !ok {
        return;
      }
      assert todo[1..] == entries[i + 1..];
      if EntriesSupported(entries) {
        PrintEntriesStep(before, todo, i == 0);
      }
    }
    b.WriteByte(125);
    Assoc(old(b.data), [123], PrintEntries(entries, true));
    Assoc(old(b.data), [123] + PrintEntries(entries, true), [125]);
    ok := true;
  }

  /** One round of the Hash loop. */
  lemma PrintEntriesStep(before: Bytes, todo: seq<Entry>, first: bool)
    requires todo != [] && EntriesSupported(todo)
    ensures before + PrintEntries(todo, first)
         == (((before + Lead(first, PrintString(todo[0].key))) + [58]) + Print(todo[0].value))
            + PrintEntries(todo[1..], false)
  {
    var k, v, tail := Lead(first, PrintString(todo[0].key)), Print(todo[0].value), PrintEntries(todo[1..], false);
    Assoc(before, k, [58] + (v + tail));
    Assoc(before + k, [58], v + tail);
    Assoc(before + k + [58], v, tail);
  }

  method RubyJson(v: Value) returns (r: Result<Bytes>)
    ensures Supported(v) ==> r == Ok(Print(v))
    ensures !Supported(v) ==> r == Err(NotEncodable)
  {
    var b := new Buffer();
    var ok := RjEncode(b, v);
    if !ok {
      return Err(NotEncodable);
    }
    assert b.data == Print(v);
    return Ok(b.data);
  }
}
