/** A JSON reader after sections 2 to 7 of RFC 8259, independent of the printer. */
module JsonReader {
  import opened Common
  import opened Utf8
  import opened Decimal

  datatype Json =
    | JNull
    | JBool(b: bool)
    | JInt(n: int)
    | JReal(text: Bytes)               // a number with a fraction or an exponent
    | JString(s: seq<CodePoint>)
    | JArray(items: seq<Json>)
    | JObject(members: seq<Member>)    // in text order, duplicate names kept

  datatype Member = Member(name: seq<CodePoint>, value: Json)

  datatype Parsed<T> = Parsed(value: T, rest: Bytes)

  // ------------------------------------------------------------- white space

  predicate IsSpace(b: Byte) { b == 32 || b == 9 || b == 10 || b == 13 }

  function SkipSpace(s: Bytes): (r: Bytes)
    ensures |r| <= |s|
    ensures s != [] && !IsSpace(s[0]) ==> r == s
  {
    if s != [] && IsSpace(s[0]) then SkipSpace(s[1..]) else s
  }

  // ----------------------------------------------------------------- strings

  function HexValue(b: Byte): (r: Option<int>)
    ensures r.Some? ==> 0 <= r.value < 16
  {
    if 48 <= b <= 57 then Some(b - 48)
    else if 97 <= b <= 102 then Some(b - 87)
    else if 65 <= b <= 70 then Some(b - 55)
    else None
  }

  /** Four hexadecimal digits: one UTF-16 code unit. */
  function ParseUnit(s: Bytes): (r: Option<int>)
    ensures r.Some? ==> 0 <= r.value < 0x10000
  {
    if |s| < 4 then None
    else
      var a, b, c, d := HexValue(s[0]), HexValue(s[1]), HexValue(s[2]), HexValue(s[3]);
      if a.None? || b.None? || c.None? || d.None? then None
      else Some(a.value * 4096 + b.value * 256 + c.value * 16 + d.value)
  }

  function ShortEscape(b: Byte): Option<CodePoint> {
    if b == 34 || b == 92 || b == 47 then Some(b)
    else if b == 98 then Some(8)
    else if b == 102 then Some(12)
    else if b == 110 then Some(10)
    else if b == 114 then Some(13)
    else if b == 116 then Some(9)
    else None
  }

  /** One character of a string's contents. */
  function ParseChar(s: Bytes): (r: Option<Parsed<CodePoint>>)
    ensures r.Some? ==> |r.value.rest| < |s|
  {
    if s == [] || s[0] == 34 || s[0] < 0x20 then None
    else if s[0] != 92 then
      var step := DecodeRune(s);
      if Clean(step) then Some(Parsed(step.code, s[step.width..])) else None
    else if |s| < 2 then None
    else if s[1] != 117 then
      var c := ShortEscape(s[1]);
      if c.Some? then Some(Parsed(c.value, s[2..])) else None
    else
      var unit := ParseUnit(s[2..]);
      if unit.None? then None
      else if !(0xD800 <= unit.value <= 0xDFFF) then Some(Parsed(unit.value, s[6..]))
      else if unit.value <= 0xDBFF && |s| >= 12 && s[6] == 92 && s[7] == 117 then
        var low := ParseUnit(s[8..]);
        if low.Some? && 0xDC00 <= low.value <= 0xDFFF then
          Some(Parsed(0x10000 + (unit.value - 0xD800) * 0x400 + (low.value - 0xDC00), s[12..]))
        else None
      else None
  }

  /** The contents of a string after its opening quotation mark, up to and including the closing one. */
  function ParseChars(s: Bytes): (r: Option<Parsed<seq<CodePoint>>>)
    ensures r.Some? ==> |r.value.rest| < |s|
    decreases |s|
  {
    if s != [] && s[0] == 34 then Some(Parsed([], s[1..]))
    else
      var c := ParseChar(s);
      if c.None? then None
      else
        var t := ParseChars(c.value.rest);
        if t.None? then None else Some(Parsed([c.value.value] + t.value.value, t.value.rest))
  }

  // ----------------------------------------------------------------- numbers

  function DigitRun(s: Bytes): (n: nat)
    ensures n <= |s| && AllDigits(s[..n])
    ensures n < |s| ==> !IsDigit(s[n])
  {
    if s == [] || !IsDigit(s[0]) then 0 else 1 + DigitRun(s[1..])
  }

  /** The length of an optional fraction; none if a point is not followed by a digit. */
  function FractionLength(s: Bytes): (r: Option<nat>)
    ensures r.Some? ==> r.value <= |s|
  {
    if s == [] || s[0] != 46 then Some(0)
    else if DigitRun(s[1..]) == 0 then None
    else Some(1 + DigitRun(s[1..]))
  }

  /** The length of an optional exponent. */
  function ExponentLength(s: Bytes): (r: Option<nat>)
    ensures r.Some? ==> r.value <= |s|
  {
    if s == [] || (s[0] != 101 && s[0] != 69) then Some(0)
    else
      var sign: nat := if |s| >= 2 && (s[1] == 43 || s[1] == 45) then 1 else 0;
      var n := DigitRun(s[1 + sign..]);
      if n == 0 then None else Some(1 + sign + n)
  }

  function ParseNumber(s: Bytes): (r: Option<Parsed<Json>>)
    ensures r.Some? ==> |r.value.rest| < |s|
  {
    var minus := s != [] && s[0] == 45;
    var t := if minus then s[1..] else s;
    var n := DigitRun(t);
    if n == 0 || (n > 1 && t[0] == 48) then None
    else
      var f := FractionLength(t[n..]);
      if f.None? then None
      else
        var e := ExponentLength(t[n + f.value..]);
        if e.None? then None
        else if f.value + e.value == 0 then
          var m: int := DigitsValue(t[..n]);
          Some(Parsed(JInt(if minus then -m else m), t[n..]))
        else
          var rest := t[n + f.value + e.value..];
          Some(Parsed(JReal(s[..|s| - |rest|]), rest))
  }

  // ------------------------------------------------------------------ values

  function ParseLiteral(s: Bytes, word: Bytes, v: Json): (r: Option<Parsed<Json>>)
    requires word != []
    ensures r.Some? ==> |r.value.rest| < |s|
  {
    if word <= s then Some(Parsed(v, s[|word|..])) else None
  }

  /** A literal name, a string or a number. */
  function ParseScalar(s: Bytes): (r: Option<Parsed<Json>>)
    requires s != []
    ensures r.Some? ==> |r.value.rest| < |s|
  {
    if s[0] == 110 then ParseLiteral(s, Ascii("null"), JNull)
    else if s[0] == 116 then ParseLiteral(s, Ascii("true"), JBool(true))
    else if s[0] == 102 then ParseLiteral(s, Ascii("false"), JBool(false))
    else if s[0] == 34 then
      var t := ParseChars(s[1..]);
      if t.None? then None else Some(Parsed(JString(t.value.value), t.value.rest))
    else ParseNumber(s)
  }

  function ParseValue(s0: Bytes): (r: Option<Parsed<Json>>)
    ensures r.Some? ==> |r.value.rest| < |s0|
    decreases |s0|, 0
  {
    var s := SkipSpace(s0);
    if s == [] then None
    else if s[0] == 91 then ParseArray(s[1..])
    else if s[0] == 123 then ParseObject(s[1..])
    else ParseScalar(s)
  }

  /** An array after its '['. */
  function ParseArray(s: Bytes): (r: Option<Parsed<Json>>)
    ensures r.Some? ==> |r.value.rest| < |s|
    decreases |s|, 2
  {
    var t := SkipSpace(s);
    if t != [] && t[0] == 93 then Some(Parsed(JArray([]), t[1..]))
    else
      var l := ParseElements(t);
      if l.None? then None else Some(Parsed(JArray(l.value.value), l.value.rest))
  }

  /** An object after its '{'. */
  function ParseObject(s: Bytes): (r: Option<Parsed<Json>>)
    ensures r.Some? ==> |r.value.rest| < |s|
    decreases |s|, 2
  {
    var t := SkipSpace(s);
    if t != [] && t[0] == 125 then Some(Parsed(JObject([]), t[1..]))
    else
      var l := ParseMembers(t);
      if l.None? then None else Some(Parsed(JObject(l.value.value), l.value.rest))
  }

  /** One or more values separated by commas, then ']'. */
  function ParseElements(s: Bytes): (r: Option<Parsed<seq<Json>>>)
    ensures r.Some? ==> |r.value.rest| < |s|
    decreases |s|, 1
  {
    var v := ParseValue(s);
    if v.None? then None
    else
      var t := SkipSpace(v.value.rest);
      if t == [] then None
      else if t[0] == 93 then Some(Parsed([v.value.value], t[1..]))
      else if t[0] == 44 then
        var l := ParseElements(t[1..]);
        if l.None? then None else Some(Parsed([v.value.value] + l.value.value, l.value.rest))
      else None
  }

  /** A quoted name and its colon. */
  function ParseName(s0: Bytes): (r: Option<Parsed<seq<CodePoint>>>)
    ensures r.Some? ==> |r.value.rest| < |s0|
  {
    var s := SkipSpace(s0);
    if s == [] || s[0] != 34 then None
    else
      var name := ParseChars(s[1..]);
      if name.None? then None
      else
        var t := SkipSpace(name.value.rest);
        if t == [] || t[0] != 58 then None else Some(Parsed(name.value.value, t[1..]))
  }

  /** One or more members separated by commas, then '}'. */
  function ParseMembers(s: Bytes): (r: Option<Parsed<seq<Member>>>)
    ensures r.Some? ==> |r.value.rest| < |s|
    decreases |s|, 1
  {
    var name := ParseName(s);
    if name.None? then None
    else
      var v := ParseValue(name.value.rest);
      if v.None? then None
      else
        var m := Member(name.value.value, v.value.value);
        var t := SkipSpace(v.value.rest);
        if t == [] then None
        else if t[0] == 125 then Some(Parsed([m], t[1..]))
        else if t[0] == 44 then
          var l := ParseMembers(t[1..]);
          if l.None? then None else Some(Parsed([m] + l.value.value, l.value.rest))
        else None
  }

  /** A JSON text: one value, white space around it, nothing else. */
  function Parse(s: Bytes): Option<Json> {
    var v := ParseValue(s);
    if v.None? || SkipSpace(v.value.rest) != [] then None else Some(v.value.value)
  }

  // ----------------------------------------------------------------- nesting

  function Max(a: nat, b: nat): nat { if a < b then b else a }

  /** How deep arrays and objects are nested. */
  function Depth(j: Json): nat
    decreases j, 1
  {
    match j
    case JArray(items) => 1 + DepthItems(items)
    case JObject(members) => 1 + DepthMembers(members)
    case _ => 0
  }

  function DepthItems(items: seq<Json>): nat
    decreases items, 0
  {
    if items == [] then 0 else Max(Depth(items[0]), DepthItems(items[1..]))
  }

  function DepthMembers(members: seq<Member>): nat
    decreases members, 0
  {
    if members == [] then 0 else Max(Depth(members[0].value), DepthMembers(members[1..]))
  }
}
