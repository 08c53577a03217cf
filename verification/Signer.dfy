/** The two token formats (signer.go). The MAC is an arbitrary function of the message. */
module Signer {
  import opened Common
  import opened Values
  import opened Utf8
  import opened JsonPrinter
  import opened JsonReader
  import opened Base64
  import opened Clock

  // ---------------------------------------------------- purpose.base64.mac

  const DOT: Byte := 46

  /** `hmac` is HMAC-SHA256 under the signer's secret. */
  datatype HMACSigner = HMACSigner(hmac: Bytes -> Bytes) {

    function Mac(msg: Bytes): Bytes { Encode(hmac(msg), UrlSafe, false) }

    /** The authenticated part of a token. */
    static function Payload(data: Bytes, purpose: Bytes): Bytes {
      purpose + [DOT] + Encode(data, UrlSafe, false)
    }

    function Sign(data: Bytes, purpose: Bytes): Bytes {
      var payload := Payload(data, purpose);
      payload + [DOT] + Mac(payload)
    }

    function Verify(token: Bytes, purpose: Bytes): Result<Bytes> {
      var parts := Split(token, DOT);
      if |parts| != 3 then Err(InvalidSignature)
      else
        var data := DecodeString(parts[1], UrlSafe, false);
        if data.None? then Err(InvalidSignature)
        else if Mac(parts[0] + [DOT] + parts[1]) != parts[2] then Err(InvalidSignature)
        else if parts[0] != purpose then Err(InvalidSignature)
        else Ok(data.value)
    }
  }

  // ------------------------------------------------------- payload--hexmac

  const DASH: Byte := 45

  /** strings.LastIndex(s, "--"). */
  function LastDashes(s: Bytes): (i: int)
    ensures -1 <= i <= |s| - 2 || (i == -1 && |s| < 2)
    ensures i >= 0 ==> s[i] == DASH && s[i + 1] == DASH
    ensures forall k :: 0 <= k && i < k < |s| - 1 ==> !(s[k] == DASH && s[k + 1] == DASH)
  {
    if |s| < 2 then -1
    else if s[|s| - 2] == DASH && s[|s| - 1] == DASH then |s| - 2
    else LastDashes(s[..|s| - 1])
  }

  const RAILS: Bytes := [95, 114, 97, 105, 108, 115]  // _rails
  const MESSAGE: Bytes := [109, 101, 115, 115, 97, 103, 101]  // message
  const EXP: Bytes := [101, 120, 112]  // exp
  const PUR: Bytes := [112, 117, 114]  // pur
  const RAILS_KEY: Bytes := [123, 34] + RAILS + [34, 58, 123]    // {"_rails":{
  const MESSAGE_KEY: Bytes := [34] + MESSAGE + [34, 58]          // "message":
  const EXP_KEY: Bytes := [44, 34] + EXP + [34, 58]              // ,"exp":
  const PUR_KEY: Bytes := [44, 34] + PUR + [34, 58]              // ,"pur":

  /** The names and the literal pieces of the envelope. */
  lemma EnvelopeNames()
    ensures RAILS == Ascii("_rails") && MESSAGE == Ascii("message") && EXP == Ascii("exp") && PUR == Ascii("pur")
    ensures RAILS_KEY == Ascii("{\"_rails\":{") && MESSAGE_KEY == Ascii("\"message\":")
    ensures EXP_KEY == Ascii(",\"exp\":") && PUR_KEY == Ascii(",\"pur\":")
  {
  }

  /** The metadata envelope as a value: {_rails: {message:, exp:, pur:}}. */
  function EnvelopeValue(serialized: Bytes, purpose: Bytes, expiresAt: Time): Value {
    Dict([Entry(RAILS, Dict([
      Entry(MESSAGE, Str(Encode(serialized, Standard, true))),
      Entry(EXP, if expiresAt == ZERO then Nil else Str(Format(expiresAt))),
      Entry(PUR, Str(purpose))]))])
  }

  lemma EnvelopeSupported(serialized: Bytes, purpose: Bytes, expiresAt: Time)
    ensures Supported(EnvelopeValue(serialized, purpose, expiresAt))
  {
  }

  function Envelope(serialized: Bytes, purpose: Bytes, expiresAt: Time): Bytes {
    EnvelopeSupported(serialized, purpose, expiresAt);
    Print(EnvelopeValue(serialized, purpose, expiresAt))
  }

  /** The struct json.Unmarshal fills; absent fields keep their zero value. */
  datatype Fields = Fields(message: Bytes, exp: Option<Bytes>, pur: Bytes)

  const NO_FIELDS := Fields([], None, [])

  /** The folding under which encoding/json finds struct fields; only two code points outside ASCII fold into it. */
  function FoldRune(c: CodePoint): CodePoint {
    if 65 <= c <= 90 then c + 32 else if c == 0x17F then 115 else if c == 0x212A then 107 else c
  }

  function FoldName(name: seq<CodePoint>): seq<CodePoint> {
    if name == [] then [] else [FoldRune(name[0])] + FoldName(name[1..])
  }

  /** Exactly the other case of an ASCII letter, the long s and the Kelvin sign fold to another character. */
  lemma FoldRuneIs(c: CodePoint, x: CodePoint)
    requires 97 <= x <= 122 || x == 95
    ensures FoldRune(c) == x <==>
      c == x || (x != 95 && c == x - 32) || (x == 's' as int && c == 0x17F) || (x == 'k' as int && c == 0x212A)
  {
  }

  /** The object key selects the struct field; no two fields fold alike. */
  predicate Selects(name: seq<CodePoint>, field: Bytes) { FoldName(name) == field }

  /** One member of the inner object: a string sets its field, null leaves or clears it, anything else is an error. */
  function ReadField(f: Fields, m: Member): Option<Fields> {
    if Selects(m.name, MESSAGE) then
      if m.value.JString? then Some(f.(message := EncodeAll(m.value.s)))
      else if m.value.JNull? then Some(f) else None
    else if Selects(m.name, EXP) then
      if m.value.JString? then Some(f.(exp := Some(EncodeAll(m.value.s))))
      else if m.value.JNull? then Some(f.(exp := None)) else None
    else if Selects(m.name, PUR) then
      if m.value.JString? then Some(f.(pur := EncodeAll(m.value.s)))
      else if m.value.JNull? then Some(f) else None
    else Some(f)
  }

  function ReadFields(f: Fields, ms: seq<Member>): Option<Fields>
    decreases |ms|
  {
    if ms == [] then Some(f)
    else
      var g := ReadField(f, ms[0]);
      if g.None? then None else ReadFields(g.value, ms[1..])
  }

  function ReadRails(f: Fields, ms: seq<Member>): Option<Fields>
    decreases |ms|
  {
    if ms == [] then Some(f)
    else if !Selects(ms[0].name, RAILS) || ms[0].value.JNull? then ReadRails(f, ms[1..])
    else if !ms[0].value.JObject? then None
    else
      var g := ReadFields(f, ms[0].value.members);
      if g.None? then None else ReadRails(g.value, ms[1..])
  }

  /** encoding/json refuses to nest deeper. */
  const MAX_DEPTH := 10_000

  /** json.Unmarshal into the envelope struct. */
  function OpenEnvelope(payload: Bytes): Option<Fields> {
    var j := Parse(payload);
    if j.None? || Depth(j.value) > MAX_DEPTH then None
    else if j.value.JNull? then Some(NO_FIELDS)
    else if j.value.JObject? then ReadRails(NO_FIELDS, j.value.members)
    else None
  }

  /** `hmac` is HMAC-SHA1 under the verifier's secret, `now` its clock at the time of the call. */
  datatype RailsVerifier = RailsVerifier(hmac: Bytes -> Bytes, urlSafe: bool, now: Time) {

    function Digest(data: Bytes): Bytes { Hex(hmac(data)) }

    function EncodePayload(data: Bytes): Bytes {
      if urlSafe then Encode(data, UrlSafe, false) else Encode(data, Standard, true)
    }

    function DecodePayload(s: Bytes): Option<Bytes> {
      if urlSafe then DecodeString(s, UrlSafe, false) else DecodeString(s, Standard, true)
    }

    function Token(payload: Bytes): Bytes {
      var encoded := EncodePayload(payload);
      encoded + [DASH, DASH] + Digest(encoded)
    }

    function Generate(value: Value, purpose: Bytes, expiresAt: Time): Result<Bytes> {
      if !Supported(value) then Err(NotEncodable)
      else
        var serialized := Print(value);
        var wrapped := !(purpose == [] && expiresAt == ZERO);
        Ok(Token(if wrapped then Envelope(serialized, purpose, expiresAt) else serialized))
    }

    /** What Verified does with an unmarshalled envelope. */
    function ReadEnvelope(f: Fields, purpose: Bytes): Result<Bytes> {
      if f.pur != purpose then Err(InvalidSignature)
      else
        var exp := if f.exp.Some? then ParseTime(f.exp.value) else None;
        if f.exp.Some? && exp.None? then Err(InvalidSignature)
        else if exp.Some? && !Before(now, exp.value) then Err(Expired)
        else
          var msg := DecodeString(f.message, Standard, true);
          if msg.None? then Err(InvalidSignature) else Ok(msg.value)
    }

    /** What Verified does once the signature has been checked and the payload decoded. */
    function ReadPayload(payload: Bytes, purpose: Bytes): Result<Bytes> {
      if purpose == [] then Ok(payload)
      else
        var env := OpenEnvelope(payload);
        if env.None? then Err(InvalidSignature) else ReadEnvelope(env.value, purpose)
    }

    function Verified(token: Bytes, purpose: Bytes): Result<Bytes> {
      var i := LastDashes(token);
      if i < 0 then Err(InvalidSignature)
      else
        var encoded, sig := token[..i], token[i + 2..];
        if Digest(encoded) != sig then Err(InvalidSignature)
        else
          var payload := DecodePayload(encoded);
          if payload.None? then Err(InvalidSignature) else ReadPayload(payload.value, purpose)
    }

    function Sign(data: Bytes, purpose: Bytes): Result<Bytes> { Generate(Str(data), purpose, ZERO) }

    /** Verified, then json.Unmarshal into a string. */
    function Verify(token: Bytes, purpose: Bytes): Result<Bytes> {
      var raw := Verified(token, purpose);
      if raw.Err? then raw
      else
        var j := Parse(raw.value);
        if j.Some? && j.value.JString? then Ok(EncodeAll(j.value.s))
        else if j == Some(JNull) then Ok([])
        else Err(InvalidSignature)
    }
  }

  // ------------------------------------------------- writing the envelope

  lemma {:induction false} PlainText(s: Bytes)
    requires forall i :: 0 <= i < |s| ==> Plain(s[i]) || s[i] == DOT
    ensures ValidUtf8(s) && Runes(s) == s && PrintString(s) == [34] + s + [34]
  {
    RunesOfAscii(s);
    UnescapedText(s);
  }

  lemma {:induction false} UnescapedText(rs: seq<CodePoint>)
    requires forall i :: 0 <= i < |rs| ==> 0x20 <= rs[i] < 0x80 && rs[i] != 34 && rs[i] != 92
    ensures EscapeAll(rs) == rs
  {
    if rs != [] {
      UnescapedText(rs[1..]);
    }
  }

  lemma PrintThree(a: Entry, b: Entry, c: Entry)
    requires Supported(a.value) && Supported(b.value) && Supported(c.value)
    ensures Supported(Dict([a, b, c]))
    ensures Print(Dict([a, b, c]))
         == [123] + (PrintString(a.key) + ([58] + (Print(a.value)
            + ([44] + PrintString(b.key) + ([58] + (Print(b.value)
            + ([44] + PrintString(c.key) + ([58] + (Print(c.value) + []))))))))) + [125]
  {
    assert [a, b, c][1..] == [b, c] && [b, c][1..] == [c] && [c][1..] == [];
    assert PrintEntries([c], false) == [44] + PrintString(c.key) + ([58] + (Print(c.value) + []));
    assert PrintEntries([b, c], false)
        == [44] + PrintString(b.key) + ([58] + (Print(b.value) + PrintEntries([c], false)));
  }

  lemma PrintOne(a: Entry)
    requires Supported(a.value)
    ensures Supported(Dict([a]))
    ensures Print(Dict([a])) == [123] + (PrintString(a.key) + ([58] + (Print(a.value) + []))) + [125]
  {
    assert [a][1..] == [];
    assert PrintEntries([a], true) == PrintString(a.key) + ([58] + (Print(a.value) + []));
  }

  lemma CloseMember(k: Bytes, v: Bytes, e: Bytes, end: Bytes)
    ensures (k + ([58] + (v + e))) + end == (k + [58]) + (v + (e + end))
  {
    Assoc(k, [58] + (v + e), end);
    Assoc([58], v + e, end);
    Assoc(v, e, end);
    Assoc(k, [58], v + (e + end));
  }

  lemma CloseObject(body: Bytes)
    ensures [58] + (([123] + body + [125]) + []) + [125] == [58, 123] + (body + [125, 125])
  {
    var o := [123] + body + [125];
    assert o + [] == o;
    Assoc([123] + body, [125], [125]);
    Assoc([123], body, [125, 125]);
    Assoc([58], o, [125]);
    Assoc([58], [123], body + [125, 125]);
  }

  lemma Unnest(h: Bytes, m: Bytes, a: Bytes, x: Bytes, c: Bytes, p: Bytes, e: Bytes)
    ensures h + (m + (a + (x + (c + (p + e))))) == h + m + a + x + c + p + e
  {
    Assoc(h, m, a + (x + (c + (p + e))));
    Assoc(h + m, a, x + (c + (p + e)));
    Assoc(h + m + a, x, c + (p + e));
    Assoc(h + m + a + x, c, p + e);
    Assoc(h + m + a + x + c, p, e);
  }

  /** The nested printing of the envelope, regrouped in the order it is written. */
  lemma Regroup(r: Bytes, k1: Bytes, k2: Bytes, k3: Bytes, m: Bytes, x: Bytes, p: Bytes)
    ensures
      var body := k1 + ([58] + (m + (k2 + ([58] + (x + (k3 + ([58] + (p + []))))))));
      [123] + (r + ([58] + (([123] + body + [125]) + []))) + [125]
      == ([123] + r + [58, 123] + (k1 + [58])) + m + (k2 + [58]) + x + (k3 + [58]) + p + [125, 125]
  {
    var end: Bytes := [125, 125];
    var e3 := k3 + ([58] + (p + []));
    var e2 := k2 + ([58] + (x + e3));
    var body := k1 + ([58] + (m + e2));
    Assoc([123], r + ([58] + (([123] + body + [125]) + [])), [125]);
    Assoc(r, [58] + (([123] + body + [125]) + []), [125]);
    CloseObject(body);
    CloseMember(k1, m, e2, end);
    CloseMember(k2, x, e3, end);
    CloseMember(k3, p, [], end);
    assert [] + end == end;
    var tail := m + ((k2 + [58]) + (x + ((k3 + [58]) + (p + end))));
    Assoc([123] + r + [58, 123], k1 + [58], tail);
    Assoc([123] + r, [58, 123], (k1 + [58]) + tail);
    Assoc([123], r, [58, 123] + ((k1 + [58]) + tail));
    Unnest([123] + r + [58, 123] + (k1 + [58]), m, k2 + [58], x, k3 + [58], p, end);
  }

  lemma QuotedKey(x: Bytes)
    requires forall i :: 0 <= i < |x| ==> Plain(x[i])
    ensures [123] + PrintString(x) + [58, 123] == [123, 34] + x + [34, 58, 123]
    ensures PrintString(x) + [58] == [34] + x + [34, 58]
    ensures [44] + PrintString(x) + [58] == [44, 34] + x + [34, 58]
  {
    PlainText(x);
  }

  lemma PlainNames()
    ensures forall i :: 0 <= i < |RAILS| ==> Plain(RAILS[i])
    ensures forall i :: 0 <= i < |MESSAGE| ==> Plain(MESSAGE[i])
    ensures forall i :: 0 <= i < |EXP| ==> Plain(EXP[i])
    ensures forall i :: 0 <= i < |PUR| ==> Plain(PUR[i])
  {
  }

  lemma EnvelopeText(serialized: Bytes, purpose: Bytes, expiresAt: Time)
    ensures Envelope(serialized, purpose, expiresAt)
         == RAILS_KEY + MESSAGE_KEY + PrintString(Encode(serialized, Standard, true))
            + EXP_KEY + (if expiresAt == ZERO then Ascii("null") else PrintString(Format(expiresAt)))
            + PUR_KEY + PrintString(purpose) + [125, 125]
  {
    var message := Entry(MESSAGE, Str(Encode(serialized, Standard, true)));
    var exp := Entry(EXP, if expiresAt == ZERO then Nil else Str(Format(expiresAt)));
    var pur := Entry(PUR, Str(purpose));
    PrintThree(message, exp, pur);
    PrintOne(Entry(RAILS, Dict([message, exp, pur])));
    Regroup(PrintString(RAILS), PrintString(MESSAGE), [44] + PrintString(EXP), [44] + PrintString(PUR),
            Print(message.value), Print(exp.value), Print(pur.value));
    PlainNames();
    QuotedKey(RAILS);
    QuotedKey(MESSAGE);
    QuotedKey(EXP);
    QuotedKey(PUR);
  }

  /** wrapMetadata, write by write: the buffer ends up holding the printed envelope value. */
  method WrapMetadata(serialized: Bytes, purpose: Bytes, expiresAt: Time) returns (r: Bytes)
    ensures r == Envelope(serialized, purpose, expiresAt)
  {
    var b := new Buffer();
    b.WriteString(RAILS_KEY + MESSAGE_KEY);
    assert b.data == RAILS_KEY + MESSAGE_KEY;
    RjString(b, Encode(serialized, Standard, true));
    b.WriteString(EXP_KEY);
    if expiresAt == ZERO {
      b.WriteString(Ascii("null"));
    } else {
      RjString(b, Format(expiresAt));
    }
    b.WriteString(PUR_KEY);
    RjString(b, purpose);
    b.WriteString([125, 125]);
    EnvelopeText(serialized, purpose, expiresAt);
    return b.data;
  }
}
