/** Exactly which tokens each signer accepts back, and with what result. */
module SignerTheorems {
  import opened Common
  import opened Values
  import opened Utf8
  import opened JsonPrinter
  import opened JsonReader
  import opened JsonTheorems
  import opened Base64
  import opened Clock
  import opened Signer
  import opened BareTokens

  // --------------------------------------------------------- purpose.b64.mac

  /** Each '.' in the first part adds a part. */
  lemma {:induction false} SplitCount(a: Bytes, s: Bytes)
    ensures |Split(a + s, DOT)| >= |Split(s, DOT)|
    ensures DOT in a ==> |Split(a + s, DOT)| > |Split(s, DOT)|
  {
    if a == [] {
      assert a + s == s;
    } else {
      assert (a + s)[1..] == a[1..] + s;
      SplitCount(a[1..], s);
    }
  }

  lemma UrlTextHasNoDot(d: Bytes)
    ensures DOT !in Encode(d, UrlSafe, false)
  {
    EncodePlain(d, UrlSafe, false);
  }

  lemma SplitToken(s: HMACSigner, d: Bytes, p: Bytes)
    ensures
      var parts := Split(s.Sign(d, p), DOT);
      if DOT in p then |parts| > 3
      else parts == [p, Encode(d, UrlSafe, false), s.Mac(HMACSigner.Payload(d, p))]
  {
    hide Encode, Split;
    var b, mac := Encode(d, UrlSafe, false), s.Mac(HMACSigner.Payload(d, p));
    UrlTextHasNoDot(d);
    UrlTextHasNoDot(s.hmac(HMACSigner.Payload(d, p)));
    SplitWhole(mac, DOT);
    SplitFirst(b, mac, DOT);
    var tail := b + [DOT] + mac;
    assert s.Sign(d, p) == p + [DOT] + tail;
    if DOT in p {
      SplitFirst([], tail, DOT);
      assert [] + [DOT] + tail == [DOT] + tail;
      SplitCount(p, [DOT] + tail);
      assert p + [DOT] + tail == p + ([DOT] + tail);
    } else {
      SplitFirst(p, tail, DOT);
      assert [p] + ([b] + [mac]) == [p, b, mac];
    }
  }

  /** A token verifies exactly for its own purpose, and only if that purpose has no '.' in it. */
  lemma HmacAcceptance(s: HMACSigner, d: Bytes, p: Bytes, q: Bytes)
    ensures s.Verify(s.Sign(d, p), q) == if p == q && DOT !in p then Ok(d) else Err(InvalidSignature)
  {
    SplitToken(s, d, p);
    DecodeStringEncode(d, UrlSafe, false);
  }

  lemma LastDot(a: Bytes, b: Bytes, c: Bytes, d: Bytes)
    requires a + [DOT] + b == c + [DOT] + d && DOT !in b && DOT !in d
    ensures a == c && b == d
  {
    var s := a + [DOT] + b;
    assert s[|a|] == DOT && s[|c|] == DOT;
    assert forall k :: |a| < k < |s| ==> s[k] == b[k - |a| - 1];
    assert forall k :: |c| < k < |s| ==> s[k] == d[k - |c| - 1];
    assert |a| == |c|;
    assert s[|a| + 1..] == b && s[|c| + 1..] == d;
    assert a == s[..|a|] && c == s[..|c|];
  }

  /** What is authenticated determines both the data and the purpose, dots or not. */
  lemma PayloadInjective(d1: Bytes, p1: Bytes, d2: Bytes, p2: Bytes)
    ensures HMACSigner.Payload(d1, p1) == HMACSigner.Payload(d2, p2) <==> d1 == d2 && p1 == p2
  {
    if HMACSigner.Payload(d1, p1) == HMACSigner.Payload(d2, p2) {
      UrlTextHasNoDot(d1);
      UrlTextHasNoDot(d2);
      LastDot(p1, Encode(d1, UrlSafe, false), p2, Encode(d2, UrlSafe, false));
      DecodeStringEncode(d1, UrlSafe, false);
      DecodeStringEncode(d2, UrlSafe, false);
    }
  }

  // ------------------------------------------------------------ the envelope

  lemma PlainScrub(s: Bytes)
    requires forall i :: 0 <= i < |s| ==> Plain(s[i]) || s[i] == DOT
    ensures Scrub(s) == s
  {
    PlainText(s);
    ScrubChangesInvalid(s);
  }

  lemma PlainFormat(t: Time)
    ensures forall i :: 0 <= i < |Format(t)| ==> Plain(Format(t)[i]) || Format(t)[i] == DOT
  {
    PaddedLength(if t.year < 0 then -t.year else t.year, 4);
    PaddedLength(t.month, 2);
    PaddedLength(t.day, 2);
    PaddedLength(t.hour, 2);
    PaddedLength(t.minute, 2);
    PaddedLength(t.second, 2);
    PaddedLength(t.nano / 1_000_000, 3);
    var date, clock := FormatDate(t), FormatClock(t);
    assert forall i :: 0 <= i < |date| ==> Plain(date[i]);
    assert forall i :: 0 <= i < |clock| ==> Plain(clock[i]) || clock[i] == DOT;
  }

  lemma {:induction false} FoldPlain(name: seq<CodePoint>)
    requires forall i :: 0 <= i < |name| ==> name[i] == 95 || 97 <= name[i] <= 122
    ensures FoldName(name) == name
  {
    if name != [] {
      FoldPlain(name[1..]);
    }
  }

  lemma NamesSelect()
    ensures FoldName(Runes(RAILS)) == RAILS && FoldName(Runes(MESSAGE)) == MESSAGE
    ensures FoldName(Runes(EXP)) == EXP && FoldName(Runes(PUR)) == PUR
    ensures MESSAGE != EXP && MESSAGE != PUR && EXP != PUR
  {
    hide Runes, FoldName, ValidUtf8, PrintString, EscapeAll;
    PlainNames();
    PlainText(RAILS);
    PlainText(MESSAGE);
    PlainText(EXP);
    PlainText(PUR);
    FoldPlain(RAILS);
    FoldPlain(MESSAGE);
    FoldPlain(EXP);
    FoldPlain(PUR);
    assert EXP[0] != PUR[0];
  }

  lemma ReadCons(f: Fields, m: Member, ms: seq<Member>)
    ensures ReadFields(f, [m] + ms) == if ReadField(f, m).None? then None else ReadFields(ReadField(f, m).value, ms)
  {
    assert ([m] + ms)[1..] == ms;
  }

  lemma ReadNamed(f: Fields, text: Bytes, e: Json)
    ensures ReadField(f, Member(Runes(MESSAGE), JString(Runes(text)))) == Some(f.(message := Scrub(text)))
    ensures ReadField(f, Member(Runes(PUR), JString(Runes(text)))) == Some(f.(pur := Scrub(text)))
    ensures e == JString(Runes(text)) ==> ReadField(f, Member(Runes(EXP), e)) == Some(f.(exp := Some(Scrub(text))))
    ensures e == JNull ==> ReadField(f, Member(Runes(EXP), e)) == Some(f.(exp := None))
  {
    hide Runes, EncodeAll, FoldName;
    NamesSelect();
  }

  lemma ReadThree(text: Bytes, exp: Option<Bytes>, p: Bytes, e: Json)
    requires Scrub(text) == text && (exp.Some? ==> Scrub(exp.value) == exp.value)
    requires e == if exp.None? then JNull else JString(Runes(exp.value))
    ensures
      ReadFields(NO_FIELDS,
        [Member(Runes(MESSAGE), JString(Runes(text))), Member(Runes(EXP), e), Member(Runes(PUR), JString(Runes(p)))])
      == Some(Fields(text, exp, Scrub(p)))
  {
    hide Runes, EncodeAll;
    var a := Member(Runes(MESSAGE), JString(Runes(text)));
    var b, c := Member(Runes(EXP), e), Member(Runes(PUR), JString(Runes(p)));
    var f1, f2 := Fields(text, None, []), Fields(text, exp, []);
    ReadNamed(NO_FIELDS, text, JNull);
    ReadNamed(f1, if exp.Some? then exp.value else [], e);
    ReadNamed(f2, p, JNull);
    ReadCons(NO_FIELDS, a, [b, c]);
    ReadCons(f1, b, [c]);
    ReadCons(f2, c, []);
    assert [a] + [b, c] == [a, b, c] && [b] + [c] == [b, c] && [c] + [] == [c];
  }

  lemma DenoteThree(a: Entry, b: Entry, c: Entry)
    requires Supported(a.value) && Supported(b.value) && Supported(c.value)
    ensures EntriesSupported([a, b, c])
    ensures DenoteEntries([a, b, c])
         == [Member(Runes(a.key), Denote(a.value)),
             Member(Runes(b.key), Denote(b.value)),
             Member(Runes(c.key), Denote(c.value))]
  {
    assert [a, b, c][1..] == [b, c] && [b, c][1..] == [c] && [c][1..] == [];
    assert DenoteEntries([c]) == [Member(Runes(c.key), Denote(c.value))];
    assert DenoteEntries([b, c]) == [Member(Runes(b.key), Denote(b.value)), Member(Runes(c.key), Denote(c.value))];
  }

  function WrittenExp(e: Time): Option<Bytes> { if e == ZERO then None else Some(Format(e)) }

  /** The envelope opens to the Base64 message, the written expiry, and the purpose with invalid bytes replaced. */
  lemma OpenWritten(serialized: Bytes, p: Bytes, e: Time)
    ensures OpenEnvelope(Envelope(serialized, p, e))
         == Some(Fields(Encode(serialized, Standard, true), WrittenExp(e), Scrub(p)))
  {
    hide Runes, EncodeAll, Depth;
    var text := Encode(serialized, Standard, true);
    var message := Entry(MESSAGE, Str(text));
    var exp := Entry(EXP, if e == ZERO then Nil else Str(Format(e)));
    var pur := Entry(PUR, Str(p));
    EncodePlain(serialized, Standard, true);
    PlainScrub(text);
    PlainFormat(e);
    PlainScrub(Format(e));
    DenoteThree(message, exp, pur);
    ReadThree(text, WrittenExp(e), p, Denote(exp.value));
    EnvelopeSupported(serialized, p, e);
    ParsePrint(EnvelopeValue(serialized, p, e));
    EnvelopeNesting(serialized, p, e);
    DenoteOne(Entry(RAILS, Dict([message, exp, pur])));
    NamesSelect();
    ReadOne(DenoteEntries([message, exp, pur]));
  }

  lemma DenoteOne(a: Entry)
    requires Supported(a.value)
    ensures EntriesSupported([a]) && DenoteEntries([a]) == [Member(Runes(a.key), Denote(a.value))]
  {
    assert [a][1..] == [];
  }

  lemma ReadOne(ms: seq<Member>)
    ensures ReadRails(NO_FIELDS, [Member(Runes(RAILS), JObject(ms))]) == ReadFields(NO_FIELDS, ms)
  {
    hide Runes, EncodeAll, FoldName;
    NamesSelect();
    assert [Member(Runes(RAILS), JObject(ms))][1..] == [];
  }

  // ---------------------------------------------------------- payload--hexmac

  lemma TokenSeparator(encoded: Bytes, digest: Bytes)
    requires forall i :: 0 <= i < |digest| ==> IsHex(digest[i])
    ensures
      var t := encoded + [DASH, DASH] + digest;
      LastDashes(t) == |encoded| && t[..|encoded|] == encoded && t[|encoded| + 2..] == digest
  {
    var t := encoded + [DASH, DASH] + digest;
    assert t[|encoded|] == DASH && t[|encoded| + 1] == DASH;
    assert forall k :: |encoded| + 2 <= k < |t| ==> t[k] == digest[k - |encoded| - 2];
  }

  /** Whatever was put into a token comes out, with either alphabet and wherever the payload has dashes. */
  lemma VerifiedToken(v: RailsVerifier, payload: Bytes, q: Bytes)
    ensures v.Verified(v.Token(payload), q) == v.ReadPayload(payload, q)
  {
    var encoded := v.EncodePayload(payload);
    HexAlphabet(v.hmac(encoded));
    TokenSeparator(encoded, v.Digest(encoded));
    DecodeStringEncode(payload, UrlSafe, false);
    DecodeStringEncode(payload, Standard, true);
  }

  /** The outcome of opening an envelope written for purpose `p` and expiry `e`, under purpose `q`. */
  function Outcome(v: RailsVerifier, serialized: Bytes, p: Bytes, e: Time, q: Bytes): Result<Bytes> {
    if q == [] then Ok(Envelope(serialized, p, e))
    else if Scrub(p) != q then Err(InvalidSignature)
    else if e == ZERO then Ok(serialized)
    else if !FourDigitYear(e) then Err(InvalidSignature)
    else if !Before(v.now, Truncated(e)) then Err(Expired)
    else Ok(serialized)
  }

  lemma ReadWritten(v: RailsVerifier, serialized: Bytes, p: Bytes, e: Time, q: Bytes)
    ensures v.ReadPayload(Envelope(serialized, p, e), q) == Outcome(v, serialized, p, e, q)
  {
    hide Encode, DecodeString, OpenEnvelope, Envelope, ParseTime, Format;
    OpenWritten(serialized, p, e);
    ParseFormat(e);
    DecodeStringEncode(serialized, Standard, true);
  }

  /**
   * Every outcome of verifying a generated token, for all values, purposes, expiries and clocks. With purpose or
   * expiry there is an envelope, whose outcome depends on these alone; a bare token is answered by the value it was
   * made from.
   */
  lemma GeneratedTokens(v: RailsVerifier, value: Value, p: Bytes, e: Time, q: Bytes)
    ensures
      var t := v.Generate(value, p, e);
      if !Supported(value) then t == Err(NotEncodable)
      else
        && t.Ok?
        && v.Verified(t.value, q)
           == if p != [] || e != ZERO then Outcome(v, Print(value), p, e, q)
              else if q == [] then Ok(Print(value))
              else BareOutcome(v, value, q)
  {
    if Supported(value) {
      var serialized := Print(value);
      if p == [] && e == ZERO {
        VerifiedToken(v, serialized, q);
        if q != [] {
          BarePayload(v, value, q);
        }
      } else {
        VerifiedToken(v, Envelope(serialized, p, e), q);
        ReadWritten(v, serialized, p, e, q);
      }
    }
  }

  /** The round trip: a non-empty UTF-8 purpose gives the serialized value back until the expiry, to the millisecond. */
  lemma TokenRoundTrip(v: RailsVerifier, value: Value, p: Bytes, e: Time)
    requires Supported(value) && p != [] && ValidUtf8(p) && FourDigitYear(e)
    ensures v.Generate(value, p, e).Ok?
    ensures v.Verified(v.Generate(value, p, e).value, p)
         == if e == ZERO || Before(v.now, Truncated(e)) then Ok(Print(value)) else Err(Expired)
  {
    GeneratedTokens(v, value, p, e, p);
    ScrubChangesInvalid(p);
  }

  /**
   * A token with an envelope, that is with a purpose or an expiry, is refused for every other non-empty purpose,
   * whatever the value holds. Only a purpose that is not UTF-8 has one other that its tokens pass for: itself,
   * scrubbed.
   */
  lemma PurposeSeparation(v: RailsVerifier, value: Value, p: Bytes, e: Time, q: Bytes)
    requires Supported(value) && (p != [] || e != ZERO) && q != []
    ensures v.Generate(value, p, e).Ok?
    ensures Scrub(p) != q ==> v.Verified(v.Generate(value, p, e).value, q) == Err(InvalidSignature)
    ensures ValidUtf8(p) && p != q ==> v.Verified(v.Generate(value, p, e).value, q) == Err(InvalidSignature)
  {
    GeneratedTokens(v, value, p, e, q);
    ScrubChangesInvalid(p);
  }

  /**
   * Without purpose and expiry there is nothing to separate: a bare token over a Hash that spells out an envelope is
   * the very token generated for that purpose and expiry, and passes for it.
   */
  lemma BareTokenPassesFor(v: RailsVerifier, value: Value, q: Bytes, e: Time)
    requires Supported(value) && (q != [] || e != ZERO)
    ensures v.Generate(EnvelopeValue(Print(value), q, e), [], ZERO) == v.Generate(value, q, e)
    ensures v.Generate(value, q, e).Ok?
    ensures q != [] && ValidUtf8(q) && e == ZERO ==>
      v.Verified(v.Generate(EnvelopeValue(Print(value), q, e), [], ZERO).value, q) == Ok(Print(value))
  {
    EnvelopeSupported(Print(value), q, e);
    GeneratedTokens(v, value, q, e, q);
    ScrubChangesInvalid(q);
  }

  /**
   * Exactly which bare tokens pass for a purpose: those of a Hash that has an unexpired envelope for it, whose
   * message they yield.
   */
  lemma BareAccepted(v: RailsVerifier, value: Value, q: Bytes, message: Bytes)
    requires Supported(value) && q != []
    ensures v.Generate(value, [], ZERO).Ok?
    ensures v.Verified(v.Generate(value, [], ZERO).value, q) == Ok(message) <==>
      && IsEnvelope(value)
      && var f := Claimed(value.entries);
         && f.pur == q
         && (f.exp.Some? ==> ParseTime(f.exp.value).Some? && Before(v.now, ParseTime(f.exp.value).value))
         && DecodeString(f.message, Standard, true) == Some(message)
  {
    hide DecodeString, ParseTime, Claimed;
    GeneratedTokens(v, value, [], ZERO, q);
  }

  /**
   * Bare tokens of any value that has no entry in the envelope's place, under any case, are refused for every
   * purpose.
   */
  lemma BareSeparation(v: RailsVerifier, value: Value, q: Bytes)
    requires Supported(value) && q != []
    requires value.Dict? ==> forall i :: 0 <= i < |value.entries| ==> !Names(value.entries[i], RAILS)
    ensures v.Generate(value, [], ZERO).Ok?
    ensures v.Verified(v.Generate(value, [], ZERO).value, q) == Err(InvalidSignature)
  {
    GeneratedTokens(v, value, [], ZERO, q);
    NoEnvelope(v, value, q);
  }

  /**
   * A token past its expiry, or whose expiry has a year that cannot be read back, is accepted under exactly one
   * purpose: the empty one, which returns the whole envelope and checks neither expiry nor purpose.
   */
  lemma ExpiryUnchecked(v: RailsVerifier, value: Value, p: Bytes, e: Time, q: Bytes)
    requires Supported(value) && e != ZERO && (!FourDigitYear(e) || !Before(v.now, Truncated(e)))
    ensures v.Generate(value, p, e).Ok?
    ensures v.Verified(v.Generate(value, p, e).value, q).Ok? <==> q == []
    ensures q == [] ==> v.Verified(v.Generate(value, p, e).value, q) == Ok(Envelope(Print(value), p, e))
  {
    GeneratedTokens(v, value, p, e, q);
  }

  /** Without purpose and expiry the payload is the serialized value itself. */
  lemma BareToken(v: RailsVerifier, value: Value)
    requires Supported(value)
    ensures v.Generate(value, [], ZERO).Ok?
    ensures v.Verified(v.Generate(value, [], ZERO).value, []) == Ok(Print(value))
  {
    GeneratedTokens(v, value, [], ZERO, []);
  }

  /** A signed string comes back under its purpose, unchanged exactly if it is UTF-8. */
  lemma SignVerify(v: RailsVerifier, d: Bytes, p: Bytes)
    requires ValidUtf8(p)
    ensures v.Sign(d, p).Ok? && v.Verify(v.Sign(d, p).value, p) == Ok(Scrub(d))
    ensures v.Verify(v.Sign(d, p).value, p) == Ok(d) <==> ValidUtf8(d)
  {
    GeneratedTokens(v, Str(d), p, ZERO, p);
    ScrubChangesInvalid(p);
    ScrubChangesInvalid(d);
    ParsePrint(Str(d));
  }

  /** A bare token is refused as expired exactly if it has an envelope for the purpose whose expiry has passed. */
  lemma BareExpired(v: RailsVerifier, value: Value, q: Bytes)
    requires Supported(value) && q != []
    ensures v.Generate(value, [], ZERO).Ok?
    ensures v.Verified(v.Generate(value, [], ZERO).value, q) == Err(Expired) <==>
      && IsEnvelope(value)
      && var f := Claimed(value.entries);
         && f.pur == q && f.exp.Some? && ParseTime(f.exp.value).Some?
         && !Before(v.now, ParseTime(f.exp.value).value)
    ensures
      var r := v.Verified(v.Generate(value, [], ZERO).value, q);
      r.Ok? || r == Err(Expired) || r == Err(InvalidSignature)
  {
    hide DecodeString, ParseTime, Claimed;
    GeneratedTokens(v, value, [], ZERO, q);
  }

  /** Reading a token of any value as a string: texts come back scrubbed, nil as the empty string, nothing else. */
  lemma VerifyValue(v: RailsVerifier, value: Value, p: Bytes)
    requires Supported(value) && ValidUtf8(p)
    ensures v.Generate(value, p, ZERO).Ok?
    ensures v.Verify(v.Generate(value, p, ZERO).value, p)
         == if IsText(value) then Ok(TextOf(value)) else if value.Nil? then Ok([]) else Err(InvalidSignature)
  {
    hide Parse, Print, Runes, EncodeAll;
    GeneratedTokens(v, value, p, ZERO, p);
    ScrubChangesInvalid(p);
    ParsePrint(value);
  }
}
