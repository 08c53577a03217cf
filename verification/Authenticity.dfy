/** What an accepted token is, whoever made it: a text under its own MAC (signer.go). */
module Authenticity {
  import opened Common
  import opened Values
  import opened JsonPrinter
  import opened Base64
  import opened Clock
  import opened Signer
  import opened SignerTheorems

  // ---------------------------------------------------------- payload--hexmac

  /** The token is the encoded text and the hexadecimal MAC of that very text. */
  predicate Signed(v: RailsVerifier, token: Bytes, encoded: Bytes) {
    token == encoded + [45, 45] + Hex(v.hmac(encoded))
  }

  /** What the encoded text stands for, in the verifier's alphabet. */
  function Decoded(v: RailsVerifier, encoded: Bytes): Option<Bytes> {
    if v.urlSafe then DecodeString(encoded, UrlSafe, false) else DecodeString(encoded, Standard, true)
  }

  lemma VerifiedSigned(v: RailsVerifier, encoded: Bytes, token: Bytes, q: Bytes)
    requires Signed(v, token, encoded)
    ensures
      v.Verified(token, q)
      == if Decoded(v, encoded).None? then Err(InvalidSignature) else v.ReadPayload(Decoded(v, encoded).value, q)
  {
    hide Hex;
    HexAlphabet(v.hmac(encoded));
    TokenSeparator(encoded, Hex(v.hmac(encoded)));
  }

  /** Every token that is not a text under its own MAC is refused, under every purpose, the empty one too. */
  lemma Forged(v: RailsVerifier, token: Bytes, q: Bytes)
    requires forall encoded :: !Signed(v, token, encoded)
    ensures v.Verified(token, q) == Err(InvalidSignature)
  {
    hide Hex;
    var i := LastDashes(token);
    if i >= 0 {
      assert token == token[..i] + [45, 45] + token[i + 2..];
      assert !Signed(v, token, token[..i]);
    }
  }

  /** For all tokens and purposes: accepted are exactly the texts under their own MAC whose payload is accepted. */
  lemma VerifiedExactly(v: RailsVerifier, token: Bytes, q: Bytes, message: Bytes)
    ensures v.Verified(token, q) == Ok(message) <==>
      exists encoded :: Signed(v, token, encoded) && Decoded(v, encoded).Some?
        && v.ReadPayload(Decoded(v, encoded).value, q) == Ok(message)
  {
    hide Signed, Decoded;
    if encoded :| Signed(v, token, encoded) {
      VerifiedSigned(v, encoded, token, q);
      forall other | Signed(v, token, other) ensures v.Verified(token, q)
        == if Decoded(v, other).None? then Err(InvalidSignature) else v.ReadPayload(Decoded(v, other).value, q)
      {
        VerifiedSigned(v, other, token, q);
      }
    } else {
      Forged(v, token, q);
    }
  }

  /** One signature accepted on two texts is a collision of the MAC. */
  lemma SignatureBinds(v: RailsVerifier, a: Bytes, b: Bytes, sig: Bytes, p: Bytes, q: Bytes)
    requires forall i :: 0 <= i < |sig| ==> IsHex(sig[i])
    requires v.Verified(a + [45, 45] + sig, p).Ok? && v.Verified(b + [45, 45] + sig, q).Ok?
    ensures v.hmac(a) == v.hmac(b)
  {
    hide Hex;
    TokenSeparator(a, sig);
    TokenSeparator(b, sig);
    HexInjective(v.hmac(a), v.hmac(b));
  }

  /** The text of a generated token: URL-safe without padding or standard with it, then the MAC. */
  lemma TokenText(v: RailsVerifier, value: Value, p: Bytes, e: Time)
    requires Supported(value)
    ensures
      var payload := if p == [] && e == ZERO then Print(value) else Envelope(Print(value), p, e);
      var encoded := if v.urlSafe then Encode(payload, UrlSafe, false) else Encode(payload, Standard, true);
      v.Generate(value, p, e).Ok? && Signed(v, v.Generate(value, p, e).value, encoded)
  {
    hide Hex, Encode, Envelope, Print;
  }

  // ---------------------------------------------------- purpose.base64.mac

  /** The token is purpose, encoded data and the Base64 MAC of these two, with dots in between and nowhere else. */
  predicate Sealed(s: HMACSigner, token: Bytes, purpose: Bytes, encoded: Bytes) {
    && 46 !in purpose && 46 !in encoded
    && token == purpose + [46] + encoded + [46] + Encode(s.hmac(purpose + [46] + encoded), UrlSafe, false)
  }

  lemma VerifySealed(s: HMACSigner, token: Bytes, purpose: Bytes, encoded: Bytes, q: Bytes)
    requires Sealed(s, token, purpose, encoded)
    ensures
      var data := DecodeString(encoded, UrlSafe, false);
      s.Verify(token, q) == if data.None? || purpose != q then Err(InvalidSignature) else Ok(data.value)
  {
    hide Encode, Split, DecodeString;
    var mac := Encode(s.hmac(purpose + [46] + encoded), UrlSafe, false);
    UrlTextHasNoDot(s.hmac(purpose + [46] + encoded));
    SplitWhole(mac, DOT);
    SplitFirst(encoded, mac, DOT);
    SplitFirst(purpose, encoded + [46] + mac, DOT);
    assert token == purpose + [DOT] + (encoded + [46] + mac);
    assert [purpose] + ([encoded] + [mac]) == [purpose, encoded, mac];
  }

  lemma JoinThree(a: Bytes, b: Bytes, c: Bytes)
    ensures Join([a, b, c], DOT) == a + ([DOT] + (b + ([DOT] + c)))
  {
    assert [a, b, c][1..] == [b, c] && [b, c][1..] == [c];
    assert Join([b, c], DOT) == b + ([DOT] + Join([c], DOT));
  }

  lemma Unsealed(s: HMACSigner, token: Bytes, q: Bytes)
    requires forall purpose, encoded :: !Sealed(s, token, purpose, encoded)
    ensures s.Verify(token, q) == Err(InvalidSignature)
  {
    hide Encode, Split, DecodeString;
    var parts := Split(token, DOT);
    SplitParts(token, DOT);
    if |parts| == 3 {
      JoinThree(parts[0], parts[1], parts[2]);
      assert parts == [parts[0], parts[1], parts[2]];
      assert token == parts[0] + [46] + parts[1] + [46] + parts[2];
      assert !Sealed(s, token, parts[0], parts[1]);
    }
  }

  /** For all tokens and purposes: accepted are exactly the tokens sealed for that purpose, with their data. */
  lemma VerifyExactly(s: HMACSigner, token: Bytes, q: Bytes, data: Bytes)
    ensures s.Verify(token, q) == Ok(data) <==>
      exists encoded :: Sealed(s, token, q, encoded) && DecodeString(encoded, UrlSafe, false) == Some(data)
  {
    hide Sealed, DecodeString;
    if purpose, encoded :| Sealed(s, token, purpose, encoded) {
      VerifySealed(s, token, purpose, encoded, q);
      forall other | Sealed(s, token, q, other)
        ensures s.Verify(token, q) == var d := DecodeString(other, UrlSafe, false);
          if d.None? then Err(InvalidSignature) else Ok(d.value)
      {
        VerifySealed(s, token, q, other, q);
      }
    } else {
      Unsealed(s, token, q);
    }
  }

  /** One MAC accepted on two texts is a collision. */
  lemma MacBinds(s: HMACSigner, p: Bytes, a: Bytes, q: Bytes, b: Bytes, mac: Bytes, token: Bytes, other: Bytes)
    requires token == p + [46] + a + [46] + mac && other == q + [46] + b + [46] + mac
    requires 46 !in mac && s.Verify(token, p).Ok? && s.Verify(other, q).Ok?
    ensures s.hmac(p + [46] + a) == s.hmac(q + [46] + b)
  {
    hide Encode, DecodeString;
    SealedMac(s, p, a, mac, token);
    SealedMac(s, q, b, mac, other);
    DecodeEncode(s.hmac(p + [46] + a), UrlSafe, false);
    DecodeEncode(s.hmac(q + [46] + b), UrlSafe, false);
  }

  lemma SealedMac(s: HMACSigner, p: Bytes, a: Bytes, mac: Bytes, token: Bytes)
    requires token == p + [46] + a + [46] + mac && 46 !in mac && s.Verify(token, p).Ok?
    ensures mac == Encode(s.hmac(p + [46] + a), UrlSafe, false)
  {
    hide Encode, DecodeString;
    VerifyExactly(s, token, p, s.Verify(token, p).value);
    var encoded :| Sealed(s, token, p, encoded);
    var own := Encode(s.hmac(p + [46] + encoded), UrlSafe, false);
    UrlTextHasNoDot(s.hmac(p + [46] + encoded));
    LastDot(p + [46] + a, mac, p + [46] + encoded, own);
  }
}
