/** What identifies a variation: its digest, its signed key and the object key of a variant (variant.go). */
module Variant {
  import opened Common
  import opened Values
  import opened Utf8
  import opened Marshal
  import opened MarshalReader
  import opened MarshalTheorems
  import opened JsonPrinter
  import opened JsonTheorems
  import opened Base64
  import opened Clock
  import opened Signer
  import opened SignerTheorems
  import opened Random
  import opened Disk

  const VARIATION: Bytes := [118, 97, 114, 105, 97, 116, 105, 111, 110]  // variation

  /** `sha1` and `sha256` below are arbitrary functions. */
  datatype Variation = Variation(transformations: seq<Entry>, verifier: Option<RailsVerifier>) {

    /** The stored digest: Base64 of the SHA-1 of the Marshal dump. */
    function Digest(sha1: Bytes -> Bytes): Result<Bytes> {
      if !Supported(Dict(transformations)) then Err(NotEncodable)
      else Ok(Encode(sha1(Dump(Dict(transformations))), Standard, true))
    }

    function Key(): Result<Bytes> {
      if verifier.None? then Err(InvalidSignature)
      else verifier.value.Generate(Dict(transformations), VARIATION, ZERO)
    }
  }

  /** variants/<blob key>/<hex SHA-256 of the variation key>. */
  function VariantKey(sha256: Bytes -> Bytes, blobKey: Bytes, v: Variation): Result<Bytes> {
    var key := v.Key();
    if key.Err? then key
    else Ok(VARIANTS + [SLASH] + blobKey + [SLASH] + Hex(sha256(key.value)))
  }

  /** Equal digests of different transformations exhibit a SHA-1 collision: the hashed bytes differ. */
  lemma DigestSeparates(sha1: Bytes -> Bytes, v: Variation, w: Variation)
    requires Supported(Dict(v.transformations)) && Supported(Dict(w.transformations))
    requires Fits(Dict(v.transformations), [], WIDEST) && Fits(Dict(w.transformations), [], WIDEST)
    requires v.Digest(sha1) == w.Digest(sha1) && v.transformations != w.transformations
    ensures
      var x, y := Dump(Dict(v.transformations)), Dump(Dict(w.transformations));
      x != y && sha1(x) == sha1(y)
  {
    hide Encode, Decode, Dump, Fits, Supported;
    var x, y := Dump(Dict(v.transformations)), Dump(Dict(w.transformations));
    DumpInjective(Dict(v.transformations), Dict(w.transformations));
    DecodeEncode(sha1(x), Standard, true);
    DecodeEncode(sha1(y), Standard, true);
  }

  lemma VariationPurpose()
    ensures VARIATION != [] && ValidUtf8(VARIATION)
  {
    hide ValidUtf8, Runes, PrintString, EscapeAll;
    PlainText(VARIATION);
  }

  /** A variation key gives back the printed transformations, under its own purpose only. */
  lemma KeyVerifies(t: seq<Entry>, verifier: RailsVerifier, other: Bytes)
    requires Supported(Dict(t)) && other != [] && other != VARIATION
    ensures
      var key := Variation(t, Some(verifier)).Key();
      && key.Ok?
      && verifier.Verified(key.value, VARIATION) == Ok(Print(Dict(t)))
      && verifier.Verified(key.value, other) == Err(InvalidSignature)
  {
    hide ValidUtf8, Print;
    VariationPurpose();
    TokenRoundTrip(verifier, Dict(t), VARIATION, ZERO);
    PurposeSeparation(verifier, Dict(t), VARIATION, ZERO, other);
  }

  /**
   * Under one verifier two variations have the same key exactly when they differ at most in Symbol against String and
   * in malformed text.
   */
  lemma KeyKernel(t: seq<Entry>, u: seq<Entry>, verifier: RailsVerifier)
    requires Supported(Dict(t)) && Supported(Dict(u))
    ensures Variation(t, Some(verifier)).Key() == Variation(u, Some(verifier)).Key() <==>
      Erase(Dict(t)) == Erase(Dict(u))
  {
    hide ValidUtf8, Print, Erase;
    VariationPurpose();
    TokenRoundTrip(verifier, Dict(t), VARIATION, ZERO);
    TokenRoundTrip(verifier, Dict(u), VARIATION, ZERO);
    JsonKernel(Dict(t), Dict(u));
  }

  /** A variant's key names a proper variant object of its blob. */
  lemma VariantKeyObject(sha256: Bytes -> Bytes, blobKey: Bytes, v: Variation)
    requires BlobObject(blobKey).Good() && v.Key().Ok? && sha256(v.Key().value) != []
    ensures
      var o := VariantObject(blobKey, Hex(sha256(v.Key().value)));
      VariantKey(sha256, blobKey, v) == Ok(o.Text()) && o.Good()
  {
    HexAlphabet(sha256(v.Key().value));
  }

  /** Two variants share an object only if blob and variation key agree, or SHA-256 collides on the variation keys. */
  lemma VariantKeySeparates(sha256: Bytes -> Bytes, a: Bytes, v: Variation, b: Bytes, w: Variation)
    requires BlobObject(a).Good() && BlobObject(b).Good() && v.Key().Ok? && w.Key().Ok?
    requires VariantKey(sha256, a, v) == VariantKey(sha256, b, w)
    ensures a == b && sha256(v.Key().value) == sha256(w.Key().value)
  {
    hide Hex;
    var x, y := Hex(sha256(v.Key().value)), Hex(sha256(w.Key().value));
    KeyBetweenSlashes(a, x, b, y);
    HexInjective(sha256(v.Key().value), sha256(w.Key().value));
  }

  lemma KeyBetweenSlashes(a: Bytes, x: Bytes, b: Bytes, y: Bytes)
    requires IsKey(a) && IsKey(b)
    requires VARIANTS + [SLASH] + a + [SLASH] + x == VARIANTS + [SLASH] + b + [SLASH] + y
    ensures a == b && x == y
  {
    var h := VARIANTS + [SLASH];
    Assoc(h + a, [SLASH], x);
    Assoc(h, a, [SLASH] + x);
    Assoc(h + b, [SLASH], y);
    Assoc(h, b, [SLASH] + y);
    TakeDrop(h, a + ([SLASH] + x));
    TakeDrop(h, b + ([SLASH] + y));
    var s, t := a + ([SLASH] + x), b + ([SLASH] + y);
    assert s == t;
    assert s[|a|] == SLASH && t[|b|] == SLASH;
    assert forall i :: 0 <= i < |a| ==> s[i] == a[i] && IsBase36(s[i]);
    assert forall i :: 0 <= i < |b| ==> t[i] == b[i] && IsBase36(t[i]);
    assert |a| == |b|;
    TakeDrop(a, [SLASH] + x);
    TakeDrop(b, [SLASH] + y);
    TakeDrop([SLASH], x);
    TakeDrop([SLASH], y);
  }

  /** A digest is the padded Base64 of the SHA-1 of exactly the dump. */
  lemma DigestDecodes(sha1: Bytes -> Bytes, v: Variation)
    ensures v.Digest(sha1).Ok? <==> Supported(Dict(v.transformations))
    ensures v.Digest(sha1).Ok? ==>
      var hash := sha1(Dump(Dict(v.transformations)));
      && DecodeString(v.Digest(sha1).value, Standard, true) == Some(hash)
      && v.Digest(sha1).value == Encode(hash, Standard, true)
  {
    hide Encode, DecodeString, Dump;
    if Supported(Dict(v.transformations)) {
      DecodeStringEncode(sha1(Dump(Dict(v.transformations))), Standard, true);
    }
  }

  lemma VariationNames()
    ensures VARIATION == Ascii("variation") && VARIANTS == Ascii("variants")
  {
    hide Dump, Print, Encode;
  }
}
