/** A blob's signed id, and what it resolves to in every later state (blob.go). */
module SignedIds {
  import opened Common
  import opened Values
  import opened Utf8
  import opened Decimal
  import opened Clock
  import opened JsonPrinter
  import opened Signer
  import opened SignerTheorems
  import opened Authenticity
  import opened Disk
  import opened Lifecycle

  const BLOB_ID: Bytes := [98, 108, 111, 98, 95, 105, 100]  // blob_id

  /** The configured signer: a plain Signer, or one that is also a Verifier. */
  datatype IdSigner = Plain(signer: HMACSigner) | Rails(verifier: RailsVerifier) {

    function SignedID(id: Int64): Result<Bytes> {
      match this
      case Plain(s) => Ok(s.Sign(Itoa(id), BLOB_ID))
      case Rails(v) => v.Generate(Int(id), BLOB_ID, ZERO)
    }

    /** The id a token names, before the store is asked. */
    function SignedText(token: Bytes): Result<Bytes> {
      match this
      case Plain(s) => s.Verify(token, BLOB_ID)
      case Rails(v) => v.Verified(token, BLOB_ID)
    }

    function Resolve(token: Bytes): Result<Int64> {
      var text := SignedText(token);
      if text.Err? then Err(text.error) else ParseInt(text.value)
    }

    /** The same signer at another moment: secret and alphabet stay, the clock moves. */
    function At(now: Time): IdSigner {
      match this
      case Plain(_) => this
      case Rails(v) => Rails(RailsVerifier(v.hmac, v.urlSafe, now))
    }
  }

  /** FindSignedBlob. */
  function FindSigned(s: IdSigner, w: World, token: Bytes): Result<(int, BlobRow)> {
    var id := s.Resolve(token);
    if id.Err? then Err(id.error)
    else
      var row := w.FindBlob(id.value);
      if row.Err? then Err(row.error) else Ok((id.value as int, row.value))
  }

  lemma BlobIdPurpose()
    ensures BLOB_ID != [] && DOT !in BLOB_ID && ValidUtf8(BLOB_ID)
  {
    hide ValidUtf8, Runes, PrintString, EscapeAll;
    PlainText(BLOB_ID);
  }

  /** With either signer a signed id resolves to the id it was made from, whenever it is verified. */
  lemma ResolveSigned(s: IdSigner, id: Int64, now: Time)
    ensures s.SignedID(id).Ok? && s.At(now).Resolve(s.SignedID(id).value) == Ok(id)
  {
    BlobIdPurpose();
    ParseIntOfItoa(id);
    match s
    case Plain(h) =>
      HmacAcceptance(h, Itoa(id), BLOB_ID, BLOB_ID);
    case Rails(v) =>
      var later := RailsVerifier(v.hmac, v.urlSafe, now);
      assert v.Generate(Int(id), BLOB_ID, ZERO) == later.Generate(Int(id), BLOB_ID, ZERO);
      TokenRoundTrip(later, Int(id), BLOB_ID, ZERO);
  }

  // ------------------------------------------------------- later in a run

  /** Ids are never reused: births only grow, a row's key and service stay as born, and a purged id stays purged. */
  lemma {:induction false} RowsStay(md5: Bytes -> Bytes, roots: map<Bytes, Path>, steps: seq<BlobStep>, n: nat, id: int)
    requires CanRun(md5, Start(roots), steps) && n <= |steps|
    ensures CanRun(md5, Start(roots), steps[..n])
    ensures
      var earlier := RunSteps(md5, Start(roots), steps[..n]);
      var later := RunSteps(md5, Start(roots), steps);
      && earlier.born <= later.born
      && (id <= earlier.world.next && id !in earlier.world.blobs ==> id !in later.world.blobs)
  {
    hide Lifecycle.Outcome, Target, Content, Lifecycle.Rows, Lifecycle.Apply, OnlyChanges;
    if n == |steps| {
      assert steps[..n] == steps;
    } else {
      var before := steps[..|steps| - 1];
      assert before[..n] == steps[..n];
      RowsStay(md5, roots, before, n, id);
      RunKeeps(md5, roots, before);
      RunKeeps(md5, roots, steps[..n]);
      StepGrows(md5, RunSteps(md5, Start(roots), before), steps[|steps| - 1]);
    }
  }

  lemma StepGrows(md5: Bytes -> Bytes, s: State, step: BlobStep)
    requires BornWell(s) && AllTidy(s.world.disks) && Admissible(s, step)
    ensures
      var s' := Apply(md5, s, step).0;
      && s.born <= s'.born && s.world.next <= s'.world.next
      && forall id :: id in s'.world.blobs ==> id in s.world.blobs || id == s.world.next + 1
  {
    hide Lifecycle.Apply, OnlyChanges, Checksum, Tidy;
    StepDisks(md5, s, step);
  }

  /** A token made for a stored blob finds, in every later state, the row of that same blob or none at all. */
  lemma SignedIdStaysTrue(md5: Bytes -> Bytes, roots: map<Bytes, Path>, steps: seq<BlobStep>, n: nat, s: IdSigner,
                          id: Int64, now: Time)
    requires CanRun(md5, Start(roots), steps) && n <= |steps|
    ensures CanRun(md5, Start(roots), steps[..n])
    ensures
      var earlier := RunSteps(md5, Start(roots), steps[..n]).world;
      var later := RunSteps(md5, Start(roots), steps).world;
      var token := s.SignedID(id);
      id in earlier.blobs ==>
      && token.Ok?
      && FindSigned(s.At(now), earlier, token.value) == Ok((id as int, earlier.blobs[id]))
      && FindSigned(s.At(now), later, token.value)
           == (if id in later.blobs then Ok((id as int, later.blobs[id])) else Err(BlobNotFound))
      && (id in later.blobs ==>
           later.blobs[id].key == earlier.blobs[id].key && later.blobs[id].service == earlier.blobs[id].service)
  {
    hide CanRun, RunSteps, ObjectsOf, Described, BornWell;
    ResolveSigned(s, id, now);
    RowsStay(md5, roots, steps, n, id);
    RunKeeps(md5, roots, steps);
    RunKeeps(md5, roots, steps[..n]);
  }

  /** Once its blob is purged, a token never finds anything again. */
  lemma PurgedStaysPurged(md5: Bytes -> Bytes, roots: map<Bytes, Path>, steps: seq<BlobStep>, n: nat, s: IdSigner,
                          id: Int64, now: Time)
    requires CanRun(md5, Start(roots), steps) && n <= |steps|
    ensures CanRun(md5, Start(roots), steps[..n])
    ensures
      var earlier := RunSteps(md5, Start(roots), steps[..n]).world;
      var later := RunSteps(md5, Start(roots), steps).world;
      id <= earlier.next && id !in earlier.blobs ==>
        s.SignedID(id).Ok? && FindSigned(s.At(now), later, s.SignedID(id).value) == Err(BlobNotFound)
  {
    hide CanRun, RunSteps;
    ResolveSigned(s, id, now);
    RowsStay(md5, roots, steps, n, id);
  }

  // ------------------------------------------------------------ which tokens

  /** A signed id carries the decimal id, for the purpose "blob_id" and no other. */
  lemma SignedIdPurpose(s: IdSigner, id: Int64, q: Bytes)
    requires q != []
    ensures s.SignedID(id).Ok?
    ensures
      var token := s.SignedID(id).value;
      var text := if q == BLOB_ID then Ok(Itoa(id)) else Err(InvalidSignature);
      if s.Plain? then s.signer.Verify(token, q) == text else s.verifier.Verified(token, q) == text
  {
    BlobIdPurpose();
    match s
    case Plain(h) =>
      HmacAcceptance(h, Itoa(id), BLOB_ID, q);
    case Rails(v) =>
      TokenRoundTrip(v, Int(id), BLOB_ID, ZERO);
      PurposeSeparation(v, Int(id), BLOB_ID, ZERO, q);
  }

  /** A token that finds nothing: the signature comes first, then the number, then the row. */
  lemma NotFoundBecause(s: IdSigner, w: World, token: Bytes)
    requires FindSigned(s, w, token).Err?
    ensures
      var e, text := FindSigned(s, w, token).error, s.SignedText(token);
      if text.Err? then e == text.error
      else if ParseInt(text.value).Err? then e == BadInteger
      else e == BlobNotFound && ParseInt(text.value).value !in w.blobs
  {
  }

  /** What finds a blob is a text under the signer's own MAC, whose payload reads as the decimal id of that row. */
  lemma FoundIsSigned(s: IdSigner, w: World, token: Bytes)
    ensures
      var found, text := FindSigned(s, w, token), s.SignedText(token);
      found.Ok? ==>
        && found.value.0 in w.blobs && w.blobs[found.value.0] == found.value.1
        && text.Ok? && ParseInt(text.value) == Ok(found.value.0)
        && (s.Plain? ==> exists encoded :: Sealed(s.signer, token, BLOB_ID, encoded))
        && (s.Rails? ==> exists encoded :: Signed(s.verifier, token, encoded))
  {
    hide Sealed, Signed, ParseInt;
    if FindSigned(s, w, token).Ok? {
      match s
      case Plain(h) => VerifyExactly(h, token, BLOB_ID, s.SignedText(token).value);
      case Rails(v) => VerifiedExactly(v, token, BLOB_ID, s.SignedText(token).value);
    }
  }

  lemma BlobIdName()
    ensures BLOB_ID == Ascii("blob_id")
  {
  }
}
