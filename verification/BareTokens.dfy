/**
 * A token without purpose and expiry, verified under a purpose: what it yields, read off the value it was made from
 * (signer.go).
 */
module BareTokens {
  import opened Common
  import opened Values
  import opened Utf8
  import opened JsonPrinter
  import opened JsonReader
  import opened JsonTheorems
  import opened Clock
  import opened Signer

  // ------------------------------------------ the envelope inside a value

  predicate Names(e: Entry, field: Bytes) { Selects(Runes(e.key), field) }

  predicate IsText(v: Value) { v.Str? || v.Sym? }

  /** The text of a String or Symbol as JSON carries it. */
  function TextOf(v: Value): Bytes {
    match v
    case Str(s) => Scrub(s)
    case Sym(name) => Scrub(name)
    case _ => []
  }

  /** Every entry that takes the place of the envelope is a Hash, or nil. */
  predicate RailsAreHashes(entries: seq<Entry>) {
    forall i :: 0 <= i < |entries| && Names(entries[i], RAILS) ==> entries[i].value.Nil? || entries[i].value.Dict?
  }

  /** The entries of all those Hashes, in order. */
  function Inner(entries: seq<Entry>): seq<Entry> {
    if entries == [] then []
    else
      var first := if Names(entries[0], RAILS) && entries[0].value.Dict? then entries[0].value.entries else [];
      first + Inner(entries[1..])
  }

  predicate IsField(e: Entry) { Names(e, MESSAGE) || Names(e, EXP) || Names(e, PUR) }

  /** Message, expiry and purpose are texts, or nil. */
  predicate FieldsAreTexts(inner: seq<Entry>) {
    forall i :: 0 <= i < |inner| && IsField(inner[i]) ==> inner[i].value.Nil? || IsText(inner[i].value)
  }

  /** The last value under a name; nil counts only where it clears. */
  function Last(inner: seq<Entry>, field: Bytes, nils: bool): Option<Value> {
    if inner == [] then None
    else
      var later := Last(inner[1..], field, nils);
      if later.Some? then later
      else if Names(inner[0], field) && (IsText(inner[0].value) || nils) then Some(inner[0].value)
      else None
  }

  function TextOr(last: Option<Value>, otherwise: Bytes): Bytes { if last.Some? then TextOf(last.value) else otherwise }

  /** A nil expiry, or none, is no expiry. */
  function ExpOr(last: Option<Value>, otherwise: Option<Bytes>): Option<Bytes> {
    if last.None? then otherwise else if last.value.Nil? then None else Some(TextOf(last.value))
  }

  /** The envelope that a Hash amounts to. */
  function Claimed(entries: seq<Entry>): Fields {
    var inner := Inner(entries);
    Fields(TextOr(Last(inner, MESSAGE, false), []),
           ExpOr(Last(inner, EXP, true), None),
           TextOr(Last(inner, PUR, false), []))
  }

  /** How deep arrays and Hashes are nested. */
  function Nesting(v: Value): nat
    decreases v, 1
  {
    match v
    case Arr(items) => 1 + NestingItems(items)
    case Dict(entries) => 1 + NestingEntries(entries)
    case _ => 0
  }

  function NestingItems(items: seq<Value>): nat
    decreases items, 0
  {
    if items == [] then 0 else Max(Nesting(items[0]), NestingItems(items[1..]))
  }

  function NestingEntries(entries: seq<Entry>): nat
    decreases entries, 0
  {
    if entries == [] then 0 else Max(Nesting(entries[0].value), NestingEntries(entries[1..]))
  }

  predicate IsEnvelope(v: Value) {
    v.Dict? && Nesting(v) <= MAX_DEPTH && RailsAreHashes(v.entries) && FieldsAreTexts(Inner(v.entries))
  }

  /** The outcome for a value printed bare and read under a non-empty purpose. */
  function BareOutcome(v: RailsVerifier, value: Value, q: Bytes): Result<Bytes> {
    if IsEnvelope(value) then v.ReadEnvelope(Claimed(value.entries), q) else Err(InvalidSignature)
  }

  predicate Counts(e: Entry, field: Bytes, nils: bool) { Names(e, field) && (IsText(e.value) || nils) }

  /** `Last` is the value of the last entry that counts, and none exactly if none does. */
  lemma {:induction false} LastIs(inner: seq<Entry>, field: Bytes, nils: bool)
    ensures Last(inner, field, nils).None? <==> forall i :: 0 <= i < |inner| ==> !Counts(inner[i], field, nils)
    ensures Last(inner, field, nils).Some? ==>
      exists i :: 0 <= i < |inner| && Counts(inner[i], field, nils) && inner[i].value == Last(inner, field, nils).value
        && forall j :: i < j < |inner| ==> !Counts(inner[j], field, nils)
  {
    hide Selects;
    if inner != [] {
      var rest := inner[1..];
      LastIs(rest, field, nils);
      assert forall i :: 0 <= i < |rest| ==> rest[i] == inner[i + 1];
      assert forall i :: 1 <= i < |inner| ==> inner[i] == rest[i - 1];
      if Last(rest, field, nils).Some? {
        var i :| 0 <= i < |rest| && Counts(rest[i], field, nils) && rest[i].value == Last(rest, field, nils).value
          && forall j :: i < j < |rest| ==> !Counts(rest[j], field, nils);
        assert Counts(inner[i + 1], field, nils);
      }
    }
  }

  // ---------------------------------------------------------------- its proof

  lemma {:induction false} DenoteAppend(a: seq<Entry>, b: seq<Entry>)
    requires EntriesSupported(a) && EntriesSupported(b)
    ensures EntriesSupported(a + b) && DenoteEntries(a + b) == DenoteEntries(a) + DenoteEntries(b)
  {
    if a == [] {
      assert a + b == b;
    } else {
      assert (a + b)[1..] == a[1..] + b;
      DenoteAppend(a[1..], b);
    }
  }

  lemma {:induction false} ReadAppend(f: Fields, a: seq<Member>, b: seq<Member>)
    ensures
      var g := ReadFields(f, a);
      ReadFields(f, a + b) == if g.None? then None else ReadFields(g.value, b)
    decreases |a|
  {
    hide ReadField;
    if a == [] {
      assert a + b == b;
    } else {
      assert (a + b)[1..] == a[1..] + b;
      if ReadField(f, a[0]).Some? {
        ReadAppend(ReadField(f, a[0]).value, a[1..], b);
      }
    }
  }

  /** Later entries of the same name win, starting from what was read before. */
  function Updated(f: Fields, inner: seq<Entry>): Fields {
    Fields(TextOr(Last(inner, MESSAGE, false), f.message),
           ExpOr(Last(inner, EXP, true), f.exp),
           TextOr(Last(inner, PUR, false), f.pur))
  }

  lemma ReadOneField(f: Fields, e: Entry)
    requires Supported(e.value)
    ensures
      var g := ReadField(f, Member(Runes(e.key), Denote(e.value)));
      if FieldsAreTexts([e]) then g == Some(Updated(f, [e])) else g == None
  {
    hide Runes, EncodeAll, FoldName;
    assert [e][1..] == [] && [e][0] == e;
    assert Last([], MESSAGE, false) == None && Last([], EXP, true) == None && Last([], PUR, false) == None;
    assert MESSAGE[0] != EXP[0] && MESSAGE[0] != PUR[0] && EXP[0] != PUR[0];
  }

  lemma UpdatedThen(f: Fields, e: Entry, rest: seq<Entry>)
    ensures Updated(Updated(f, [e]), rest) == Updated(f, [e] + rest)
  {
    hide Selects;
    assert ([e] + rest)[1..] == rest && ([e] + rest)[0] == e && [e][1..] == [] && [e][0] == e;
    assert Last([], MESSAGE, false) == None && Last([], EXP, true) == None && Last([], PUR, false) == None;
  }

  lemma {:induction false} ReadFieldsOf(f: Fields, inner: seq<Entry>)
    requires EntriesSupported(inner)
    ensures ReadFields(f, DenoteEntries(inner)) == if FieldsAreTexts(inner) then Some(Updated(f, inner)) else None
    decreases |inner|
  {
    hide ReadField, Selects;
    if inner != [] {
      var e, rest := inner[0], inner[1..];
      assert inner == [e] + rest;
      ReadOneField(f, e);
      assert [e][0] == e;
      assert FieldsAreTexts(inner) <==> FieldsAreTexts([e]) && FieldsAreTexts(rest);
      assert [e][1..] == [];
      if FieldsAreTexts([e]) {
        UpdatedThen(f, e, rest);
        ReadFieldsOf(Updated(f, [e]), rest);
      }
    }
  }

  lemma ReadOneRails(f: Fields, e: Entry, rest: seq<Entry>)
    requires Supported(e.value) && EntriesSupported(rest)
    ensures EntriesSupported([e] + rest)
    ensures
      var r := ReadRails(f, DenoteEntries([e] + rest));
      if !Names(e, RAILS) || e.value.Nil? then r == ReadRails(f, DenoteEntries(rest))
      else if !e.value.Dict? then r == None
      else
        var g := ReadFields(f, DenoteEntries(e.value.entries));
        r == if g.None? then None else ReadRails(g.value, DenoteEntries(rest))
  {
    hide ReadFields, Selects, Runes;
    assert ([e] + rest)[1..] == rest && ([e] + rest)[0] == e;
    assert DenoteEntries([e] + rest)[1..] == DenoteEntries(rest);
  }

  lemma {:induction false} ReadRailsOf(f: Fields, entries: seq<Entry>)
    requires EntriesSupported(entries)
    ensures EntriesSupported(Inner(entries))
    ensures
      ReadRails(f, DenoteEntries(entries))
      == if RailsAreHashes(entries) then ReadFields(f, DenoteEntries(Inner(entries))) else None
    decreases |entries|
  {
    hide ReadFields, ReadRails, Selects;
    if entries == [] {
      NothingRead(f);
    } else {
      var e, rest := entries[0], entries[1..];
      assert entries == [e] + rest;
      ReadOneRails(f, e, rest);
      ReadRailsOf(f, rest);
      assert RailsAreHashes(entries) <==>
        (Names(e, RAILS) ==> e.value.Nil? || e.value.Dict?) && RailsAreHashes(rest);
      if Names(e, RAILS) && e.value.Dict? {
        DenoteAppend(e.value.entries, Inner(rest));
        ReadAppend(f, DenoteEntries(e.value.entries), DenoteEntries(Inner(rest)));
        var g := ReadFields(f, DenoteEntries(e.value.entries));
        if g.Some? {
          ReadRailsOf(g.value, rest);
        }
      } else {
        assert Inner(entries) == Inner(rest);
      }
    }
  }

  lemma NothingRead(f: Fields)
    ensures ReadRails(f, DenoteEntries([])) == ReadFields(f, DenoteEntries([])) == Some(f)
  {
  }

  lemma {:induction false} NestingDenoted(v: Value)
    requires Supported(v)
    ensures Depth(Denote(v)) == Nesting(v)
    decreases v, 1
  {
    match v {
      case Arr(items) => NestingItemsDenoted(items);
      case Dict(entries) => NestingEntriesDenoted(entries);
      case _ =>
    }
  }

  lemma {:induction false} NestingItemsDenoted(items: seq<Value>)
    requires AllSupported(items)
    ensures DepthItems(DenoteItems(items)) == NestingItems(items)
    decreases items, 0
  {
    hide Depth, Nesting, Denote;
    if items != [] {
      NestingDenoted(items[0]);
      NestingItemsDenoted(items[1..]);
      assert DenoteItems(items)[1..] == DenoteItems(items[1..]);
    }
  }

  lemma {:induction false} NestingEntriesDenoted(entries: seq<Entry>)
    requires EntriesSupported(entries)
    ensures DepthMembers(DenoteEntries(entries)) == NestingEntries(entries)
    decreases entries, 0
  {
    hide Depth, Nesting, Denote;
    if entries != [] {
      NestingDenoted(entries[0].value);
      NestingEntriesDenoted(entries[1..]);
      assert DenoteEntries(entries)[1..] == DenoteEntries(entries[1..]);
    }
  }

  lemma EnvelopeNesting(serialized: Bytes, purpose: Bytes, expiresAt: Time)
    ensures Supported(EnvelopeValue(serialized, purpose, expiresAt))
    ensures Depth(Denote(EnvelopeValue(serialized, purpose, expiresAt))) == 2
  {
    hide NestingEntries, DepthMembers, Supported, Denote, Depth, Format;
    EnvelopeSupported(serialized, purpose, expiresAt);
    NestingDenoted(EnvelopeValue(serialized, purpose, expiresAt));
    var rails := EnvelopeValue(serialized, purpose, expiresAt).entries[0];
    FlatEntries(rails.value.entries);
    NestingOne(rails);
  }

  lemma {:induction false} FlatEntries(entries: seq<Entry>)
    requires forall i :: 0 <= i < |entries| ==> Nesting(entries[i].value) == 0
    ensures NestingEntries(entries) == 0
  {
    if entries != [] {
      FlatEntries(entries[1..]);
    }
  }

  lemma NestingOne(e: Entry)
    ensures Nesting(Dict([e])) == 1 + Nesting(e.value)
  {
    var rest := [e][1..];
    assert rest == [] && NestingEntries(rest) == 0;
    assert NestingEntries([e]) == Max(Nesting([e][0].value), NestingEntries(rest));
  }

  /** Reading a bare value as if it were an envelope: exactly a Hash that has the envelope's shape can succeed. */
  lemma BarePayload(v: RailsVerifier, value: Value, q: Bytes)
    requires Supported(value) && q != []
    ensures v.ReadPayload(Print(value), q) == BareOutcome(v, value, q)
  {
    hide Parse, Print, ReadRails, ReadFields, Selects, Runes, Depth, Nesting;
    ParsePrint(value);
    NestingDenoted(value);
    if value.Dict? {
      ReadRailsOf(NO_FIELDS, value.entries);
      if RailsAreHashes(value.entries) {
        ReadFieldsOf(NO_FIELDS, Inner(value.entries));
      }
    }
  }

  /** A value without an entry that takes the envelope's place is refused under every purpose. */
  lemma {:induction false} NoEnvelope(v: RailsVerifier, value: Value, q: Bytes)
    requires q != []
    requires value.Dict? ==> forall i :: 0 <= i < |value.entries| ==> !Names(value.entries[i], RAILS)
    ensures BareOutcome(v, value, q) == Err(InvalidSignature)
  {
    if value.Dict? {
      NothingInner(value.entries);
    }
  }

  lemma {:induction false} NothingInner(entries: seq<Entry>)
    requires forall i :: 0 <= i < |entries| ==> !Names(entries[i], RAILS)
    ensures Inner(entries) == []
  {
    if entries != [] {
      NothingInner(entries[1..]);
    }
  }
}
