/** Writer and reader tables stay in step; what a reader loses is exactly the numbers wider than it reads. */
module MarshalTheorems {
  import opened Common
  import opened Values
  import opened Marshal
  import opened MarshalReader

  // ------------------------------------------- which dumps a reader can follow

  predicate FitsSymbol(s: Bytes, tab: seq<Bytes>, width: Width) {
    if s in tab then InRange(IndexOf(s, tab), width) else InRange(|s|, width)
  }

  /** Every integer, length and symbol index met while dumping `v` is in range. */
  predicate Fits(v: Value, tab: seq<Bytes>, width: Width)
    requires Supported(v)
    decreases v, 1
  {
    match v
    case Int(n) => InRange(n, width)
    case Sym(name) => FitsSymbol(name, tab, width)
    case Str(s) => InRange(|s|, width) && FitsSymbol(E, tab, width)
    case Arr(items) => InRange(|items|, width) && FitsItems(items, tab, width)
    case Dict(entries) => InRange(|entries|, width) && FitsEntries(entries, tab, width)
    case _ => true
  }

  predicate FitsItems(items: seq<Value>, tab: seq<Bytes>, width: Width)
    requires AllSupported(items)
    decreases items, 0
  {
    items == [] || (Fits(items[0], tab, width) && FitsItems(items[1..], DumpValue(items[0], tab).tab, width))
  }

  predicate FitsEntries(entries: seq<Entry>, tab: seq<Bytes>, width: Width)
    requires EntriesSupported(entries)
    decreases entries, 0
  {
    entries == []
    || (var k := DumpSymbol(entries[0].key, tab);
        && FitsSymbol(entries[0].key, tab, width)
        && Fits(entries[0].value, k.tab, width)
        && FitsEntries(entries[1..], DumpValue(entries[0].value, k.tab).tab, width))
  }

  // --------------------------------------------------------------- round trip

  /** The writer never lists a symbol twice. */
  ghost predicate NoDuplicates(tab: seq<Bytes>) {
    forall i, j :: 0 <= i < j < |tab| ==> tab[i] != tab[j]
  }

  lemma ReadBytesRoundTrip(s: Bytes, rest: Bytes, width: Width)
    ensures InRange(|s|, width) ==> ReadBytes(Packed(|s|) + s + rest, width) == Some((s, rest))
    ensures !InRange(|s|, width) ==> var r := ReadBytes(Packed(|s|) + s + rest, width); r.None? || r.value.0 != s
  {
    Assoc(Packed(|s|), s, rest);
    LongRoundTrip(|s|, s + rest, width);
    TakeDrop(s, rest);
  }

  lemma SymbolRoundTrip(s: Bytes, tab: seq<Bytes>, rest: Bytes, width: Width)
    requires NoDuplicates(tab)
    ensures NoDuplicates(DumpSymbol(s, tab).tab)
    ensures
      var r := ReadSymbol(DumpSymbol(s, tab).bytes + rest, tab, width);
      if FitsSymbol(s, tab, width) then r == Some(LoadedSymbol(s, rest, DumpSymbol(s, tab).tab))
      else r.None? || r.value.name != s
  {
    if s in tab {
      Tagged(59, Packed(IndexOf(s, tab)), [], rest);
      assert [59] + Packed(IndexOf(s, tab)) + [] == DumpSymbol(s, tab).bytes && [] + rest == rest;
      LongRoundTrip(IndexOf(s, tab), rest, width);
    } else {
      Tagged(58, Packed(|s|), s, rest);
      Assoc(Packed(|s|), s, rest);
      ReadBytesRoundTrip(s, rest, width);
    }
  }

  lemma StringShape(text: Bytes, s: Bytes, count: Bytes, e: Bytes, rest: Bytes)
    requires text == [73, 34] + Packed(|s|) + s + count + e + [84] + rest
    ensures |text| >= 2 && text[0] == 73 && text[1] == 34
    ensures text[2..] == Packed(|s|) + s + (count + (e + ([84] + rest)))
  {
    var b, t := Packed(|s|), [84] + rest;
    Assoc([73, 34] + b + s + count + e, [84], rest);
    Assoc([73, 34] + b + s + count, e, t);
    Assoc([73, 34] + b + s, count, e + t);
    Assoc([73, 34] + b, s, count + (e + t));
    Assoc([73, 34], b, s + (count + (e + t)));
    Assoc(b, s, count + (e + t));
    TakeDrop([73, 34], b + s + (count + (e + t)));
  }

  lemma StringRoundTrip(s: Bytes, tab: seq<Bytes>, rest: Bytes, width: Width)
    requires NoDuplicates(tab)
    ensures NoDuplicates(DumpString(s, tab).tab)
    ensures
      var r := ReadString(DumpString(s, tab).bytes + rest, tab, width);
      if InRange(|s|, width) && FitsSymbol(E, tab, width) then r == Some(Loaded(Str(s), rest, DumpString(s, tab).tab))
      else r.None? || r.value.v != Str(s)
  {
    var e := DumpSymbol(E, tab).bytes;
    var afterSymbol := [84] + rest;
    StringShape(DumpString(s, tab).bytes + rest, s, Packed(1), e, rest);
    ReadBytesRoundTrip(s, Packed(1) + (e + afterSymbol), width);
    LongRoundTrip(1, e + afterSymbol, width);
    SymbolRoundTrip(E, tab, afterSymbol, width);
    TakeDrop([84], rest);
  }

  /** The reader undoes the writer in any context, and goes wrong at the first number that does not fit. */
  lemma {:induction false} ValueRoundTrip(v: Value, tab: seq<Bytes>, rest: Bytes, width: Width)
    requires Supported(v) && NoDuplicates(tab)
    ensures NoDuplicates(DumpValue(v, tab).tab)
    ensures
      var r := ReadValue(DumpValue(v, tab).bytes + rest, tab, width);
      if Fits(v, tab, width) then r == Some(Loaded(v, rest, DumpValue(v, tab).tab))
      else r.None? || r.value.v != v
    decreases v, 1
  {
    hide ReadItems, ReadEntries, ReadString, ReadSymbol, ReadLong, Packed, InRange;
    hide DumpItems, DumpEntries, FitsItems, FitsEntries, FitsSymbol;
    var text := DumpValue(v, tab).bytes + rest;
    match v {
      case Nil => assert text[1..] == rest;
      case Bool(b) => assert text[1..] == rest;
      case Int(n) =>
        assert text[1..] == Packed(n) + rest;
        LongRoundTrip(n, rest, width);
      case Sym(name) =>
        SymbolRoundTrip(name, tab, rest, width);
      case Str(s) =>
        StringRoundTrip(s, tab, rest, width);
      case Arr(items) =>
        ArrayRoundTrip(items, tab, rest, width);
      case Dict(entries) =>
        HashRoundTrip(entries, tab, rest, width);
    }
  }

  lemma ReadHeader(tag: Byte, k: nat, body: Bytes, rest: Bytes, width: Width)
    ensures
      var s := [tag] + Packed(k) + body + rest;
      && s != [] && s[0] == tag
      && if InRange(k, width) then ReadLong(s[1..], width) == Some(Number(k, body + rest))
         else ReadLong(s[1..], width).None? || ReadLong(s[1..], width).value.n != k
  {
    Tagged(tag, Packed(k), body, rest);
    LongRoundTrip(k, body + rest, width);
  }

  lemma ReadArray(s: Bytes, tab: seq<Bytes>, k: nat, width: Width)
    requires s != [] && s[0] == 91
    ensures
      var n, r := ReadLong(s[1..], width), ReadValue(s, tab, width);
      && (n.None? ==> r.None?)
      && (n.Some? && n.value.n != k ==> r.None? || (r.value.v.Arr? && |r.value.v.items| != k))
      && (n.Some? && n.value.n == k ==>
            var l := ReadItems(k, n.value.rest, tab, width);
            r == if l.None? then None else Some(Loaded(Arr(l.value.items), l.value.rest, l.value.tab)))
  {
  }

  lemma {:induction false} ArrayRoundTrip(items: seq<Value>, tab: seq<Bytes>, rest: Bytes, width: Width)
    requires AllSupported(items) && NoDuplicates(tab)
    ensures NoDuplicates(DumpItems(items, tab).tab)
    ensures
      var d := DumpItems(items, tab);
      var r := ReadValue([91] + Packed(|items|) + d.bytes + rest, tab, width);
      if InRange(|items|, width) && FitsItems(items, tab, width) then r == Some(Loaded(Arr(items), rest, d.tab))
      else r.None? || r.value.v != Arr(items)
    decreases items, 1
  {
    var d := DumpItems(items, tab);
    ReadHeader(91, |items|, d.bytes, rest, width);
    ReadArray([91] + Packed(|items|) + d.bytes + rest, tab, |items|, width);
    ItemsRoundTrip(items, tab, rest, width);
  }

  lemma ReadHash(s: Bytes, tab: seq<Bytes>, k: nat, width: Width)
    requires s != [] && s[0] == 123
    ensures
      var n, r := ReadLong(s[1..], width), ReadValue(s, tab, width);
      && (n.None? ==> r.None?)
      && (n.Some? && n.value.n != k ==> r.None? || (r.value.v.Dict? && |r.value.v.entries| != k))
      && (n.Some? && n.value.n == k ==>
            var l := ReadEntries(k, n.value.rest, tab, width);
            r == if l.None? then None else Some(Loaded(Dict(l.value.entries), l.value.rest, l.value.tab)))
  {
  }

  lemma {:induction false} HashRoundTrip(entries: seq<Entry>, tab: seq<Bytes>, rest: Bytes, width: Width)
    requires EntriesSupported(entries) && NoDuplicates(tab)
    ensures NoDuplicates(DumpEntries(entries, tab).tab)
    ensures
      var d := DumpEntries(entries, tab);
      var r := ReadValue([123] + Packed(|entries|) + d.bytes + rest, tab, width);
      if InRange(|entries|, width) && FitsEntries(entries, tab, width) then
        r == Some(Loaded(Dict(entries), rest, d.tab))
      else r.None? || r.value.v != Dict(entries)
    decreases entries, 1
  {
    var d := DumpEntries(entries, tab);
    ReadHeader(123, |entries|, d.bytes, rest, width);
    ReadHash([123] + Packed(|entries|) + d.bytes + rest, tab, |entries|, width);
    EntriesRoundTrip(entries, tab, rest, width);
  }

  lemma {:induction false} ItemsRoundTrip(items: seq<Value>, tab: seq<Bytes>, rest: Bytes, width: Width)
    requires AllSupported(items) && NoDuplicates(tab)
    ensures NoDuplicates(DumpItems(items, tab).tab)
    ensures
      var r := ReadItems(|items|, DumpItems(items, tab).bytes + rest, tab, width);
      if FitsItems(items, tab, width) then r == Some(LoadedItems(items, rest, DumpItems(items, tab).tab))
      else r.None? || r.value.items != items
    decreases items, 0
  {
    hide DumpValue, Fits, ReadValue;
    if items == [] {
      assert DumpItems(items, tab).bytes + rest == rest;
    } else {
      var d := DumpValue(items[0], tab);
      var todo := DumpItems(items[1..], d.tab).bytes;
      Assoc(d.bytes, todo, rest);
      ValueRoundTrip(items[0], tab, todo + rest, width);
      ItemsRoundTrip(items[1..], d.tab, rest, width);
      assert items == [items[0]] + items[1..];
    }
  }

  lemma {:induction false} EntriesRoundTrip(entries: seq<Entry>, tab: seq<Bytes>, rest: Bytes, width: Width)
    requires EntriesSupported(entries) && NoDuplicates(tab)
    ensures NoDuplicates(DumpEntries(entries, tab).tab)
    ensures
      var r := ReadEntries(|entries|, DumpEntries(entries, tab).bytes + rest, tab, width);
      if FitsEntries(entries, tab, width) then r == Some(LoadedEntries(entries, rest, DumpEntries(entries, tab).tab))
      else r.None? || r.value.entries != entries
    decreases entries, 0
  {
    hide DumpSymbol, DumpValue, Fits, FitsSymbol, ReadSymbol, ReadValue;
    if entries == [] {
      assert DumpEntries(entries, tab).bytes + rest == rest;
    } else {
      var k := DumpSymbol(entries[0].key, tab);
      var d := DumpValue(entries[0].value, k.tab);
      var todo := DumpEntries(entries[1..], d.tab).bytes;
      Assoc(k.bytes + d.bytes, todo, rest);
      Assoc(k.bytes, d.bytes, todo + rest);
      SymbolRoundTrip(entries[0].key, tab, d.bytes + (todo + rest), width);
      ValueRoundTrip(entries[0].value, k.tab, todo + rest, width);
      EntriesRoundTrip(entries[1..], d.tab, rest, width);
      assert entries == [entries[0]] + entries[1..];
    }
  }

  /**
   * A dump loads back to its value exactly when every number in it fits the reader's width: for Ruby's reader, four
   * bytes.
   */
  lemma LoadDump(v: Value, width: Width)
    requires Supported(v)
    ensures Load(Dump(v), width) == Some(v) <==> Fits(v, [], width)
  {
    ValueRoundTrip(v, [], [], width);
    assert Dump(v)[2..] == DumpValue(v, []).bytes + [];
  }

  /**
   * Distinct values have distinct dumps as long as no number takes six bytes, even those that Ruby would not read back;
   * in particular order, keys and Symbol against String all show.
   */
  lemma DumpInjective(v: Value, w: Value)
    requires Supported(v) && Supported(w) && Fits(v, [], WIDEST) && Fits(w, [], WIDEST)
    ensures Dump(v) == Dump(w) <==> v == w
  {
    LoadDump(v, WIDEST);
    LoadDump(w, WIDEST);
  }

  // ------------------------------------------------- the condition, in plain terms

  predicate IntegersInRange(v: Value, width: Width)
    decreases v
  {
    match v
    case Int(n) => InRange(n, width)
    case Arr(items) => forall i :: 0 <= i < |items| ==> IntegersInRange(items[i], width)
    case Dict(entries) => forall i :: 0 <= i < |entries| ==> IntegersInRange(entries[i].value, width)
    case _ => true
  }

  lemma SymbolSize(s: Bytes, tab: seq<Bytes>, width: Width)
    ensures |tab| <= |DumpSymbol(s, tab).tab| < |tab| + |DumpSymbol(s, tab).bytes|
    ensures s !in tab ==> |s| < |DumpSymbol(s, tab).bytes|
    ensures |tab| + |DumpSymbol(s, tab).bytes| <= 0x1_0000_0000 ==> FitsSymbol(s, tab, width)
  {
  }

  /** Lengths and symbol indices are bounded by what has been written, so only the integers matter. */
  lemma {:induction false} ValueSize(v: Value, tab: seq<Bytes>, width: Width)
    requires Supported(v)
    ensures
      var d := DumpValue(v, tab);
      && |tab| <= |d.tab| < |tab| + |d.bytes|
      && (|tab| + |d.bytes| <= 0x1_0000_0000 ==> (Fits(v, tab, width) <==> IntegersInRange(v, width)))
    decreases v, 1
  {
    match v {
      case Sym(name) => SymbolSize(name, tab, width);
      case Str(s) => SymbolSize(E, tab, width);
      case Arr(items) => ItemsSize(items, tab, width);
      case Dict(entries) => EntriesSize(entries, tab, width);
      case _ =>
    }
  }

  lemma {:induction false} ItemsSize(items: seq<Value>, tab: seq<Bytes>, width: Width)
    requires AllSupported(items)
    ensures
      var d := DumpItems(items, tab);
      && |tab| <= |d.tab| <= |tab| + |d.bytes|
      && |items| <= |d.bytes|
      && (|tab| + |d.bytes| <= 0x1_0000_0000 ==>
            (FitsItems(items, tab, width) <==> forall i :: 0 <= i < |items| ==> IntegersInRange(items[i], width)))
    decreases items, 0
  {
    hide DumpValue, Fits, IntegersInRange;
    if items != [] {
      ValueSize(items[0], tab, width);
      ItemsSize(items[1..], DumpValue(items[0], tab).tab, width);
      assert items == [items[0]] + items[1..];
    }
  }

  lemma {:induction false} EntriesSize(entries: seq<Entry>, tab: seq<Bytes>, width: Width)
    requires EntriesSupported(entries)
    ensures
      var d := DumpEntries(entries, tab);
      && |tab| <= |d.tab| <= |tab| + |d.bytes|
      && |entries| <= |d.bytes|
      && (|tab| + |d.bytes| <= 0x1_0000_0000 ==>
            (FitsEntries(entries, tab, width) <==>
             forall i :: 0 <= i < |entries| ==> IntegersInRange(entries[i].value, width)))
    decreases entries, 0
  {
    hide DumpSymbol, DumpValue, Fits, FitsSymbol, IntegersInRange;
    if entries != [] {
      var k := DumpSymbol(entries[0].key, tab);
      SymbolSize(entries[0].key, tab, width);
      ValueSize(entries[0].value, k.tab, width);
      EntriesSize(entries[1..], DumpValue(entries[0].value, k.tab).tab, width);
      assert entries == [entries[0]] + entries[1..];
    }
  }

  /** A dump of at most 4 GiB loads back to its value exactly when every integer in the value fits the width. */
  lemma LoadDumpUpTo4GiB(v: Value, width: Width)
    requires Supported(v) && |Dump(v)| <= 0x1_0000_0000
    ensures Load(Dump(v), width) == Some(v) <==> IntegersInRange(v, width)
  {
    ValueSize(v, [], width);
    LoadDump(v, width);
  }

  /** Up to that size, values with integers in [-2^40, 2^40) have distinct dumps. */
  lemma DumpInjectiveUpTo4GiB(v: Value, w: Value)
    requires Supported(v) && |Dump(v)| <= 0x1_0000_0000 && IntegersInRange(v, WIDEST)
    requires Supported(w) && |Dump(w)| <= 0x1_0000_0000 && IntegersInRange(w, WIDEST)
    ensures Dump(v) == Dump(w) <==> v == w
  {
    LoadDumpUpTo4GiB(v, WIDEST);
    LoadDumpUpTo4GiB(w, WIDEST);
  }

  // ------------------------------------------------------- outside the range

  /** An integer that takes exactly four bytes. */
  predicate FourByte(m: int) { 0x100_0000 <= m < 0x1_0000_0000 || -0x1_0000_0000 <= m < -0x100_0000 }

  /** An integer of six bytes and `j` more, whose bytes spell the dumps of `j` nils and of the integer `m`. */
  function SpellsOut(j: nat, m: int): int {
    if j == 0 then 105 + 256 * ((if m > 0 then 4 else 252) + 256 * m) else 48 + 256 * SpellsOut(j - 1, m)
  }

  function Nils(j: nat): Bytes { if j == 0 then [] else [48] + Nils(j - 1) }

  /** What those bytes spell. */
  function Spelled(j: nat, m: int): Bytes { Nils(j) + ([105] + Packed(m)) }

  lemma PackedFour(m: int)
    requires FourByte(m)
    ensures m > 0 ==> |PositiveBytes(m)| == 4 && Packed(m) == [4] + PositiveBytes(m)
    ensures m < 0 ==> |NegativeBytes(m)| == 4 && Packed(m) == [252] + NegativeBytes(m)
  {
    FiveBytes();
    hide Pow256;
    if m > 0 {
      PositiveLength(m, 4);
      PositiveLength(m, 3);
    } else {
      NegativeLength(m, 4);
      NegativeLength(m, 3);
    }
  }

  lemma PositiveStep(c: Byte, n: nat)
    requires n > 0
    ensures PositiveBytes(c + 256 * n) == [c] + PositiveBytes(n)
  {
    assert (c + 256 * n) % 256 == c && (c + 256 * n) / 256 == n;
  }

  lemma NegativeStep(c: Byte, n: int)
    requires n < 0 && c + 256 * n != -1
    ensures c + 256 * n < 0 && NegativeBytes(c + 256 * n) == [c] + NegativeBytes(n)
  {
    assert (c + 256 * n) % 256 == c && (c + 256 * n) / 256 == n;
  }

  lemma {:induction false} SpelledPositive(j: nat, m: int)
    requires FourByte(m) && m > 0
    ensures SpellsOut(j, m) > 255 && PositiveBytes(SpellsOut(j, m)) == Spelled(j, m)
  {
    hide PositiveBytes, Packed;
    if j == 0 {
      PackedFour(m);
      PositiveStep(4, m);
      PositiveStep(105, 4 + 256 * m);
      Assoc([105], [4], PositiveBytes(m));
      assert Nils(0) + ([105] + Packed(m)) == [105] + Packed(m);
    } else {
      SpelledPositive(j - 1, m);
      PositiveStep(48, SpellsOut(j - 1, m));
      Assoc([48], Nils(j - 1), [105] + Packed(m));
    }
  }

  lemma {:induction false} SpelledNegative(j: nat, m: int)
    requires FourByte(m) && m < 0
    ensures SpellsOut(j, m) < -255 && NegativeBytes(SpellsOut(j, m)) == Spelled(j, m)
  {
    hide NegativeBytes, Packed;
    if j == 0 {
      PackedFour(m);
      NegativeStep(252, m);
      NegativeStep(105, 252 + 256 * m);
      Assoc([105], [252], NegativeBytes(m));
      assert Nils(0) + ([105] + Packed(m)) == [105] + Packed(m);
    } else {
      SpelledNegative(j - 1, m);
      NegativeStep(48, SpellsOut(j - 1, m));
      Assoc([48], Nils(j - 1), [105] + Packed(m));
    }
  }

  /** The one-byte integer whose packing is the header of that long one. */
  function Header(j: nat, m: int): int { if m > 0 then j + 1 else 0 - j - 1 }

  lemma SpelledLength(j: nat, m: int)
    requires FourByte(m)
    ensures |Spelled(j, m)| == j + 6
  {
    PackedFour(m);
    NilsLength(j);
  }

  lemma {:induction false} NilsLength(j: nat)
    ensures |Nils(j)| == j
  {
    if j > 0 {
      NilsLength(j - 1);
    }
  }

  lemma SpelledPacked(j: nat, m: int)
    requires j <= 2 && FourByte(m)
    ensures Packed(SpellsOut(j, m)) == Packed(Header(j, m)) + Spelled(j, m)
  {
    hide Spelled, SpellsOut;
    SpelledLength(j, m);
    if m > 0 {
      SpelledPositive(j, m);
    } else {
      SpelledNegative(j, m);
    }
  }

  // ------------------------------------------------ dumps of nils and integers

  predicate Flat(items: seq<Value>) { forall i :: 0 <= i < |items| ==> items[i].Nil? || items[i].Int? }

  lemma {:induction false} DumpItemsAppend(a: seq<Value>, b: seq<Value>, tab: seq<Bytes>)
    requires Flat(a) && Flat(b)
    ensures AllSupported(a) && AllSupported(b) && AllSupported(a + b)
    ensures DumpItems(a + b, tab).bytes == DumpItems(a, tab).bytes + DumpItems(b, tab).bytes
  {
    hide Packed;
    if a == [] {
      assert a + b == b;
    } else {
      assert (a + b)[1..] == a[1..] + b && (a + b)[0] == a[0];
      DumpItemsAppend(a[1..], b, tab);
      Assoc(DumpValue(a[0], tab).bytes, DumpItems(a[1..], tab).bytes, DumpItems(b, tab).bytes);
    }
  }

  function NilValues(j: nat): seq<Value> { if j == 0 then [] else [Nil] + NilValues(j - 1) }

  lemma {:induction false} DumpNils(j: nat)
    ensures |NilValues(j)| == j && Flat(NilValues(j)) && AllSupported(NilValues(j))
    ensures DumpItems(NilValues(j), []).bytes == Nils(j)
  {
    if j > 0 {
      DumpNils(j - 1);
      assert NilValues(j)[1..] == NilValues(j - 1);
    }
  }

  lemma DumpInt(n: Int64)
    ensures DumpItems([Int(n)], []).bytes == [105] + Packed(n)
  {
    hide Packed;
    assert [Int(n)][1..] == [] && DumpItems([], []).bytes == [];
    assert [105] + Packed(n) + [] == [105] + Packed(n);
  }

  /** The values that those bytes spell. */
  function Said(j: nat, m: Int64): seq<Value> { NilValues(j) + [Int(m)] }

  lemma DumpSaid(j: nat, m: Int64)
    ensures Flat(Said(j, m)) && AllSupported(Said(j, m)) && |Said(j, m)| == j + 1
    ensures DumpItems(Said(j, m), []).bytes == Spelled(j, m)
  {
    hide Packed;
    DumpNils(j);
    DumpInt(m);
    DumpItemsAppend(NilValues(j), [Int(m)], []);
  }

  lemma SpellsInt64(j: nat, m: int)
    requires j <= 2 && FourByte(m) && (j == 2 ==> -0x8000_0000 <= m < 0x8000_0000)
    ensures -0x8000_0000_0000_0000 <= SpellsOut(j, m) < 0x8000_0000_0000_0000
    ensures InRange(SpellsOut(j, m), WIDEST) == false
  {
    assert SpellsOut(0, m) == 105 + 256 * ((if m > 0 then 4 else 252) + 256 * m);
    assert j > 0 ==> SpellsOut(1, m) == 48 + 256 * SpellsOut(0, m);
    assert j > 1 ==> SpellsOut(2, m) == 48 + 256 * SpellsOut(1, m);
  }

  /**
   * The header of a number of six, seven or eight bytes, positive or negative, is the whole encoding of a small one, so
   * from six bytes on the dump is ambiguous: these two different arrays have the same bytes, hence the same digest.
   */
  lemma DumpCollision(j: nat, m: Int64)
    requires j <= 2 && FourByte(m) && (j == 2 ==> -0x8000_0000 <= m < 0x8000_0000)
    ensures -0x8000_0000_0000_0000 <= SpellsOut(j, m) < 0x8000_0000_0000_0000 && !InRange(SpellsOut(j, m), WIDEST)
    ensures
      var small, long: Value := Int(Header(j, m)), Int(SpellsOut(j, m));
      var v, w := [small] + Said(j, m) + [long], [long] + ([small] + Said(j, m));
      && AllSupported(v) && AllSupported(w)
      && v != w && Dump(Arr(v)) == Dump(Arr(w))
  {
    hide Packed, Spelled, SpellsOut, Said, DumpItems, DumpValue;
    SpellsInt64(j, m);
    SpelledPacked(j, m);
    DumpSaid(j, m);
    var small, long: Value := Int(Header(j, m)), Int(SpellsOut(j, m));
    var said := Said(j, m);
    var head := [small] + said;
    DumpInt(Header(j, m));
    DumpInt(SpellsOut(j, m));
    DumpItemsAppend([small], said, []);
    DumpItemsAppend(head, [long], []);
    DumpItemsAppend([long], head, []);
    Assoc([105], Packed(Header(j, m)), Spelled(j, m));
    DumpArray(head + [long]);
    DumpArray([long] + head);
    assert (head + [long])[0] == small && ([long] + head)[0] == long;
  }

  lemma DumpArray(items: seq<Value>)
    requires AllSupported(items)
    ensures Dump(Arr(items)) == [4, 8] + ([91] + Packed(|items|) + DumpItems(items, []).bytes)
  {
  }
}
