/** The Ruby Marshal 4.8 writer (marshal.go). */
module Marshal {
  import opened Common
  import opened Values

  // ---------------------------------------------------------------- integers

  /** The byte loop for positive integers: least significant byte first. */
  function PositiveBytes(n: nat): Bytes {
    if n == 0 then [] else [n % 256] + PositiveBytes(n / 256)
  }

  /** The byte loop for negative integers: stops at -1, the fixed point of the arithmetic shift. */
  function NegativeBytes(n: int): Bytes
    requires n < 0
    decreases -n
  {
    if n == -1 then [] else [n % 256] + NegativeBytes(n / 256)
  }

  /** What `long` writes. Byte conversions wrap, as Go's do. */
  function Packed(n: int): Bytes {
    if n == 0 then [0]
    else if 0 < n < 123 then [n + 5]
    else if -124 < n < 0 then [(n - 5) % 256]
    else if n > 0 then [|PositiveBytes(n)| % 256] + PositiveBytes(n)
    else [(256 - |NegativeBytes(n)|) % 256] + NegativeBytes(n)
  }

  // ------------------------------------------------------- values and symbols

  /** Bytes written, and the symbol table afterwards in order of first use. */
  datatype Dumped = Dumped(bytes: Bytes, tab: seq<Bytes>)

  const E: Bytes := [69]

  /** The position of `s` in a table that holds it. */
  function IndexOf(s: Bytes, tab: seq<Bytes>): (i: nat)
    requires s in tab
    ensures i < |tab| && tab[i] == s
  {
    if tab[0] == s then 0 else 1 + IndexOf(s, tab[1..])
  }

  function DumpSymbol(s: Bytes, tab: seq<Bytes>): Dumped {
    if s in tab then Dumped([59] + Packed(IndexOf(s, tab)), tab)
    else Dumped([58] + Packed(|s|) + s, tab + [s])
  }

  function DumpString(s: Bytes, tab: seq<Bytes>): Dumped {
    var e := DumpSymbol(E, tab);
    Dumped([73, 34] + Packed(|s|) + s + Packed(1) + e.bytes + [84], e.tab)
  }

  function DumpValue(v: Value, tab: seq<Bytes>): Dumped
    requires Supported(v)
    decreases v, 1
  {
    match v
    case Nil => Dumped([48], tab)
    case Bool(b) => Dumped([if b then 84 else 70], tab)
    case Int(n) => Dumped([105] + Packed(n), tab)
    case Sym(name) => DumpSymbol(name, tab)
    case Str(s) => DumpString(s, tab)
    case Arr(items) =>
      var d := DumpItems(items, tab);
      Dumped([91] + Packed(|items|) + d.bytes, d.tab)
    case Dict(entries) =>
      var d := DumpEntries(entries, tab);
      Dumped([123] + Packed(|entries|) + d.bytes, d.tab)
  }

  function DumpItems(items: seq<Value>, tab: seq<Bytes>): Dumped
    requires AllSupported(items)
    decreases items, 0
  {
    if items == [] then Dumped([], tab)
    else
      var d := DumpValue(items[0], tab);
      var r := DumpItems(items[1..], d.tab);
      Dumped(d.bytes + r.bytes, r.tab)
  }

  function DumpEntries(entries: seq<Entry>, tab: seq<Bytes>): Dumped
    requires EntriesSupported(entries)
    decreases entries, 0
  {
    if entries == [] then Dumped([], tab)
    else
      var k := DumpSymbol(entries[0].key, tab);
      var d := DumpValue(entries[0].value, k.tab);
      var r := DumpEntries(entries[1..], d.tab);
      Dumped(k.bytes + d.bytes + r.bytes, r.tab)
  }

  /** The whole dump: version prefix, then the value with an empty table. */
  function Dump(v: Value): Bytes
    requires Supported(v)
  {
    [4, 8] + DumpValue(v, []).bytes
  }

  // ------------------------------------------------------------- the writer

  /** `syms` sends each symbol to its position in `tab`, and nothing else. */
  ghost predicate Inverse(syms: map<Bytes, int>, tab: seq<Bytes>) {
    && |syms| == |tab|
    && (forall i :: 0 <= i < |tab| ==> tab[i] in syms && syms[tab[i]] == i)
    && (forall s :: s in syms ==> 0 <= syms[s] < |tab| && tab[syms[s]] == s)
  }

  method PositiveLoop(n: nat) returns (b: Bytes)
    ensures b == PositiveBytes(n)
  {
    b := [];
    var v := n;
    while v > 0
      invariant PositiveBytes(n) == b + PositiveBytes(v)
    {
      Assoc(b, [v % 256], PositiveBytes(v / 256));
      b := b + [v % 256];
      v := v / 256;
    }
  }

  method NegativeLoop(n: int) returns (b: Bytes)
    requires n < 0
    ensures b == NegativeBytes(n)
  {
    b := [];
    var v := n;
    while v < -1
      invariant v < 0
      invariant NegativeBytes(n) == b + NegativeBytes(v)
      decreases -v
    {
      Assoc(b, [v % 256], NegativeBytes(v / 256));
      b := b + [v % 256];
      v := v / 256;
    }
  }

  class Marshaler {
    var buf: Bytes
    var syms: map<Bytes, int>
    ghost var tab: seq<Bytes>

    ghost predicate Valid()
      reads this
    {
      Inverse(syms, tab)
    }

    constructor ()
      ensures Valid() && buf == [] && tab == []
    {
      buf, syms, tab := [], map[], [];
    }

    method Long(n: int)
      modifies this`buf
      ensures buf == old(buf) + Packed(n)
    {
      hide PositiveBytes, NegativeBytes;
      if n == 0 {
        buf := buf + [0];
      } else if n > 0 && n < 123 {
        buf := buf + [n + 5];
      } else if n < 0 && n > -124 {
        buf := buf + [(n - 5) % 256];
      } else if n > 0 {
        var b := PositiveLoop(n);
        Assoc(buf, [|b| % 256], b);
        buf := buf + [|b| % 256];
        buf := buf + b;
      } else {
        var b := NegativeLoop(n);
        Assoc(buf, [(256 - |b|) % 256], b);
        buf := buf + [(256 - |b|) % 256];
        buf := buf + b;
      }
    }

    method Symbol(s: Bytes)
      requires Valid()
      modifies this
      ensures Valid()
      ensures Dumped(buf, tab) == Dumped(old(buf) + DumpSymbol(s, old(tab)).bytes, DumpSymbol(s, old(tab)).tab)
    {
      if s in syms {
        InverseIndex(syms, tab, s);
        buf := buf + [59];
        Long(syms[s]);
        Assoc(old(buf), [59], Packed(IndexOf(s, tab)));
        return;
      }
      InverseExtends(syms, tab, s);
      syms := syms[s := |syms|];
      tab := tab + [s];
      buf := buf + [58];
      Long(|s|);
      Assoc(old(buf), [58], Packed(|s|));
      buf := buf + s;
      Assoc(old(buf), [58] + Packed(|s|), s);
    }

    method Str(s: Bytes)
      requires Valid()
      modifies this
      ensures Valid()
      ensures Dumped(buf, tab) == Dumped(old(buf) + DumpString(s, old(tab)).bytes, DumpString(s, old(tab)).tab)
    {
      hide Packed, DumpSymbol, Inverse;
      ghost var start, e := buf, DumpSymbol(E, tab).bytes;
      buf := buf + [73];
      buf := buf + [34];
      assert buf == start + [73, 34];
      Long(|s|);
      Assoc(start, [73, 34], Packed(|s|));
      buf := buf + s;
      Assoc(start, [73, 34] + Packed(|s|), s);
      Long(1);
      Assoc(start, [73, 34] + Packed(|s|) + s, Packed(1));
      Symbol(E);
      Assoc(start, [73, 34] + Packed(|s|) + s + Packed(1), e);
      buf := buf + [84];
      Assoc(start, [73, 34] + Packed(|s|) + s + Packed(1) + e, [84]);
    }

    /** Reports an error exactly on unsupported values; otherwise appends the value's dump. */
    method Encode(v: Value) returns (ok: bool)
      requires Valid()
      modifies this
      ensures Valid()
      ensures ok <==> Supported(v)
      ensures ok ==> buf == old(buf) + DumpValue(v, old(tab)).bytes && tab == DumpValue(v, old(tab)).tab
      decreases v, 1
    {
      match v {
        case Nil =>
          buf := buf + [48];
        case Bool(b) =>
          if b {
            buf := buf + [84];
          } else {
            buf := buf + [70];
          }
        case Int(n) =>
          buf := buf + [105];
          Long(n);
          Assoc(old(buf), [105], Packed(n));
        case Sym(name) =>
          Symbol(name);
        case Str(s) =>
          Str(s);
        case Arr(items) =>
          ok := EncodeItems(items);
          return;
        case Dict(entries) =>
          ok := EncodeEntries(entries);
          return;
        case Opaque =>
          return false;
      }
      ok := true;
    }

    /** The []any case of `encode`. */
    method EncodeItems(items: seq<Value>) returns (ok: bool)
      requires Valid()
      modifies this
      ensures Valid()
      ensures ok <==> AllSupported(items)
      ensures ok ==>
          && buf == old(buf) + ([91] + Packed(|items|) + DumpItems(items, old(tab)).bytes)
          && tab == DumpItems(items, old(tab)).tab
      decreases items, 0
    {
      buf := buf + [91];
      Long(|items|);
      Assoc(old(buf), [91], Packed(|items|));
      ghost var buf0, tab0 := buf, tab;
      for i := 0 to |items|
        invariant Valid()
        invariant forall j :: 0 <= j < i ==> Supported(items[j])
        invariant AllSupported(items) ==>
            && buf0 + DumpItems(items, tab0).bytes == buf + DumpItems(items[i..], tab).bytes
            && DumpItems(items, tab0).tab == DumpItems(items[i..], tab).tab
      {
        ghost var before, tabBefore := buf, tab;
        ok := Encode(items[i]);
        if !ok {
          return;
        }
        assert items[i..][1..] == items[i + 1..];
        if AllSupported(items) {
          Assoc(before, DumpValue(items[i], tabBefore).bytes, DumpItems(items[i + 1..], tab).bytes);
        }
      }
      Assoc(old(buf), [91] + Packed(|items|), DumpItems(items, tab0).bytes);
      ok := true;
    }

    /** The Hash case of `encode`. */
    method EncodeEntries(entries: seq<Entry>) returns (ok: bool)
      requires Valid()
      modifies this
      ensures Valid()
      ensures ok <==> EntriesSupported(entries)
      ensures ok ==>
          && buf == old(buf) + ([123] + Packed(|entries|) + DumpEntries(entries, old(tab)).bytes)
          && tab == DumpEntries(entries, old(tab)).tab
      decreases entries, 0
    {
      hide Packed, DumpSymbol, DumpValue, Inverse;
      buf := buf + [123];
      Long(|entries|);
      Assoc(old(buf), [123], Packed(|entries|));
      ghost var buf0, tab0 := buf, tab;
      for i := 0 to |entries|
        invariant Valid()
        invariant forall j :: 0 <= j < i ==> Supported(entries[j].value)
        invariant EntriesSupported(entries) ==>
            && buf0 + DumpEntries(entries, tab0).bytes == buf + DumpEntries(entries[i..], tab).bytes
            && DumpEntries(entries, tab0).tab == DumpEntries(entries[i..], tab).tab
      {
        ghost var before, tabBefore, todo := buf, tab, entries[i..];
        Symbol(entries[i].key);
        ok := Encode(entries[i].value);
        if !ok {
          return;
        }
        assert todo[1..] == entries[i + 1..];
        if EntriesSupported(entries) {
          DumpEntriesStep(before, todo, tabBefore);
        }
      }
      Assoc(old(buf), [123] + Packed(|entries|), DumpEntries(entries, tab0).bytes);
      ok := true;
    }
  }

  /** One round of the Hash loop: what is left to write after a key and a value have been appended. */
  lemma DumpEntriesStep(before: Bytes, todo: seq<Entry>, tab: seq<Bytes>)
    requires todo != [] && EntriesSupported(todo)
    ensures
      var k := DumpSymbol(todo[0].key, tab);
      var d := DumpValue(todo[0].value, k.tab);
      var r := DumpEntries(todo[1..], d.tab);
      && before + DumpEntries(todo, tab).bytes == ((before + k.bytes) + d.bytes) + r.bytes
      && DumpEntries(todo, tab).tab == r.tab
  {
    var k := DumpSymbol(todo[0].key, tab);
    var d := DumpValue(todo[0].value, k.tab);
    var r := DumpEntries(todo[1..], d.tab);
    Assoc(before, k.bytes, d.bytes);
    Assoc(before, k.bytes + d.bytes, r.bytes);
  }

  lemma InverseExtends(syms: map<Bytes, int>, tab: seq<Bytes>, s: Bytes)
    requires Inverse(syms, tab) && s !in syms
    ensures s !in tab && Inverse(syms[s := |syms|], tab + [s])
  {
  }

  lemma InverseIndex(syms: map<Bytes, int>, tab: seq<Bytes>, s: Bytes)
    requires Inverse(syms, tab) && s in syms
    ensures s in tab && syms[s] == IndexOf(s, tab)
  {
    assert tab[syms[s]] == s;
    var i := IndexOf(s, tab);
    assert syms[tab[i]] == i;
  }

  method RubyMarshal(v: Value) returns (r: Result<Bytes>)
    ensures Supported(v) ==> r == Ok(Dump(v))
    ensures !Supported(v) ==> r == Err(NotEncodable)
  {
    var m := new Marshaler();
    m.buf := m.buf + [4];
    m.buf := m.buf + [8];
    assert m.buf == [4, 8];
    var ok := m.Encode(v);
    if !ok {
      return Err(NotEncodable);
    }
    return Ok(m.buf);
  }
}
