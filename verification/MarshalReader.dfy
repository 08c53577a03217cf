/** A reader for Ruby's Marshal 4.8 format, and what it recovers from the writer's dumps. */
module MarshalReader {
  import opened Common
  import opened Values
  import opened Marshal

  // ---------------------------------------------------------------- integers

  function Pow256(k: nat): (p: nat)
    ensures p > 0
  {
    if k == 0 then 1 else 256 * Pow256(k - 1)
  }

  function LittleEndian(b: Bytes): nat {
    if b == [] then 0 else b[0] + 256 * LittleEndian(b[1..])
  }

  datatype Number = Number(n: int, rest: Bytes)

  /** The first `k` bytes and what follows, if there are that many. */
  function Take(k: nat, s: Bytes): Option<(Bytes, Bytes)> {
    if k <= |s| then Some((s[..k], s[k..])) else None
  }

  lemma TakeAll(b: Bytes, rest: Bytes)
    ensures Take(|b|, b + rest) == Some((b, rest))
  {
  }

  /** How many bytes a number may take: Ruby reads up to four, but five are still told apart from one-byte numbers. */
  type Width = k: nat | k == 4 || k == 5 witness 4

  const RUBY: Width := 4

  const WIDEST: Width := 5

  /**
   * "Fixnum and long" in Ruby's doc/marshal.rdoc: the first byte is signed; 1 to 4 and -1 to -4 announce that many
   * bytes.
   */
  function ReadLong(s: Bytes, width: Width): Option<Number> {
    if s == [] then None
    else
      var c: int := s[0];
      if c == 0 then Some(Number(0, s[1..]))
      else if c <= width then
        match Take(c, s[1..])
        case None => None
        case Some((b, rest)) => Some(Number(LittleEndian(b), rest))
      else if c <= 127 then Some(Number(c - 5, s[1..]))
      else if c < 256 - width then Some(Number(c - 256 + 5, s[1..]))
      else
        match Take(256 - c, s[1..])
        case None => None
        case Some((b, rest)) => Some(Number(LittleEndian(b) - Pow256(|b|), rest))
  }

  /** The integers that `width` bytes can carry. */
  predicate InRange(n: int, width: Width) {
    var bound := if width == 4 then 0x1_0000_0000 else 0x100_0000_0000;
    -bound <= n < bound
  }

  lemma {:induction false} LittleEndianBound(b: Bytes)
    ensures LittleEndian(b) < Pow256(|b|)
  {
    if b != [] {
      LittleEndianBound(b[1..]);
    }
  }

  lemma {:induction false} PositiveValue(n: nat)
    ensures LittleEndian(PositiveBytes(n)) == n
  {
    if n != 0 {
      PositiveValue(n / 256);
      assert PositiveBytes(n)[1..] == PositiveBytes(n / 256);
    }
  }

  lemma {:induction false} NegativeValue(n: int)
    requires n < 0
    ensures LittleEndian(NegativeBytes(n)) - Pow256(|NegativeBytes(n)|) == n
    decreases -n
  {
    if n != -1 {
      NegativeValue(n / 256);
      assert NegativeBytes(n)[1..] == NegativeBytes(n / 256);
    }
  }

  lemma {:induction false} PositiveLength(n: nat, k: nat)
    ensures |PositiveBytes(n)| <= k <==> n < Pow256(k)
  {
    if n != 0 && k != 0 {
      PositiveLength(n / 256, k - 1);
    }
  }

  lemma {:induction false} NegativeLength(n: int, k: nat)
    requires n < 0
    ensures |NegativeBytes(n)| <= k <==> 0 <= n + Pow256(k)
    decreases -n
  {
    if n != -1 && k != 0 {
      NegativeLength(n / 256, k - 1);
    }
  }

  lemma FiveBytes()
    ensures Pow256(0) == 1 && Pow256(1) == 0x100 && Pow256(2) == 0x1_0000
    ensures Pow256(3) == 0x100_0000 && Pow256(4) == 0x1_0000_0000 && Pow256(5) == 0x100_0000_0000
  {
    assert Pow256(2) == 256 * Pow256(1);
    assert Pow256(4) == 256 * Pow256(3);
  }

  /** Whatever the input, the reader never returns an integer beyond its width. */
  lemma ReadLongRange(s: Bytes, width: Width)
    ensures ReadLong(s, width).Some? ==> InRange(ReadLong(s, width).value.n, width)
  {
    FiveBytes();
    if s != [] && 0 < s[0] <= width && s[0] < |s| {
      LittleEndianBound(s[1..][..s[0]]);
    } else if s != [] && 256 - width <= s[0] && 256 - s[0] < |s| {
      LittleEndianBound(s[1..][..256 - s[0]]);
    }
  }

  lemma ReadCounted(head: Byte, b: Bytes, rest: Bytes, width: Width)
    requires 1 <= |b| <= width
    ensures head == |b| ==> ReadLong([head] + b + rest, width) == Some(Number(LittleEndian(b), rest))
    ensures head == 256 - |b| ==>
      ReadLong([head] + b + rest, width) == Some(Number(LittleEndian(b) - Pow256(|b|), rest))
  {
    assert ([head] + b + rest)[1..] == b + rest;
    TakeAll(b, rest);
  }

  lemma PackedPositive(n: int, width: Width)
    requires InRange(n, width) && n >= 123
    ensures var b := PositiveBytes(n); 1 <= |b| <= width && Packed(n) == [|b|] + b && LittleEndian(b) == n
  {
    FiveBytes();
    PositiveLength(n, width);
    PositiveLength(n, 0);
    PositiveValue(n);
  }

  lemma PackedNegative(n: int, width: Width)
    requires InRange(n, width) && n <= -124
    ensures
      var b := NegativeBytes(n);
      1 <= |b| <= width && Packed(n) == [256 - |b|] + b && LittleEndian(b) - Pow256(|b|) == n
  {
    FiveBytes();
    NegativeLength(n, width);
    NegativeLength(n, 0);
    NegativeValue(n);
  }

  /** The packing reads back, in front of anything, exactly for the integers that fit the width. */
  lemma LongRoundTrip(n: int, rest: Bytes, width: Width)
    ensures ReadLong(Packed(n) + rest, width) == Some(Number(n, rest)) <==> InRange(n, width)
    ensures !InRange(n, width) ==>
      ReadLong(Packed(n) + rest, width).None? || ReadLong(Packed(n) + rest, width).value.n != n
  {
    if !InRange(n, width) {
      ReadLongRange(Packed(n) + rest, width);
    } else if n >= 123 {
      PackedPositive(n, width);
      ReadCounted(|PositiveBytes(n)|, PositiveBytes(n), rest, width);
    } else if n <= -124 {
      PackedNegative(n, width);
      ReadCounted(256 - |NegativeBytes(n)|, NegativeBytes(n), rest, width);
    } else {
      assert (Packed(n) + rest)[1..] == rest;
    }
  }

  /**
   * A number of six, seven or eight bytes starts with the whole packing of 1, 2 or 3, or of -1, -2 or -3:
   * no reader can be wider than five bytes.
   */
  lemma WideHeaders(n: Int64)
    ensures n >= 0x100_0000_0000 ==>
      var k := |PositiveBytes(n)|;
      6 <= k <= 8 && Packed(k - 5) < Packed(n)
    ensures n < -0x100_0000_0000 ==>
      var k := |NegativeBytes(n)|;
      6 <= k <= 8 && Packed(5 - k) < Packed(n)
  {
    FiveBytes();
    assert Pow256(6) == 256 * Pow256(5) && Pow256(8) == 256 * (256 * Pow256(6));
    hide Pow256;
    if n > 0 {
      PositiveLength(n, 5);
      PositiveLength(n, 8);
    } else if n < 0 {
      NegativeLength(n, 5);
      NegativeLength(n, 8);
    }
  }

  // ------------------------------------------------ the one shortest packing

  lemma {:induction false} LittleEndianInjective(a: Bytes, b: Bytes)
    requires |a| == |b| && LittleEndian(a) == LittleEndian(b)
    ensures a == b
  {
    if a != [] {
      LittleEndianInjective(a[1..], b[1..]);
      assert a == [a[0]] + a[1..] && b == [b[0]] + b[1..];
    }
  }

  /** The first byte tells the class of a number: zero, one byte, or so many bytes of either sign. */
  lemma PackedClasses(n: int)
    requires InRange(n, RUBY)
    ensures n == 0 ==> Packed(n) == [0]
    ensures 0 < n <= 122 ==> Packed(n) == [n + 5] && 6 <= n + 5 <= 127
    ensures -123 <= n < 0 ==> Packed(n) == [n + 251] && 128 <= n + 251 <= 250
    ensures n >= 123 ==> 1 <= Packed(n)[0] <= 4 && |Packed(n)| == 1 + Packed(n)[0]
    ensures n <= -124 ==> 252 <= Packed(n)[0] <= 255 && |Packed(n)| == 257 - Packed(n)[0]
  {
    if n >= 123 {
      PackedPositive(n, RUBY);
    } else if n <= -124 {
      PackedNegative(n, RUBY);
    }
  }

  lemma TakeFrom(k: nat, s: Bytes)
    requires s != [] && Take(k, s[1..]).Some?
    ensures k < |s| && Take(k, s[1..]) == Some((s[1..1 + k], s[1 + k..]))
  {
    assert s[1..][..k] == s[1..1 + k] && s[1..][k..] == s[1 + k..];
  }

  /** How much of a text a number takes, by its first byte. */
  function Span(c: Byte, width: Width): nat {
    if 0 < c <= width then 1 + c else if c >= 256 - width then 257 - c else 1
  }

  lemma ReadSpan(t: Bytes, width: Width)
    requires ReadLong(t, width).Some?
    ensures t != []
    ensures
      var k, r := Span(t[0], width), ReadLong(t, width).value;
      && k <= |t| && r.rest == t[k..]
      && (0 < t[0] <= width ==> r.n == LittleEndian(t[1..k]))
      && (t[0] >= 256 - width ==> r.n == LittleEndian(t[1..k]) - Pow256(k - 1))
      && (t[0] == 0 ==> r.n == 0)
      && (width < t[0] <= 127 ==> r.n + 5 == t[0])
      && (128 <= t[0] < 256 - width ==> r.n + 251 == t[0])
  {
    hide LittleEndian, Pow256, Take;
    var c: int := t[0];
    if 0 < c <= width {
      TakeFrom(c, t);
    } else if c >= 256 - width {
      TakeFrom(256 - c, t);
    }
  }

  /** What a text that reads as a number looks like: one byte, or a header and as many bytes as it announces. */
  lemma ReadShape(s: Bytes, n: int, rest: Bytes, width: Width)
    requires ReadLong(s + rest, width) == Some(Number(n, rest))
    ensures s != [] && |s| == Span(s[0], width)
    ensures 0 < s[0] <= width ==> n == LittleEndian(s[1..])
    ensures s[0] >= 256 - width ==> n == LittleEndian(s[1..]) - Pow256(|s| - 1)
    ensures s[0] == 0 ==> n == 0
    ensures width < s[0] <= 127 ==> n + 5 == s[0]
    ensures 128 <= s[0] < 256 - width ==> n + 251 == s[0]
  {
    hide LittleEndian, Pow256, ReadLong;
    var t := s + rest;
    ReadSpan(t, width);
    assert |s| == Span(t[0], width);
    assert t[0] == s[0] && t[1..|s|] == s[1..];
  }

  /**
   * No text that reads as the number is shorter than its packing, and no other is as short; only Ruby's zero has
   * three.
   */
  lemma PackedShortest(n: int, s: Bytes, rest: Bytes, width: Width)
    requires InRange(n, width) && ReadLong(s + rest, width) == Some(Number(n, rest))
    ensures |Packed(n)| <= |s|
    ensures |s| == |Packed(n)| ==> s == Packed(n) || (n == 0 && width == RUBY && (s == [5] || s == [251]))
  {
    ReadShape(s, n, rest, width);
    var b := s[1..];
    assert s == [s[0]] + b;
    LittleEndianBound(b);
    if n >= 123 {
      PackedPositive(n, width);
      PositiveLength(n, |b|);
      if |s| == |Packed(n)| {
        LittleEndianInjective(b, PositiveBytes(n));
      }
    } else if n <= -124 {
      PackedNegative(n, width);
      NegativeLength(n, |b|);
      if |s| == |Packed(n)| {
        LittleEndianInjective(b, NegativeBytes(n));
      }
    }
  }

  // ------------------------------------------------------------------ values

  datatype Loaded = Loaded(v: Value, rest: Bytes, tab: seq<Bytes>)
  datatype LoadedSymbol = LoadedSymbol(name: Bytes, rest: Bytes, tab: seq<Bytes>)
  datatype LoadedItems = LoadedItems(items: seq<Value>, rest: Bytes, tab: seq<Bytes>)
  datatype LoadedEntries = LoadedEntries(entries: seq<Entry>, rest: Bytes, tab: seq<Bytes>)

  /** A length followed by that many bytes ("Symbols and Byte Sequence"). */
  function ReadBytes(s: Bytes, width: Width): (r: Option<(Bytes, Bytes)>)
    ensures r.Some? ==> |r.value.1| < |s|
  {
    match ReadLong(s, width)
    case None => None
    case Some(Number(k, rest)) => if 0 <= k <= |rest| then Some((rest[..k], rest[k..])) else None
  }

  /** ':' adds a symbol to the reader's table, ';' refers to it by index. */
  function ReadSymbol(s: Bytes, tab: seq<Bytes>, width: Width): (r: Option<LoadedSymbol>)
    ensures r.Some? ==> |r.value.rest| < |s|
  {
    if s == [] then None
    else if s[0] == 58 then
      match ReadBytes(s[1..], width)
      case None => None
      case Some((name, rest)) => Some(LoadedSymbol(name, rest, tab + [name]))
    else if s[0] == 59 then
      match ReadLong(s[1..], width)
      case None => None
      case Some(Number(i, rest)) => if 0 <= i < |tab| then Some(LoadedSymbol(tab[i], rest, tab)) else None
    else None
  }

  /** A UTF-8 string: 'I', '"', the bytes, and the one instance variable :E => true. */
  function ReadString(s: Bytes, tab: seq<Bytes>, width: Width): (r: Option<Loaded>)
    ensures r.Some? ==> |r.value.rest| < |s|
  {
    if |s| < 2 || s[0] != 73 || s[1] != 34 then None
    else
      match ReadBytes(s[2..], width)
      case None => None
      case Some((text, s1)) =>
        match ReadLong(s1, width)
        case None => None
        case Some(Number(count, s2)) =>
          if count != 1 then None
          else
            match ReadSymbol(s2, tab, width)
            case None => None
            case Some(LoadedSymbol(name, s3, tab1)) =>
              if name == E && s3 != [] && s3[0] == 84 then Some(Loaded(Str(text), s3[1..], tab1)) else None
  }

  function ReadValue(s: Bytes, tab: seq<Bytes>, width: Width): (r: Option<Loaded>)
    ensures r.Some? ==> |r.value.rest| < |s|
    decreases |s|, 0, 0
  {
    if s == [] then None
    else
      var c := s[0];
      if c == 48 then Some(Loaded(Nil, s[1..], tab))
      else if c == 84 then Some(Loaded(Bool(true), s[1..], tab))
      else if c == 70 then Some(Loaded(Bool(false), s[1..], tab))
      else if c == 105 then
        match ReadLong(s[1..], width)
        case None => None
        case Some(Number(n, rest)) => ReadLongRange(s[1..], width); Some(Loaded(Int(n), rest, tab))
      else if c == 58 || c == 59 then
        match ReadSymbol(s, tab, width)
        case None => None
        case Some(LoadedSymbol(name, rest, tab1)) => Some(Loaded(Sym(name), rest, tab1))
      else if c == 73 then ReadString(s, tab, width)
      else if c == 91 then
        match ReadLong(s[1..], width)
        case None => None
        case Some(Number(k, s1)) =>
          if k < 0 then None
          else
            match ReadItems(k, s1, tab, width)
            case None => None
            case Some(LoadedItems(items, rest, tab1)) => Some(Loaded(Arr(items), rest, tab1))
      else if c == 123 then
        match ReadLong(s[1..], width)
        case None => None
        case Some(Number(k, s1)) =>
          if k < 0 then None
          else
            match ReadEntries(k, s1, tab, width)
            case None => None
            case Some(LoadedEntries(entries, rest, tab1)) => Some(Loaded(Dict(entries), rest, tab1))
      else None
  }

  function ReadItems(k: nat, s: Bytes, tab: seq<Bytes>, width: Width): (r: Option<LoadedItems>)
    ensures r.Some? ==> |r.value.rest| <= |s| && |r.value.items| == k
    decreases |s|, 1, k
  {
    if k == 0 then Some(LoadedItems([], s, tab))
    else
      match ReadValue(s, tab, width)
      case None => None
      case Some(Loaded(v, s1, tab1)) =>
        match ReadItems(k - 1, s1, tab1, width)
        case None => None
        case Some(LoadedItems(vs, rest, tab2)) => Some(LoadedItems([v] + vs, rest, tab2))
  }

  function ReadEntries(k: nat, s: Bytes, tab: seq<Bytes>, width: Width): (r: Option<LoadedEntries>)
    ensures r.Some? ==> |r.value.rest| <= |s| && |r.value.entries| == k
    decreases |s|, 1, k
  {
    if k == 0 then Some(LoadedEntries([], s, tab))
    else
      match ReadSymbol(s, tab, width)
      case None => None
      case Some(LoadedSymbol(key, s1, tab1)) =>
        match ReadValue(s1, tab1, width)
        case None => None
        case Some(Loaded(v, s2, tab2)) =>
          match ReadEntries(k - 1, s2, tab2, width)
          case None => None
          case Some(LoadedEntries(es, rest, tab3)) => Some(LoadedEntries([Entry(key, v)] + es, rest, tab3))
  }

  /** Marshal.load: version 4.8, one value, nothing after it. */
  function Load(s: Bytes, width: Width): Option<Value> {
    if |s| < 2 || s[0] != 4 || s[1] != 8 then None
    else
      match ReadValue(s[2..], [], width)
      case None => None
      case Some(Loaded(v, rest, _)) => if rest == [] then Some(v) else None
  }
}
