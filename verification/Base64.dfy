/** Base64 after sections 4 and 5 of RFC 4648, and hexadecimal. */
module Base64 {
  import opened Common

  datatype Alphabet = Standard | UrlSafe

  function Letter(n: int, a: Alphabet): Byte
    requires 0 <= n < 64
  {
    if n < 26 then 65 + n
    else if n < 52 then 71 + n
    else if n < 62 then n - 4
    else if n == 62 then (if a.Standard? then 43 else 45)
    else (if a.Standard? then 47 else 95)
  }

  function Sextet(c: Byte, a: Alphabet): (r: Option<int>)
    ensures r.Some? ==> 0 <= r.value < 64
  {
    if 65 <= c <= 90 then Some(c as int - 65)
    else if 97 <= c <= 122 then Some(c as int - 71)
    else if 48 <= c <= 57 then Some(c as int + 4)
    else if c == (if a.Standard? then 43 else 45) then Some(62)
    else if c == (if a.Standard? then 47 else 95) then Some(63)
    else None
  }

  lemma SextetOfLetter(n: int, a: Alphabet)
    requires 0 <= n < 64
    ensures Sextet(Letter(n, a), a) == Some(n)
  {
  }

  const PAD: Byte := 61

  /** Three bytes as four letters; one or two trailing bytes as two or three, padded if asked. */
  function Encode(d: Bytes, a: Alphabet, pad: bool): Bytes {
    if d == [] then []
    else if |d| == 1 then
      [Letter(d[0] / 4, a), Letter(d[0] % 4 * 16, a)] + (if pad then [PAD, PAD] else [])
    else if |d| == 2 then
      [Letter(d[0] / 4, a), Letter(d[0] % 4 * 16 + d[1] / 16, a), Letter(d[1] % 16 * 4, a)]
        + (if pad then [PAD] else [])
    else
      Quad(d, a) + Encode(d[3..], a, pad)
  }

  function Quad(d: Bytes, a: Alphabet): Bytes
    requires |d| >= 3
  {
    [Letter(d[0] / 4, a), Letter(d[0] % 4 * 16 + d[1] / 16, a),
     Letter(d[1] % 16 * 4 + d[2] / 64, a), Letter(d[2] % 64, a)]
  }

  /** The bytes of two, three or four letters; low bits left over are dropped, as Go's decoder does. */
  function Group(s: Bytes, n: nat, a: Alphabet): Option<Bytes>
    requires 2 <= n <= 4 && n <= |s|
  {
    var v0, v1 := Sextet(s[0], a), Sextet(s[1], a);
    if v0.None? || v1.None? then None
    else if n == 2 then Some([v0.value * 4 + v1.value / 16])
    else
      var v2 := Sextet(s[2], a);
      if v2.None? then None
      else if n == 3 then Some([v0.value * 4 + v1.value / 16, v1.value % 16 * 16 + v2.value / 4])
      else
        var v3 := Sextet(s[3], a);
        if v3.None? then None
        else Some([v0.value * 4 + v1.value / 16, v1.value % 16 * 16 + v2.value / 4, v2.value % 4 * 64 + v3.value])
  }

  function Decode(s: Bytes, a: Alphabet, pad: bool): Option<Bytes> {
    if s == [] then Some([])
    else if pad && |s| == 4 && s[2] == PAD && s[3] == PAD then Group(s, 2, a)
    else if pad && |s| == 4 && s[3] == PAD then Group(s, 3, a)
    else if !pad && 2 <= |s| <= 3 then Group(s, |s|, a)
    else if |s| < 4 then None
    else
      var head, tail := Group(s, 4, a), Decode(s[4..], a, pad);
      if head.None? || tail.None? then None else Some(head.value + tail.value)
  }

  lemma Regrouped(x: Byte, y: Byte, z: Byte)
    ensures x / 4 * 4 + (x % 4 * 16 + y / 16) / 16 == x
    ensures (x % 4 * 16 + y / 16) % 16 * 16 + (y % 16 * 4 + z / 64) / 4 == y
    ensures (y % 16 * 4 + z / 64) % 4 * 64 + z % 64 == z
  {
  }

  lemma QuadDecodes(d: Bytes, a: Alphabet, t: Bytes)
    requires |d| >= 3
    ensures Group(Quad(d, a) + t, 4, a) == Some(d[..3]) && Quad(d, a)[3] != PAD
  {
    var s := Quad(d, a) + t;
    SextetOfLetter(d[0] / 4, a);
    SextetOfLetter(d[0] % 4 * 16 + d[1] / 16, a);
    SextetOfLetter(d[1] % 16 * 4 + d[2] / 64, a);
    SextetOfLetter(d[2] % 64, a);
    Regrouped(d[0], d[1], d[2]);
    assert d[..3] == [d[0], d[1], d[2]];
    assert s[0] == Quad(d, a)[0] && s[1] == Quad(d, a)[1] && s[2] == Quad(d, a)[2] && s[3] == Quad(d, a)[3];
  }

  lemma OneByteDecodes(x: Byte, a: Alphabet, pad: bool)
    ensures Decode(Encode([x], a, pad), a, pad) == Some([x])
  {
    SextetOfLetter(x / 4, a);
    SextetOfLetter(x % 4 * 16, a);
    Regrouped(x, 0, 0);
  }

  lemma TripletDecodes(s: Bytes, x: Byte, y: Byte, a: Alphabet)
    requires |s| >= 3
    requires s[0] == Letter(x / 4, a) && s[1] == Letter(x % 4 * 16 + y / 16, a) && s[2] == Letter(y % 16 * 4, a)
    ensures Group(s, 3, a) == Some([x, y]) && s[2] != PAD
  {
    SextetOfLetter(x / 4, a);
    SextetOfLetter(x % 4 * 16 + y / 16, a);
    SextetOfLetter(y % 16 * 4, a);
    Regrouped(x, y, 0);
  }

  lemma TwoBytesDecode(x: Byte, y: Byte, a: Alphabet, pad: bool)
    ensures Decode(Encode([x, y], a, pad), a, pad) == Some([x, y])
  {
    TripletDecodes(Encode([x, y], a, pad), x, y, a);
  }

  /** Base64 text decodes to the bytes it encodes, in both alphabets, padded or not. */
  lemma {:induction false} DecodeEncode(d: Bytes, a: Alphabet, pad: bool)
    ensures Decode(Encode(d, a, pad), a, pad) == Some(d)
    decreases |d|
  {
    if |d| >= 3 {
      var t := Encode(d[3..], a, pad);
      var s := Quad(d, a) + t;
      QuadDecodes(d, a, t);
      DecodeEncode(d[3..], a, pad);
      assert s[4..] == t && s[3] == Quad(d, a)[3];
      assert d == d[..3] + d[3..];
    } else if |d| == 2 {
      assert d == [d[0], d[1]];
      TwoBytesDecode(d[0], d[1], a, pad);
    } else if |d| == 1 {
      assert d == [d[0]];
      OneByteDecodes(d[0], a, pad);
    }
  }

  /** Neither '.' nor a control character, quotation mark or backslash. */
  predicate Plain(c: Byte) { 0x20 <= c < 0x80 && c != 34 && c != 46 && c != 92 }

  lemma {:induction false} EncodePlain(d: Bytes, a: Alphabet, pad: bool)
    ensures forall i :: 0 <= i < |Encode(d, a, pad)| ==> Plain(Encode(d, a, pad)[i])
    decreases |d|
  {
    if |d| >= 3 {
      EncodePlain(d[3..], a, pad);
    }
  }

  /** The text without line breaks, which Go's decoder passes over wherever they stand. */
  function Joined(s: Bytes): Bytes {
    if s == [] then []
    else if s[0] == 10 || s[0] == 13 then Joined(s[1..])
    else [s[0]] + Joined(s[1..])
  }

  /** DecodeString. */
  function DecodeString(s: Bytes, a: Alphabet, pad: bool): Option<Bytes> { Decode(Joined(s), a, pad) }

  lemma {:induction false} JoinedPlain(s: Bytes)
    requires forall i :: 0 <= i < |s| ==> Plain(s[i])
    ensures Joined(s) == s
  {
    if s != [] {
      JoinedPlain(s[1..]);
    }
  }

  lemma DecodeStringEncode(d: Bytes, a: Alphabet, pad: bool)
    ensures DecodeString(Encode(d, a, pad), a, pad) == Some(d)
  {
    EncodePlain(d, a, pad);
    JoinedPlain(Encode(d, a, pad));
    DecodeEncode(d, a, pad);
  }

  lemma {:induction false} JoinedAppend(s: Bytes, t: Bytes)
    ensures Joined(s + t) == Joined(s) + Joined(t)
  {
    if s == [] {
      assert s + t == t;
    } else {
      assert (s + t)[1..] == s[1..] + t;
      JoinedAppend(s[1..], t);
    }
  }

  /** Line breaks anywhere in a Base64 text make no difference. */
  lemma DecodeBroken(s: Bytes, t: Bytes, a: Alphabet, pad: bool, c: Byte)
    requires c == 10 || c == 13
    ensures DecodeString(s + [c] + t, a, pad) == DecodeString(s + t, a, pad)
  {
    hide Joined;
    JoinedBreak(c);
    JoinedAppend(s + [c], t);
    JoinedAppend(s, [c]);
    JoinedAppend(s, t);
    assert Joined(s) + [] == Joined(s);
  }

  lemma JoinedBreak(c: Byte)
    requires c == 10 || c == 13
    ensures Joined([c]) == []
  {
    assert [c][1..] == [];
  }

  // -------------------------------------------------------------------- hex

  function Hex(d: Bytes): Bytes {
    if d == [] then [] else [HexDigit(d[0] / 16), HexDigit(d[0] % 16)] + Hex(d[1..])
  }

  predicate IsHex(c: Byte) { 48 <= c <= 57 || 97 <= c <= 102 }

  lemma {:induction false} HexAlphabet(d: Bytes)
    ensures |Hex(d)| == 2 * |d| && forall i :: 0 <= i < |Hex(d)| ==> IsHex(Hex(d)[i])
  {
    if d != [] {
      HexAlphabet(d[1..]);
    }
  }

  lemma {:induction false} HexInjective(a: Bytes, b: Bytes)
    requires Hex(a) == Hex(b)
    ensures a == b
  {
    HexAlphabet(a);
    HexAlphabet(b);
    if a != [] {
      var x, y := Hex(a), Hex(b);
      assert x[0] == y[0] && x[1] == y[1];
      assert x[2..] == Hex(a[1..]) && y[2..] == Hex(b[1..]);
      HexInjective(a[1..], b[1..]);
      assert a == [a[0]] + a[1..] && b == [b[0]] + b[1..];
    }
  }

  /** The value of a hexadecimal digit, in lower case. */
  function Nibble(c: Byte): int { if c < 58 then c - 48 else c - 87 }

  /** Two lower-case digits for each byte, the high one first. */
  lemma {:induction false} HexDigits(d: Bytes, i: nat)
    requires i < |d|
    ensures |Hex(d)| == 2 * |d|
    ensures Nibble(Hex(d)[2 * i]) * 16 + Nibble(Hex(d)[2 * i + 1]) == d[i]
    ensures 0 <= Nibble(Hex(d)[2 * i + 1]) < 16
  {
    HexAlphabet(d);
    if i > 0 {
      HexDigits(d[1..], i - 1);
      HexAlphabet(d[1..]);
      assert Hex(d)[2..] == Hex(d[1..]);
    }
  }

  // ---------------------------------------------------------- the two alphabets

  /** The letters are those of sections 4 and 5 of RFC 4648, in order. */
  lemma Alphabets(n: nat)
    requires n < 64
    ensures n < 62 ==>
      Letter(n, Standard) == Letter(n, UrlSafe)
        == if n < 26 then 'A' as int + n else if n < 52 then 'a' as int + (n - 26) else '0' as int + (n - 52)
    ensures n == 62 ==> Letter(n, Standard) == '+' as int && Letter(n, UrlSafe) == '-' as int
    ensures n == 63 ==> Letter(n, Standard) == '/' as int && Letter(n, UrlSafe) == '_' as int
  {
  }

  /** Bytes as one number, the first byte leading. */
  function BigEndian(d: Bytes): nat {
    if d == [] then 0 else BigEndian(d[..|d| - 1]) * 256 + d[|d| - 1]
  }

  /** Letters as one number in base 64, the first letter leading. */
  function LettersValue(s: Bytes, a: Alphabet): Option<nat> {
    if s == [] then Some(0)
    else
      var front, last := LettersValue(s[..|s| - 1], a), Sextet(s[|s| - 1], a);
      if front.None? || last.None? then None else Some(front.value * 64 + last.value)
  }

  lemma OneMoreLetter(s: Bytes, c: Byte, a: Alphabet, v: nat, x: nat)
    requires LettersValue(s, a) == Some(v) && Sextet(c, a) == Some(x)
    ensures LettersValue(s + [c], a) == Some(v * 64 + x)
  {
    hide Sextet;
    assert (s + [c])[..|s|] == s;
  }

  lemma ThreeBytes(x: Byte, y: Byte, z: Byte)
    ensures BigEndian([x]) == x as int
    ensures BigEndian([x, y]) == (x as int) * 256 + y
    ensures BigEndian([x, y, z]) == ((x as int) * 256 + y) * 256 + z
  {
    assert [x][..0] == [] && [x, y][..1] == [x] && [x, y, z][..2] == [x, y];
    assert BigEndian([x]) == x as int;
  }

  /** Three bytes are four letters of the same number. */
  lemma QuadValue(d: Bytes, a: Alphabet)
    requires |d| >= 3
    ensures LettersValue(Quad(d, a), a) == Some(BigEndian(d[..3]))
  {
    hide LettersValue, BigEndian, Letter, Sextet;
    var v0: nat, v1: nat := d[0] / 4, d[0] % 4 * 16 + d[1] / 16;
    var v2: nat, v3: nat := d[1] % 16 * 4 + d[2] / 64, d[2] % 64;
    var q := Quad(d, a);
    FirstLetters(v0, v1, a);
    OneMoreLetter(q[..2], q[2], a, v0 * 64 + v1, v2) by {
      SextetOfLetter(v2, a);
      assert q[..2] == [Letter(v0, a), Letter(v1, a)];
    }
    OneMoreLetter(q[..3], q[3], a, (v0 * 64 + v1) * 64 + v2, v3) by {
      SextetOfLetter(v3, a);
      assert q[..2] + [q[2]] == q[..3];
    }
    assert q[..3] + [q[3]] == q && d[..3] == [d[0], d[1], d[2]];
    ThreeBytes(d[0], d[1], d[2]);
  }

  lemma FirstLetters(v0: nat, v1: nat, a: Alphabet)
    requires v0 < 64 && v1 < 64
    ensures LettersValue([Letter(v0, a), Letter(v1, a)], a) == Some(v0 * 64 + v1)
  {
    SextetOfLetter(v0, a);
    SextetOfLetter(v1, a);
    hide Letter, Sextet;
    OneMoreLetter([], Letter(v0, a), a, 0, v0);
    assert [] + [Letter(v0, a)] == [Letter(v0, a)];
    OneMoreLetter([Letter(v0, a)], Letter(v1, a), a, v0, v1);
    assert [Letter(v0, a)] + [Letter(v1, a)] == [Letter(v0, a), Letter(v1, a)];
  }

  /**
   * One or two bytes at the end are filled up with zero bits to whole letters, and padded to four characters if
   * asked.
   */
  lemma TailValue(d: Bytes, a: Alphabet, pad: bool)
    requires 1 <= |d| <= 2
    ensures
      var s := Encode(d, a, pad);
      && |s| == (if pad then 4 else |d| + 1) && (forall i :: |d| < i < |s| ==> s[i] == PAD)
      && LettersValue(s[..|d| + 1], a) == Some(BigEndian(d) * if |d| == 1 then 16 else 4)
  {
    hide LettersValue, BigEndian, Letter, Sextet;
    var s := Encode(d, a, pad)[..|d| + 1];
    if |d| == 1 {
      FirstLetters(d[0] / 4, d[0] % 4 * 16, a);
      assert s == [Letter(d[0] / 4, a), Letter(d[0] % 4 * 16, a)] && d == [d[0]];
      ThreeBytes(d[0], 0, 0);
    } else {
      var v0: nat, v1: nat, v2: nat := d[0] / 4, d[0] % 4 * 16 + d[1] / 16, d[1] % 16 * 4;
      FirstLetters(v0, v1, a);
      SextetOfLetter(v2, a);
      OneMoreLetter([Letter(v0, a), Letter(v1, a)], Letter(v2, a), a, v0 * 64 + v1, v2);
      assert s == [Letter(v0, a), Letter(v1, a)] + [Letter(v2, a)] && d == [d[0], d[1]];
      ThreeBytes(d[0], d[1], 0);
    }
  }
}
