/** UTF-8 as Go's `range` over a string and WriteRune see it. */
module Utf8 {
  import opened Common

  /** A Unicode scalar value. */
  type CodePoint = c: int | 0 <= c <= 0x10FFFF && !(0xD800 <= c <= 0xDFFF)

  const REPLACEMENT: CodePoint := 0xFFFD

  datatype Step = Step(code: CodePoint, width: nat)

  predicate Continuation(b: Byte) { 0x80 <= b <= 0xBF }

  /** Six more bits from a continuation byte. */
  function Shift(high: int, b: Byte): int { high * 0x40 + (b as int - 0x80) }

  lemma ShiftInverse(high: nat, b: Byte)
    requires Continuation(b)
    ensures Shift(high, b) / 0x40 == high && 0x80 + Shift(high, b) % 0x40 == b
  {
  }

  lemma ShiftBack(c: nat)
    ensures Shift(c / 0x40, 0x80 + c % 0x40) == c && Continuation(0x80 + c % 0x40)
  {
  }

  /** One round of `range`: an invalid byte counts as U+FFFD of width 1. */
  function DecodeRune(s: Bytes): (r: Step)
    requires s != []
    ensures 1 <= r.width <= |s|
  {
    var b: int := s[0];
    if b < 0x80 then Step(b, 1)
    else if 0xC2 <= b <= 0xDF && |s| >= 2 && Continuation(s[1]) then
      Step(Shift(b - 0xC0, s[1]), 2)
    else if 0xE0 <= b <= 0xEF && |s| >= 3 && Continuation(s[1]) && Continuation(s[2])
         && (b == 0xE0 ==> s[1] >= 0xA0) && (b == 0xED ==> s[1] <= 0x9F) then
      Step(Shift(Shift(b - 0xE0, s[1]), s[2]), 3)
    else if 0xF0 <= b <= 0xF4 && |s| >= 4 && Continuation(s[1]) && Continuation(s[2]) && Continuation(s[3])
         && (b == 0xF0 ==> s[1] >= 0x90) && (b == 0xF4 ==> s[1] <= 0x8F) then
      Step(Shift(Shift(Shift(b - 0xF0, s[1]), s[2]), s[3]), 4)
    else Step(REPLACEMENT, 1)
  }

  /** The round did not meet an invalid byte. */
  predicate Clean(r: Step) { r.code == REPLACEMENT ==> r.width != 1 }

  function EncodeRune(c: CodePoint): (b: Bytes)
    ensures 1 <= |b| <= 4
  {
    if c < 0x80 then [c]
    else if c < 0x800 then [0xC0 + c / 0x40, 0x80 + c % 0x40]
    else if c < 0x10000 then [0xE0 + c / 0x40 / 0x40, 0x80 + c / 0x40 % 0x40, 0x80 + c % 0x40]
    else [0xF0 + c / 0x40 / 0x40 / 0x40, 0x80 + c / 0x40 / 0x40 % 0x40, 0x80 + c / 0x40 % 0x40, 0x80 + c % 0x40]
  }

  /** The code points that `range` yields. */
  function Runes(s: Bytes): seq<CodePoint>
    decreases |s|
  {
    if s == [] then []
    else
      var r := DecodeRune(s);
      [r.code] + Runes(s[r.width..])
  }

  function EncodeAll(rs: seq<CodePoint>): Bytes {
    if rs == [] then [] else EncodeRune(rs[0]) + EncodeAll(rs[1..])
  }

  /** No round of `range` meets an invalid byte. */
  predicate ValidUtf8(s: Bytes)
    decreases |s|
  {
    s == [] || (Clean(DecodeRune(s)) && ValidUtf8(s[DecodeRune(s).width..]))
  }

  /** The string with each invalid byte replaced by U+FFFD. */
  function Scrub(s: Bytes): Bytes { EncodeAll(Runes(s)) }

  lemma DecodeEncodedRune(c: CodePoint, t: Bytes)
    ensures DecodeRune(EncodeRune(c) + t) == Step(c, |EncodeRune(c)|)
    ensures (EncodeRune(c) + t)[|EncodeRune(c)|..] == t
  {
    var s := EncodeRune(c) + t;
    if c >= 0x80 {
      ShiftBack(c);
      ShiftBack(c / 0x40);
      ShiftBack(c / 0x40 / 0x40);
      var b := EncodeRune(c);
      assert forall i :: 0 <= i < |b| ==> s[i] == b[i];
    }
  }

  lemma EncodeDecodedRune(s: Bytes)
    requires s != [] && Clean(DecodeRune(s))
    ensures EncodeRune(DecodeRune(s).code) == s[..DecodeRune(s).width]
  {
    var w := DecodeRune(s).width;
    if w == 2 {
      ShiftInverse(s[0] - 0xC0, s[1]);
    } else if w == 3 {
      var h := Shift(s[0] - 0xE0, s[1]);
      ShiftInverse(s[0] - 0xE0, s[1]);
      ShiftInverse(h, s[2]);
    } else if w == 4 {
      var h := Shift(s[0] - 0xF0, s[1]);
      ShiftInverse(s[0] - 0xF0, s[1]);
      ShiftInverse(h, s[2]);
      ShiftInverse(Shift(h, s[2]), s[3]);
    }
  }

  lemma {:induction false} RunesOfEncoding(rs: seq<CodePoint>)
    ensures Runes(EncodeAll(rs)) == rs && ValidUtf8(EncodeAll(rs))
  {
    if rs != [] {
      DecodeEncodedRune(rs[0], EncodeAll(rs[1..]));
      RunesOfEncoding(rs[1..]);
    }
  }

  lemma EncodeAllCons(c: CodePoint, rs: seq<CodePoint>)
    ensures EncodeAll([c] + rs) == EncodeRune(c) + EncodeAll(rs)
  {
    assert ([c] + rs)[1..] == rs;
  }

  lemma ScrubStep(s: Bytes)
    requires s != []
    ensures Scrub(s) == EncodeRune(DecodeRune(s).code) + Scrub(s[DecodeRune(s).width..])
  {
    EncodeAllCons(DecodeRune(s).code, Runes(s[DecodeRune(s).width..]));
  }

  lemma CleanStep(s: Bytes, w: nat, b: Bytes)
    requires w <= |s| && b == s[..w]
    ensures b + s[w..] == s
  {
  }

  lemma {:induction false} ValidIsFixed(s: Bytes)
    requires ValidUtf8(s)
    ensures Scrub(s) == s
    decreases |s|
  {
    if s != [] {
      var r := DecodeRune(s);
      ScrubStep(s);
      EncodeDecodedRune(s);
      CleanStep(s, r.width, EncodeRune(r.code));
      ValidIsFixed(s[r.width..]);
    }
  }

  /** Scrubbing changes exactly the strings that are not UTF-8, and its result always is. */
  lemma ScrubChangesInvalid(s: Bytes)
    ensures Scrub(s) == s <==> ValidUtf8(s)
    ensures ValidUtf8(Scrub(s)) && Runes(Scrub(s)) == Runes(s)
  {
    RunesOfEncoding(Runes(s));
    if ValidUtf8(s) {
      ValidIsFixed(s);
    }
  }

  predicate IsAscii(s: Bytes) { forall i :: 0 <= i < |s| ==> s[i] < 0x80 }

  lemma {:induction false} RunesOfAscii(s: Bytes)
    requires IsAscii(s)
    ensures ValidUtf8(s) && Runes(s) == s
    decreases |s|
  {
    if s != [] {
      RunesOfAscii(s[1..]);
    }
  }

  /** Six more bits, from a continuation byte. */
  function More(bits: int, b: Byte): int { bits * 0x40 + (b as int - 0x80) }

  /**
   * The bits of a code point in the table of section 3 of RFC 3629: six to each continuation byte, the rest in the
   * first.
   */
  lemma EncodedBits(c: CodePoint)
    ensures forall i :: 1 <= i < |EncodeRune(c)| ==> Continuation(EncodeRune(c)[i])
    ensures c < 0x80 ==> EncodeRune(c) == [c]
    ensures 0x80 <= c < 0x800 ==>
      var b := EncodeRune(c);
      |b| == 2 && 0xC0 <= b[0] < 0xE0 && More(b[0] as int - 0xC0, b[1]) == c
    ensures 0x800 <= c < 0x1_0000 ==>
      var b := EncodeRune(c);
      |b| == 3 && 0xE0 <= b[0] < 0xF0 && More(More(b[0] as int - 0xE0, b[1]), b[2]) == c
    ensures c >= 0x1_0000 ==>
      var b := EncodeRune(c);
      |b| == 4 && 0xF0 <= b[0] < 0xF8 && More(More(More(b[0] as int - 0xF0, b[1]), b[2]), b[3]) == c
  {
  }

  /** A round of `range` takes a whole encoding if the text starts with one, and otherwise one byte, as U+FFFD. */
  lemma DecodedExactly(s: Bytes, c: CodePoint)
    requires s != []
    ensures EncodeRune(c) <= s ==> DecodeRune(s) == Step(c, |EncodeRune(c)|)
    ensures (forall x: CodePoint :: !(EncodeRune(x) <= s)) ==> DecodeRune(s) == Step(REPLACEMENT, 1)
  {
    hide DecodeRune, EncodeRune;
    if EncodeRune(c) <= s {
      DecodeEncodedRune(c, s[|EncodeRune(c)|..]);
      assert s == EncodeRune(c) + s[|EncodeRune(c)|..];
    } else if Clean(DecodeRune(s)) {
      EncodeDecodedRune(s);
      assert EncodeRune(DecodeRune(s).code) <= s;
    }
  }
}
