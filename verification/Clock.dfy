/** Instants as civil UTC fields, and the ISO 8601 layout "2006-01-02T15:04:05.000Z" of the metadata envelope. */
module Clock {
  import opened Common
  import opened Decimal

  datatype Instant = Instant(year: int, month: int, day: int, hour: int, minute: int, second: int, nano: int)

  predicate Leap(year: int) { year % 4 == 0 && (year % 100 != 0 || year % 400 == 0) }

  function DaysIn(month: int, year: int): int {
    if month == 2 then (if Leap(year) then 29 else 28)
    else if month == 4 || month == 6 || month == 9 || month == 11 then 30
    else 31
  }

  predicate Proper(t: Instant) {
    && 1 <= t.month <= 12 && 1 <= t.day <= DaysIn(t.month, t.year)
    && 0 <= t.hour < 24 && 0 <= t.minute < 60 && 0 <= t.second < 60
    && 0 <= t.nano < 1_000_000_000
  }

  type Time = t: Instant | Proper(t) witness Instant(1, 1, 1, 0, 0, 0, 0)

  /** time.Time{}: no expiry. */
  const ZERO: Time := Instant(1, 1, 1, 0, 0, 0, 0)

  predicate Before(a: Time, b: Time) {
    || a.year < b.year
    || (a.year == b.year && (a.month < b.month
    || (a.month == b.month && (a.day < b.day
    || (a.day == b.day && (a.hour < b.hour
    || (a.hour == b.hour && (a.minute < b.minute
    || (a.minute == b.minute && (a.second < b.second
    || (a.second == b.second && a.nano < b.nano)))))))))))
  }

  /** The instant without what is below a millisecond. */
  function Truncated(t: Time): Time { t.(nano := t.nano / 1_000_000 * 1_000_000) }

  /** Decimal, zero-padded on the left to at least `width` digits. */
  function Padded(n: nat, width: nat): Bytes {
    if width == 0 then (if n == 0 then [] else Digits(n)) else Padded(n / 10, width - 1) + [48 + n % 10]
  }

  function FormatYear(year: int): Bytes {
    if year < 0 then [45] + Padded(-year, 4) else Padded(year, 4)
  }

  function FormatDate(t: Time): Bytes {
    FormatYear(t.year) + [45] + Padded(t.month, 2) + [45] + Padded(t.day, 2)
  }

  function FormatClock(t: Time): Bytes {
    Padded(t.hour, 2) + [58] + Padded(t.minute, 2) + [58] + Padded(t.second, 2) + [46] + Padded(t.nano / 1_000_000, 3)
  }

  function Format(t: Time): Bytes { FormatDate(t) + [84] + FormatClock(t) + [90] }

  function Field(s: Bytes, i: nat, width: nat): Option<nat>
    requires i + width <= |s|
  {
    if AllDigits(s[i..i + width]) then Some(DigitsValue(s[i..i + width])) else None
  }

  /** The layout's "15" also takes a single digit; with a zero in front the columns are fixed again. */
  function FullHour(s: Bytes): Bytes {
    if |s| == 23 && s[12] == 58 then s[..11] + [48] + s[11..] else s
  }

  /** Go takes a comma for the point too. */
  predicate Points(c: Byte) { c == 46 || c == 44 }

  /** The layout's ".000" takes any three characters that read as an integer, signed or not, that is not negative. */
  function Fraction(s: Bytes): Option<nat>
    requires |s| == 3
  {
    if AllDigits(s) then Some(DigitsValue(s))
    else if s[0] == 43 && AllDigits(s[1..]) then Some(DigitsValue(s[1..]))
    else if s == [45, 48, 48] then Some(0)
    else None
  }

  /** time.Parse with that layout: fixed columns but for those two, numbers in range, a day the month has. */
  function ParseTime(text: Bytes): Option<Time> {
    var s := FullHour(text);
    if |s| != 24 || s[4] != 45 || s[7] != 45 || s[10] != 84 then None
    else if s[13] != 58 || s[16] != 58 || !Points(s[19]) || s[23] != 90 then None
    else
      var y, mo, d := Field(s, 0, 4), Field(s, 5, 2), Field(s, 8, 2);
      var h, mi, sec, ms := Field(s, 11, 2), Field(s, 14, 2), Field(s, 17, 2), Fraction(s[20..23]);
      if y.None? || mo.None? || d.None? || h.None? || mi.None? || sec.None? || ms.None? then None
      else
        var t := Instant(y.value, mo.value, d.value, h.value, mi.value, sec.value, ms.value * 1_000_000);
        if Proper(t) then Some(t) else None
  }

  function Pow10(k: nat): nat { if k == 0 then 1 else 10 * Pow10(k - 1) }

  lemma {:induction false} PaddedLength(n: nat, width: nat)
    ensures |Padded(n, width)| >= width && AllDigits(Padded(n, width))
    ensures |Padded(n, width)| == width <==> n < Pow10(width)
  {
    if width != 0 {
      PaddedLength(n / 10, width - 1);
    }
  }

  lemma {:induction false} PaddedValue(n: nat, width: nat)
    requires n < Pow10(width)
    ensures AllDigits(Padded(n, width)) && DigitsValue(Padded(n, width)) == n
  {
    PaddedLength(n, width);
    if width != 0 {
      PaddedValue(n / 10, width - 1);
      assert Padded(n, width)[..|Padded(n, width)| - 1] == Padded(n / 10, width - 1);
    }
  }

  lemma PaddedField(s: Bytes, i: nat, n: nat, width: nat)
    requires n < Pow10(width) && i + width <= |s| && s[i..i + width] == Padded(n, width)
    ensures Field(s, i, width) == Some(n)
  {
    PaddedValue(n, width);
  }

  predicate FourDigitYear(t: Time) { 0 <= t.year <= 9999 }

  lemma FormatLength(t: Time)
    ensures |Format(t)| >= 24 && (|Format(t)| == 24 <==> FourDigitYear(t))
  {
    PaddedLength(if t.year < 0 then -t.year else t.year, 4);
    PaddedLength(t.month, 2);
    PaddedLength(t.day, 2);
    PaddedLength(t.hour, 2);
    PaddedLength(t.minute, 2);
    PaddedLength(t.second, 2);
    PaddedLength(t.nano / 1_000_000, 3);
  }

  lemma DateColumns(t: Time)
    requires FourDigitYear(t)
    ensures
      var s := FormatDate(t);
      && |s| == 10 && s[4] == 45 && s[7] == 45
      && s[0..4] == Padded(t.year, 4) && s[5..7] == Padded(t.month, 2) && s[8..10] == Padded(t.day, 2)
  {
    PaddedLength(t.year, 4);
    PaddedLength(t.month, 2);
    PaddedLength(t.day, 2);
  }

  lemma ClockColumns(t: Time)
    ensures
      var s := FormatClock(t);
      && |s| == 12 && s[2] == 58 && s[5] == 58 && s[8] == 46
      && s[0..2] == Padded(t.hour, 2) && s[3..5] == Padded(t.minute, 2) && s[6..8] == Padded(t.second, 2)
      && s[9..12] == Padded(t.nano / 1_000_000, 3)
  {
    PaddedLength(t.hour, 2);
    PaddedLength(t.minute, 2);
    PaddedLength(t.second, 2);
    PaddedLength(t.nano / 1_000_000, 3);
  }

  lemma FormatColumns(s: Bytes, date: Bytes, clock: Bytes)
    requires |date| == 10 && |clock| == 12 && s == date + [84] + clock + [90]
    ensures |s| == 24 && s[10] == 84 && s[23] == 90
    ensures forall i :: 0 <= i < 10 ==> s[i] == date[i]
    ensures forall i :: 0 <= i < 12 ==> s[i + 11] == clock[i]
    ensures s[0..4] == date[0..4] && s[5..7] == date[5..7] && s[8..10] == date[8..10]
    ensures s[11..13] == clock[0..2] && s[14..16] == clock[3..5]
    ensures s[17..19] == clock[6..8] && s[20..23] == clock[9..12]
  {
    assert s[11..23] == clock;
    assert s[11..23][0..2] == s[11..13] && s[11..23][3..5] == s[14..16];
    assert s[11..23][6..8] == s[17..19] && s[11..23][9..12] == s[20..23];
  }

  /** A written expiry reads back to the millisecond, exactly for years of four digits. */
  lemma ParseFormat(t: Time)
    ensures ParseTime(Format(t)) == if FourDigitYear(t) then Some(Truncated(t)) else None
  {
    FormatLength(t);
    if FourDigitYear(t) {
      var s := Format(t);
      DateColumns(t);
      ClockColumns(t);
      FormatColumns(s, FormatDate(t), FormatClock(t));
      assert s[13] == FormatClock(t)[2] && s[16] == FormatClock(t)[5] && s[19] == FormatClock(t)[8];
      PaddedField(s, 0, t.year, 4);
      PaddedField(s, 5, t.month, 2);
      PaddedField(s, 8, t.day, 2);
      PaddedField(s, 11, t.hour, 2);
      PaddedField(s, 14, t.minute, 2);
      PaddedField(s, 17, t.second, 2);
      PaddedField(s, 20, t.nano / 1_000_000, 3);
    }
  }

  /** Other texts are read as the same instant: an hour without its leading zero, a comma, a sign in the fraction. */
  lemma ParseVariants(s: Bytes)
    requires |s| == 24
    ensures s[11] == 48 && s[13] == 58 ==> ParseTime(s[..11] + s[12..]) == ParseTime(s)
    ensures s[19] == 46 ==> ParseTime(s[19 := 44]) == ParseTime(s)
    ensures s[20] == 48 && IsDigit(s[21]) && IsDigit(s[22]) ==> ParseTime(s[20 := 43]) == ParseTime(s)
    ensures s[20] == s[21] == s[22] == 48 ==> ParseTime(s[20 := 45]) == ParseTime(s)
  {
    hide Field, Fraction, Proper;
    var short := s[..11] + s[12..];
    if s[11] == 48 && s[13] == 58 {
      assert short[12] == 58 && FullHour(short) == s;
    }
    SameFields(s, 19, 44);
    assert s[19 := 44][20..23] == s[20..23];
    SameFields(s, 20, 43);
    SameFields(s, 20, 45);
    SignedFraction(s[21], s[22]);
    assert s[20..23] == [s[20], s[21], s[22]];
    assert s[20 := 43][20..23] == [43, s[21], s[22]] && s[20 := 45][20..23] == [45, s[21], s[22]];
  }

  lemma SameFields(s: Bytes, i: nat, x: Byte)
    requires |s| == 24 && i >= 19 && i < 24
    ensures
      var c := s[i := x];
      && FullHour(c) == c
      && Field(c, 0, 4) == Field(s, 0, 4) && Field(c, 5, 2) == Field(s, 5, 2) && Field(c, 8, 2) == Field(s, 8, 2)
      && Field(c, 11, 2) == Field(s, 11, 2) && Field(c, 14, 2) == Field(s, 14, 2)
      && Field(c, 17, 2) == Field(s, 17, 2)
  {
    var c := s[i := x];
    assert c[0..4] == s[0..4] && c[5..7] == s[5..7] && c[8..10] == s[8..10];
    assert c[11..13] == s[11..13] && c[14..16] == s[14..16] && c[17..19] == s[17..19];
  }

  lemma SignedFraction(y: Byte, z: Byte)
    ensures IsDigit(y) && IsDigit(z) ==> Fraction([43, y, z]) == Fraction([48, y, z])
    ensures y == z == 48 ==> Fraction([45, y, z]) == Fraction([48, y, z])
  {
    if IsDigit(y) && IsDigit(z) {
      assert [43, y, z][1..] == [y, z] && !IsDigit([43, y, z][0]);
      var yz := [y, z];
      assert [48, y, z][..2] == [48, y] && [48, y][..1] == [48] && [48][..0] == [];
      assert yz[..1] == [y] && [y][..0] == [];
      assert DigitsValue([48]) == 0 && DigitsValue([y]) == y - 48 && DigitsValue([48, y]) == y - 48;
      assert !IsDigit([45, y, z][0]);
    }
  }

  // --------------------------------------------------------------- the calendar

  /** Its fields, the year first. */
  function Fields(t: Instant): seq<int> { [t.year, t.month, t.day, t.hour, t.minute, t.second, t.nano] }

  /** Earlier means smaller in the first field that differs, counting from the year. */
  lemma BeforeIsLexicographic(a: Time, b: Time)
    ensures Before(a, b) <==>
      exists i :: 0 <= i < 7 && Fields(a)[i] < Fields(b)[i] && forall j :: 0 <= j < i ==> Fields(a)[j] == Fields(b)[j]
  {
    var x, y := Fields(a), Fields(b);
    assert |x| == |y| == 7;
    var i := if x[0] != y[0] then 0 else if x[1] != y[1] then 1 else if x[2] != y[2] then 2 else if x[3] != y[3] then 3
             else if x[4] != y[4] then 4 else if x[5] != y[5] then 5 else 6;
    assert forall j :: 0 <= j < i ==> x[j] == y[j];
    assert Before(a, b) <==> x[i] < y[i];
    forall k | 0 <= k < 7 && x[k] < y[k] && forall j :: 0 <= j < k ==> x[j] == y[j] ensures x[i] < y[i] {
      assert k == i || i == 6;
    }
  }

  /** Any two instants are equal or one is before the other, and never both. */
  lemma BeforeIsTotal(a: Time, b: Time)
    ensures Before(a, b) || Before(b, a) || a == b
    ensures !(Before(a, b) && (Before(b, a) || a == b))
  {
  }

  /** Leap years are divisible by an odd number of 4, 100 and 400; months alternate, starting again in August. */
  lemma Calendar(month: int, year: int)
    requires 1 <= month <= 12
    ensures
      var by4, by100, by400 := year % 4 == 0, year % 100 == 0, year % 400 == 0;
      Leap(year) <==> ((by4 != by100) != by400)
    ensures month != 2 ==> DaysIn(month, year) == 30 + (month + month / 8) % 2
    ensures DaysIn(2, year) == if Leap(year) then 29 else 28
  {
    assert year % 400 == 0 ==> year % 100 == 0 by {
      assert year == 400 * (year / 400) + year % 400;
    }
    assert year % 100 == 0 ==> year % 4 == 0 by {
      assert year == 100 * (year / 100) + year % 100;
    }
  }

  /** What is read as an instant is one: a month, a day that month has, and a time of day before 24 hours. */
  lemma ParsedRange(s: Bytes)
    requires ParseTime(s).Some?
    ensures
      var t := ParseTime(s).value;
      && 0 <= t.year <= 9999 && 1 <= t.month <= 12 && 1 <= t.day <= DaysIn(t.month, t.year)
      && 0 <= t.hour <= 23 && 0 <= t.minute <= 59 && 0 <= t.second <= 59 && t.nano % 1_000_000 == 0
  {
    hide Fraction;
    var y := FullHour(s)[0..4];
    ValueBound(y);
    Pow10Values();
  }

  lemma {:induction false} ValueBound(d: Bytes)
    requires AllDigits(d)
    ensures DigitsValue(d) < Pow10(|d|)
  {
    if d != [] {
      ValueBound(d[..|d| - 1]);
      assert IsDigit(d[|d| - 1]);
    }
  }

  /** The text of an instant, column by column: date and time in decimal, most significant first. */
  lemma FormatText(t: Time)
    requires FourDigitYear(t)
    ensures
      var s := Format(t);
      && |s| == 24
      && s[4] == s[7] == '-' as int && s[10] == 'T' as int
      && s[13] == s[16] == ':' as int && s[19] == '.' as int && s[23] == 'Z' as int
      && Field(s, 0, 4) == Some(t.year) && Field(s, 5, 2) == Some(t.month) && Field(s, 8, 2) == Some(t.day)
      && Field(s, 11, 2) == Some(t.hour) && Field(s, 14, 2) == Some(t.minute) && Field(s, 17, 2) == Some(t.second)
      && Field(s, 20, 3) == Some(t.nano / 1_000_000)
  {
    hide Padded, Field;
    var s := Format(t);
    DateColumns(t);
    ClockColumns(t);
    FormatColumns(s, FormatDate(t), FormatClock(t));
    assert s[13] == FormatClock(t)[2] && s[16] == FormatClock(t)[5] && s[19] == FormatClock(t)[8];
    Pow10Values();
    PaddedField(s, 0, t.year, 4);
    PaddedField(s, 5, t.month, 2);
    PaddedField(s, 8, t.day, 2);
    PaddedField(s, 11, t.hour, 2);
    PaddedField(s, 14, t.minute, 2);
    PaddedField(s, 17, t.second, 2);
    PaddedField(s, 20, t.nano / 1_000_000, 3);
  }

  lemma Pow10Values()
    ensures Pow10(2) == 100 && Pow10(3) == 1000 && Pow10(4) == 10_000
  {
    assert Pow10(1) == 10;
  }
}
