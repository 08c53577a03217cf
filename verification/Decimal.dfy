/** Decimal integers: strconv.Itoa, FormatInt and ParseInt. */
module Decimal {
  import opened Common

  predicate IsDigit(b: Byte) { 48 <= b <= 57 }

  predicate AllDigits(s: Bytes) { forall i :: 0 <= i < |s| ==> IsDigit(s[i]) }

  function Digits(n: nat): (s: Bytes)
    ensures s != [] && AllDigits(s)
    ensures s[0] == 48 <==> n == 0
    ensures n == 0 ==> |s| == 1
  {
    if n < 10 then [48 + n] else Digits(n / 10) + [48 + n % 10]
  }

  function Itoa(n: int): (s: Bytes)
    ensures s != []
  {
    if n < 0 then [45] + Digits(-n) else Digits(n)
  }

  function DigitsValue(s: Bytes): nat
    requires AllDigits(s)
  {
    if s == [] then 0 else 10 * DigitsValue(s[..|s| - 1]) + (s[|s| - 1] - 48)
  }

  lemma {:induction false} ValueOfDigits(n: nat)
    ensures DigitsValue(Digits(n)) == n
  {
    if n >= 10 {
      ValueOfDigits(n / 10);
      assert Digits(n)[..|Digits(n)| - 1] == Digits(n / 10);
    }
  }

  /** strconv.ParseInt(s, 10, 64). */
  function ParseInt(s: Bytes): Result<Int64> {
    var signed := s != [] && (s[0] == 43 || s[0] == 45);
    var body := if signed then s[1..] else s;
    if body == [] || !AllDigits(body) then Err(BadInteger)
    else
      var n: int := DigitsValue(body);
      var n := if signed && s[0] == 45 then -n else n;
      if -0x8000_0000_0000_0000 <= n < 0x8000_0000_0000_0000 then Ok(n) else Err(BadInteger)
  }

  lemma ParseIntOfItoa(n: Int64)
    ensures ParseInt(Itoa(n)) == Ok(n)
  {
    var m: int := n;
    if m < 0 {
      ValueOfDigits(-m);
      assert Itoa(m)[1..] == Digits(-m);
    } else {
      ValueOfDigits(n);
      assert IsDigit(Itoa(n)[0]);
    }
  }

  predicate IsInt64(n: int) { -0x8000_0000_0000_0000 <= n < 0x8000_0000_0000_0000 }

  /** Digits, with or without a sign, are read as the number they spell if it is an int64. */
  lemma ParseSigned(d: Bytes)
    requires d != [] && AllDigits(d)
    ensures ParseInt(d) == ParseInt([43] + d) == if IsInt64(DigitsValue(d)) then Ok(DigitsValue(d)) else Err(BadInteger)
    ensures ParseInt([45] + d) == if IsInt64(0 - DigitsValue(d)) then Ok(0 - DigitsValue(d)) else Err(BadInteger)
  {
    hide DigitsValue;
    assert IsDigit(d[0]) && ([43] + d)[1..] == d && ([45] + d)[1..] == d;
  }

  /** Nothing else is read as a number. */
  lemma ParsedIsSigned(s: Bytes)
    requires ParseInt(s).Ok?
    ensures AllDigits(s) || (s[0] == 43 && AllDigits(s[1..])) || (s[0] == 45 && AllDigits(s[1..]))
    ensures s != [] && (AllDigits(s) || |s| > 1)
  {
    hide DigitsValue;
  }

  /** Decimal notation: each further digit is ten times the number before and the digit. */
  lemma DigitsAre(n: nat)
    ensures n < 10 ==> Digits(n) == [48 + n]
    ensures n >= 10 ==> Digits(n) == Digits(n / 10) + [48 + n % 10]
    ensures |Digits(n)| > 1 ==> Digits(n)[0] != 48
  {
  }
}
