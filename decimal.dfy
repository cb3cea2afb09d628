/**
 * Decimal rendering and parsing of 64-bit integers, as Go's strconv.Itoa and
 * strconv.Atoi do them; the relay uses them to turn a numeric subject claim
 * into a client ID and that ID back into a user ID.
 */
module Decimal {
  import opened Wrappers

  const MinInt64: int := -0x8000_0000_0000_0000
  const MaxInt64: int := 0x7fff_ffff_ffff_ffff

  /** Go's `int` on a 64-bit platform. */
  type Int64 = x: int | MinInt64 <= x <= MaxInt64

  predicate IsDigit(c: char) {
    '0' <= c <= '9'
  }

  predicate AllDigits(s: string) {
    forall i :: 0 <= i < |s| ==> IsDigit(s[i])
  }

  function DigitChar(d: nat): (c: char)
    requires d < 10
    ensures IsDigit(c) && c as int - '0' as int == d
  {
    ('0' as int + d) as char
  }

  /** The value of a string of decimal digits, most significant first. */
  function DigitsValue(s: string): nat
    requires AllDigits(s)
  {
    if s == [] then 0
    else DigitsValue(s[..|s| - 1]) * 10 + (s[|s| - 1] as int - '0' as int)
  }

  /** The shortest decimal rendering of a natural number. */
  function Digits(n: nat): (s: string)
    ensures s != [] && AllDigits(s)
    ensures n > 0 ==> s[0] != '0'
  {
    if n < 10 then [DigitChar(n)] else Digits(n / 10) + [DigitChar(n % 10)]
  }

  /** strconv.Itoa: an optional '-' followed by the digits of the magnitude. */
  function Itoa(n: int): string {
    if n < 0 then "-" + Digits(-n) else Digits(n)
  }

  /**
   * The value of the digits s[start..end], scanning them one at a time;
   * None as soon as one of them is not a decimal digit.
   */
  function ScanDigits(s: string, start: nat, end: nat): Option<nat>
    requires start <= end <= |s|
    decreases end
  {
    if end == start then Some(0)
    else
      var before := ScanDigits(s, start, end - 1);
      if before.None? || !IsDigit(s[end - 1]) then None
      else Some(before.value * 10 + (s[end - 1] as int - '0' as int))
  }

  /**
   * strconv.Atoi: an optional '+' or '-' followed by at least one decimal
   * digit, with a value that fits in 64 bits; anything else is an error.
   */
  function Atoi(s: string): Option<Int64> {
    var start := if |s| > 0 && (s[0] == '+' || s[0] == '-') then 1 else 0;
    if start == |s| then None
    else
      var magnitude := ScanDigits(s, start, |s|);
      if magnitude.None? then None
      else
        var v: int := if start == 1 && s[0] == '-' then 0 - magnitude.value as int else magnitude.value;
        if MinInt64 <= v <= MaxInt64 then Some(v) else None
  }

  /** The same syntax and range, stated over the whole string at once. */
  function AtoiReference(s: string): Option<Int64> {
    var signed := |s| > 0 && (s[0] == '+' || s[0] == '-');
    var body := if signed then s[1..] else s;
    if body == [] || !AllDigits(body) then None
    else
      var v: int := if signed && s[0] == '-' then 0 - DigitsValue(body) as int else DigitsValue(body);
      if MinInt64 <= v <= MaxInt64 then Some(v) else None
  }

  /** Scanning digit by digit agrees with the value of the whole digit string. */
  lemma {:induction false} ScanDigitsValue(s: string, start: nat, end: nat)
    requires start <= end <= |s|
    ensures ScanDigits(s, start, end) == if AllDigits(s[start..end]) then Some(DigitsValue(s[start..end])) else None
    decreases end
  {
    if end > start {
      ScanDigitsValue(s, start, end - 1);
      var t := s[start..end];
      assert t[..|t| - 1] == s[start..end - 1];
      assert t[|t| - 1] == s[end - 1];
      assert AllDigits(t) <==> AllDigits(s[start..end - 1]) && IsDigit(s[end - 1]);
    }
  }

  /** Atoi accepts exactly what the reference accepts, with the same value. */
  lemma AtoiMatchesReference(s: string)
    ensures Atoi(s) == AtoiReference(s)
  {
    var start := if |s| > 0 && (s[0] == '+' || s[0] == '-') then 1 else 0;
    ScanDigitsValue(s, start, |s|);
    assert s[start..|s|] == if start == 1 then s[1..] else s;
  }

  /** Atoi rejects the empty string, a lone sign, and any other non-digit. */
  lemma AtoiRejects(s: string)
    ensures s == [] || s == "+" || s == "-" ==> Atoi(s).None?
    ensures (exists i :: 0 < i < |s| && !IsDigit(s[i])) ==> Atoi(s).None?
    ensures |s| > 0 && !IsDigit(s[0]) && s[0] != '+' && s[0] != '-' ==> Atoi(s).None?
  {
    AtoiMatchesReference(s);
  }

  lemma {:induction false} DigitsValueOfDigits(n: nat)
    ensures DigitsValue(Digits(n)) == n
  {
    if n >= 10 {
      DigitsValueOfDigits(n / 10);
      var s := Digits(n / 10) + [DigitChar(n % 10)];
      assert s[..|s| - 1] == Digits(n / 10);
    }
  }

  /** Parsing the rendering of any 64-bit integer gives that integer back. */
  lemma AtoiOfItoa(n: Int64)
    ensures Atoi(Itoa(n)) == Some(n)
  {
    var m: int := n;
    var s := Itoa(n);
    DigitsValueOfDigits(if m < 0 then -m else m);
    var start := if m < 0 then 1 else 0;
    ScanDigitsValue(s, start, |s|);
    assert s[start..|s|] == Digits(if m < 0 then -m else m);
  }

  /** A rendered integer is never empty and never holds ':', so it can address a frame. */
  lemma ItoaIsFrameTarget(n: int)
    ensures Itoa(n) != [] && ':' !in Itoa(n)
  {
  }
}
