/** Decimal printing and parsing as Go's strconv does it. */
module Decimal {
  import opened Domain

  const MAX_UINT64 := 0xffff_ffff_ffff_ffff
  const MAX_INT64 := 0x7fff_ffff_ffff_ffff
  const MIN_INT64 := -0x8000_0000_0000_0000

  predicate IsDigit(c: char) {
    '0' <= c <= '9'
  }

  function DigitValue(c: char): nat
    requires IsDigit(c)
  {
    c as int - '0' as int
  }

  function FormatUint(n: nat): (s: string)
    ensures s != [] && forall i | 0 <= i < |s| :: IsDigit(s[i])
  {
    var last := [('0' as int + n % 10) as char];
    if n < 10 then last else FormatUint(n / 10) + last
  }

  function FormatInt(x: int): string {
    if x < 0 then "-" + FormatUint(-x) else FormatUint(x)
  }

  /** Reads digits left to right; an overflow saturates at once, a bad character before it is an error. */
  function ScanUint(s: string, n: nat): Option<nat> {
    if s == [] then Some(n)
    else if !IsDigit(s[0]) then None
    else if n * 10 + DigitValue(s[0]) > MAX_UINT64 then Some(MAX_UINT64)
    else ScanUint(s[1..], n * 10 + DigitValue(s[0]))
  }

  /** The value that ParseInt with base 10 and 64 bits returns beside its error. */
  function ParseInt(s: string): int {
    var signed := s != [] && (s[0] == '-' || s[0] == '+');
    var digits := if signed then s[1..] else s;
    if digits == [] then 0
    else
      match ScanUint(digits, 0)
      case None => 0
      case Some(scanned) =>
        var n: int := scanned;
        if s[0] == '-' then (if n > MAX_INT64 + 1 then MIN_INT64 else -n)
        else (if n > MAX_INT64 then MAX_INT64 else n)
  }

  ghost function Pow10(n: nat): nat {
    if n == 0 then 1 else 10 * Pow10(n - 1)
  }

  lemma ShiftDigits(prefix: nat, power: nat, n: nat)
    ensures prefix * (10 * power) + n == 10 * (prefix * power + n / 10) + n % 10
  {
  }

  /** Scanning a printed number appends its digits to what was read before. */
  lemma {:induction false} ScanFormat(n: nat, prefix: nat, rest: string)
    requires prefix * Pow10(|FormatUint(n)|) + n <= MAX_UINT64
    ensures ScanUint(FormatUint(n) + rest, prefix) == ScanUint(rest, prefix * Pow10(|FormatUint(n)|) + n)
    decreases n
  {
    var s := FormatUint(n);
    if n < 10 {
      assert Pow10(1) == 10;
      assert (s + rest)[1..] == rest;
    } else {
      var front := FormatUint(n / 10);
      var last := s[|s| - 1];
      assert s + rest == front + ([last] + rest);
      assert |s| == |front| + 1;
      ShiftDigits(prefix, Pow10(|front|), n);
      ScanFormat(n / 10, prefix, [last] + rest);
      assert ([last] + rest)[1..] == rest;
    }
  }

  /** Parsing inverts printing on every int64. */
  lemma ParseFormatInt(x: int)
    requires MIN_INT64 <= x <= MAX_INT64
    ensures ParseInt(FormatInt(x)) == x
  {
    var n := if x < 0 then -x else x;
    ScanFormat(n, 0, []);
    assert FormatUint(n) + [] == FormatUint(n);
    assert IsDigit(FormatUint(n)[0]);
    if x < 0 {
      assert FormatInt(x)[1..] == FormatUint(n);
    }
  }

  // ----- what the texts mean -----

  ghost predicate AllDigits(s: string) {
    forall i | 0 <= i < |s| :: IsDigit(s[i])
  }

  /** The number that decimal digits stand for. */
  ghost function Worth(s: string): nat
    requires AllDigits(s)
  {
    if s == [] then 0 else 10 * Worth(s[..|s| - 1]) + DigitValue(s[|s| - 1])
  }

  ghost function AtMost(n: nat, bound: nat): int {
    if n <= bound then n else bound
  }

  /** Printing writes the digits of the number, without a leading zero. */
  lemma {:induction false} FormatMeaning(n: nat)
    ensures AllDigits(FormatUint(n)) && Worth(FormatUint(n)) == n
    ensures FormatUint(n)[0] == '0' ==> n == 0 && FormatUint(n) == "0"
  {
    var s := FormatUint(n);
    var last := s[|s| - 1];
    assert DigitValue(last) == n % 10;
    if n < 10 {
      assert s[..|s| - 1] == [] && Worth([]) == 0;
    } else {
      assert s[..|s| - 1] == FormatUint(n / 10);
      FormatMeaning(n / 10);
    }
  }

  lemma {:induction false} ScanAppend(s: string, last: char, n: nat)
    requires AllDigits(s) && IsDigit(last) && n <= MAX_UINT64
    ensures ScanUint(s, n).Some?
    ensures var longer := 10 * ScanUint(s, n).value + DigitValue(last);
            ScanUint(s + [last], n) == Some(if longer <= MAX_UINT64 then longer else MAX_UINT64)
  {
    if s == [] {
      assert (s + [last])[1..] == [];
    } else {
      var next := n * 10 + DigitValue(s[0]);
      assert (s + [last])[0] == s[0] && (s + [last])[1..] == s[1..] + [last];
      if next <= MAX_UINT64 {
        ScanAppend(s[1..], last, next);
      }
    }
  }

  /** Scanning digits yields their number, or the largest uint64 when that is less. */
  lemma {:induction false} ScanMeaning(s: string)
    requires AllDigits(s)
    ensures ScanUint(s, 0) == Some(if Worth(s) <= MAX_UINT64 then Worth(s) else MAX_UINT64)
  {
    if s != [] {
      var front, last := s[..|s| - 1], s[|s| - 1];
      ScanMeaning(front);
      ScanAppend(front, last, 0);
      assert front + [last] == s;
    }
  }

  lemma {:induction false} ScanFails(digits: string, bad: char, rest: string, n: nat)
    requires AllDigits(digits) && !IsDigit(bad)
    requires n <= MAX_UINT64 && (ScanUint(digits, n) == None || ScanUint(digits, n).value < MAX_UINT64)
    ensures ScanUint(digits + [bad] + rest, n) == None
  {
    var s := digits + [bad] + rest;
    if digits == [] {
      assert s[0] == bad;
    } else {
      assert s[0] == digits[0] && s[1..] == digits[1..] + [bad] + rest;
      ScanFails(digits[1..], bad, rest, n * 10 + DigitValue(digits[0]));
    }
  }

  /** Digits with or without a sign are read as their number, held within an int64. */
  lemma ParseMeaning(s: string)
    requires s != [] && AllDigits(s)
    ensures ParseInt(s) == ParseInt("+" + s) == AtMost(Worth(s), 0x7fff_ffff_ffff_ffff)
    ensures ParseInt("-" + s) == -AtMost(Worth(s), 0x8000_0000_0000_0000)
  {
    ScanMeaning(s);
    assert IsDigit(s[0]);
    assert ("+" + s)[1..] == s && ("-" + s)[1..] == s;
  }

  /** A foreign character behind digits that stay in range makes the reading fail, and so does an empty text. */
  lemma ParseFailure(digits: string, bad: char, rest: string)
    requires AllDigits(digits) && !IsDigit(bad) && Worth(digits) < MAX_UINT64
    ensures digits != [] || (bad != '-' && bad != '+') ==> ParseInt(digits + [bad] + rest) == 0
    ensures ParseInt("-" + digits + [bad] + rest) == ParseInt("+" + digits + [bad] + rest) == 0
    ensures ParseInt("") == ParseInt("-") == ParseInt("+") == 0
  {
    ScanMeaning(digits);
    ScanFails(digits, bad, rest, 0);
    var s := digits + [bad] + rest;
    assert s[0] == if digits == [] then bad else digits[0];
    assert "-" + digits + [bad] + rest == "-" + s && "+" + digits + [bad] + rest == "+" + s;
    assert ("-" + s)[1..] == s && ("+" + s)[1..] == s;
    assert "-"[1..] == [] && "+"[1..] == [];
  }
}
