/**
 Reading and printing numbers: `hextodec`, `dectohex`, `itoa` and `atoi`.
 */
module Numerals {
  import opened Octets

  /** The two bases in use. */
  type Base = b: int | b == 10 || b == 16 witness 10

  /** The value of a digit in any base up to 16, or -1. */
  function DigitValue(c: char): (d: int)
    ensures -1 <= d < 16
  {
    if '0' <= c <= '9' then c as int - '0' as int
    else if 'a' <= c <= 'f' then c as int - 'a' as int + 10
    else if 'A' <= c <= 'F' then c as int - 'A' as int + 10
    else -1
  }

  /** The sixteen digits in both cases, and no others. */
  lemma DigitTable(c: char)
    ensures forall d :: 0 <= d < 16 ==> DigitValue("0123456789abcdef"[d]) == d == DigitValue("0123456789ABCDEF"[d])
    ensures c !in "0123456789abcdef" && c !in "0123456789ABCDEF" ==> DigitValue(c) == -1
  {
  }

  predicate IsDigit(c: char, base: Base) {
    0 <= DigitValue(c) < base
  }

  function DigitChar(d: nat): (c: char)
    requires d < 16
    ensures DigitValue(c) == d
  {
    "0123456789abcdef"[d]
  }

  predicate IsNumeral(s: string, base: Base) {
    s != "" && forall k :: 0 <= k < |s| ==> IsDigit(s[k], base)
  }

  function Shift(n: nat, base: Base, digit: nat): nat {
    (if base == 10 then 10 * n else 16 * n) + digit
  }

  /** The number a string of digits denotes. */
  function Value(s: string, base: Base): nat
    requires forall k :: 0 <= k < |s| ==> IsDigit(s[k], base)
  {
    if s == "" then 0
    else
      assert IsDigit(s[|s| - 1], base);
      Shift(Value(s[..|s| - 1], base), base, DigitValue(s[|s| - 1]))
  }

  /** The shortest numeral of a number. */
  function Print(n: nat, base: Base): string
    decreases n
  {
    if n < base then [DigitChar(n)] else Print(n / base, base) + [DigitChar(n % base)]
  }

  lemma {:induction false} PrintValue(n: nat, base: Base)
    ensures IsNumeral(Print(n, base), base)
    ensures Value(Print(n, base), base) == n
    decreases n
  {
    if n < base {
      assert Print(n, base)[..0] == "";
    } else {
      PrintValue(n / base, base);
      var p := Print(n / base, base);
      assert (p + [DigitChar(n % base)])[..|p|] == p;
    }
  }

  /** How many leading characters are digits. */
  function DigitPrefix(s: string, base: Base): (k: nat)
    ensures k <= |s|
    ensures forall i :: 0 <= i < k ==> IsDigit(s[i], base)
    ensures k < |s| ==> !IsDigit(s[k], base)
  {
    if s == "" || !IsDigit(s[0], base) then 0 else 1 + DigitPrefix(s[1..], base)
  }

  function SkipSpaces(s: string): (r: string)
    ensures |r| <= |s| && r == s[|s| - |r|..]
    ensures r != "" ==> !IsSpace(r[0])
    ensures s != "" && !IsSpace(s[0]) ==> r == s
    ensures forall i :: 0 <= i < |s| - |r| ==> IsSpace(s[i])
  {
    if s == "" || !IsSpace(s[0]) then s else SkipSpaces(s[1..])
  }

  /** The text starts, after white space, with a base-16 numeral that fits. */
  predicate WellFormedHex(s: string) {
    var t := SkipSpaces(s);
    var k := DigitPrefix(t, 16);
    && k > 0
    && Value(t[..k], 16) < 0x1_0000_0000
    && (k < |t| ==> t[k] != 'x' && t[k] != 'X')
  }

  /**
   `hextodec`.  On text that does not start with a base-16 numeral the result
   is whatever the uninitialised variable held: `garbage`.
   */
  function HexToDec(s: string, garbage: Word): Word {
    if WellFormedHex(s) then
      var t := SkipSpaces(s);
      Value(t[..DigitPrefix(t, 16)], 16)
    else garbage
  }

  function DecToHex(n: nat): string {
    Print(n, 16)
  }

  function Itoa(n: nat): string {
    Print(n, 10)
  }

  /** The number the text starts with, or 0. */
  function Leading(s: string): nat {
    Value(s[..DigitPrefix(s, 10)], 10)
  }

  /** `atoi`; the C function leaves values beyond `int` undefined. */
  function Atoi(s: string): int {
    var t := SkipSpaces(s);
    if t != "" && (t[0] == '-' || t[0] == '+') then
      var v: int := Leading(t[1..]);
      if t[0] == '-' then -v else v
    else
      Leading(t)
  }

  lemma {:induction false} NumeralPrefix(s: string, base: Base)
    requires IsNumeral(s, base)
    ensures SkipSpaces(s) == s
    ensures DigitPrefix(s, base) == |s| && s[..|s|] == s
  {
    assert SkipSpaces(s) == s by {
      assert IsDigit(s[0], base);
    }
    AllDigits(s, base);
  }

  lemma {:induction false} AllDigits(s: string, base: Base)
    requires forall k :: 0 <= k < |s| ==> IsDigit(s[k], base)
    ensures DigitPrefix(s, base) == |s|
  {
    if s != "" {
      AllDigits(s[1..], base);
    }
  }

  lemma {:induction false} SpacesSkipped(spaces: string, s: string)
    requires forall i :: 0 <= i < |spaces| ==> IsSpace(spaces[i])
    requires s != "" ==> !IsSpace(s[0])
    ensures SkipSpaces(spaces + s) == s
  {
    if spaces == "" {
      assert spaces + s == s;
    } else {
      assert (spaces + s)[1..] == spaces[1..] + s;
      SpacesSkipped(spaces[1..], s);
    }
  }

  lemma {:induction false} DigitsThen(s: string, rest: string, base: Base)
    requires forall k :: 0 <= k < |s| ==> IsDigit(s[k], base)
    requires rest != "" ==> !IsDigit(rest[0], base)
    ensures DigitPrefix(s + rest, base) == |s| && (s + rest)[..|s|] == s
  {
    if s == "" {
      assert s + rest == rest;
    } else {
      assert (s + rest)[1..] == s[1..] + rest;
      DigitsThen(s[1..], rest, base);
    }
  }

  lemma DigitNoSpace(c: char, base: Base)
    ensures IsDigit(c, base) ==> !IsSpace(c) && c != '+' && c != '-'
  {
  }

  lemma HexAfterSpaces(spaces: string, t: string, garbage: Word)
    requires forall i :: 0 <= i < |spaces| ==> IsSpace(spaces[i])
    requires t != "" ==> !IsSpace(t[0])
    ensures HexToDec(spaces + t, garbage) == HexToDec(t, garbage)
  {
    hide Value, DigitPrefix, IsSpace, IsDigit, SkipSpaces;
    SpacesSkipped(spaces, t);
    SpacesSkipped("", t);
    assert "" + t == t;
  }

  lemma HexDigits(s: string, rest: string, garbage: Word)
    requires forall k :: 0 <= k < |s| ==> IsDigit(s[k], 16)
    requires rest != "" ==> !IsDigit(rest[0], 16) && (s == "" ==> !IsSpace(rest[0]))
    ensures
      HexToDec(s + rest, garbage) ==
      if s != "" && Value(s, 16) < 0x1_0000_0000 && !(rest != "" && (rest[0] == 'x' || rest[0] == 'X'))
      then Value(s, 16)
      else garbage
  {
    hide Value, DigitPrefix, IsSpace, IsDigit, SkipSpaces;
    var t := s + rest;
    DigitsThen(s, rest, 16);
    if s != "" {
      DigitNoSpace(s[0], 16);
      assert t[0] == s[0];
    } else {
      assert t == rest;
    }
    assert SkipSpaces(t) == t;
    assert |s| < |t| ==> t[|s|] == rest[0];
  }

  /**
   A numeral in any spelling (letter case, leading zeros) is read exactly, after white space and up
   to the first character that is no digit.  Without a digit there, on overflow, or before an x, the
   variable keeps what it held.
   */
  lemma HexNumeralRead(spaces: string, s: string, rest: string, garbage: Word)
    requires forall i :: 0 <= i < |spaces| ==> IsSpace(spaces[i])
    requires forall k :: 0 <= k < |s| ==> IsDigit(s[k], 16)
    requires rest != "" ==> !IsDigit(rest[0], 16) && (s == "" ==> !IsSpace(rest[0]))
    ensures
      HexToDec(spaces + s + rest, garbage) ==
      if s != "" && Value(s, 16) < 0x1_0000_0000 && !(rest != "" && (rest[0] == 'x' || rest[0] == 'X'))
      then Value(s, 16)
      else garbage
  {
    hide Value, HexToDec, IsSpace, IsDigit;
    assert spaces + s + rest == spaces + (s + rest);
    HexDigits(s, rest, garbage);
    if s != "" {
      DigitNoSpace(s[0], 16);
      assert (s + rest)[0] == s[0];
    } else {
      assert s + rest == rest;
    }
    HexAfterSpaces(spaces, s + rest, garbage);
  }

  /** The digits of a numeral in upper case. */
  function UpperCase(s: string): (r: string)
    requires forall k :: 0 <= k < |s| ==> IsDigit(s[k], 16)
    ensures |r| == |s|
  {
    seq(|s|, k requires 0 <= k < |s| => assert IsDigit(s[k], 16); "0123456789ABCDEF"[DigitValue(s[k])])
  }

  lemma {:induction false} UpperCaseValue(s: string)
    requires forall k :: 0 <= k < |s| ==> IsDigit(s[k], 16)
    ensures forall k :: 0 <= k < |s| ==> IsDigit(UpperCase(s)[k], 16)
    ensures Value(UpperCase(s), 16) == Value(s, 16)
  {
    if s != "" {
      var n := |s| - 1;
      UpperCaseValue(s[..n]);
      assert UpperCase(s)[..n] == UpperCase(s[..n]);
      assert IsDigit(s[n], 16);
      DigitTable('0');
      hide DigitValue;
      assert UpperCase(s) == UpperCase(s[..n]) + ["0123456789ABCDEF"[DigitValue(s[n])]];
    }
  }

  /** A printed numeral has lower-case digits and no leading zero. */
  lemma {:induction false} PrintShape(n: nat, base: Base)
    ensures forall k :: 0 <= k < |Print(n, base)| ==> Print(n, base)[k] in "0123456789abcdef"
    ensures n > 0 ==> Print(n, base)[0] != '0'
    ensures n == 0 ==> Print(n, base) == "0"
    decreases n
  {
    assert forall d :: 0 <= d < 16 ==> DigitChar(d) == "0123456789abcdef"[d];
    hide DigitChar;
    if n >= base {
      PrintShape(n / base, base);
    }
  }

  /** And in upper case it is read all the same. */
  lemma UpperCaseRead(n: Word, garbage: Word)
    ensures forall k :: 0 <= k < |DecToHex(n)| ==> IsDigit(DecToHex(n)[k], 16)
    ensures HexToDec(UpperCase(DecToHex(n)), garbage) == n
  {
    hide Value, Print, HexToDec, UpperCase, DigitValue;
    PrintValue(n, 16);
    UpperCaseValue(DecToHex(n));
    var s := UpperCase(DecToHex(n));
    HexNumeralRead("", s, "", garbage);
    assert "" + s + "" == s;
  }

  lemma HexRoundTrip(n: Word, garbage: Word)
    ensures HexToDec(DecToHex(n), garbage) == n
  {
    hide Value, Print, HexToDec, DigitValue;
    PrintValue(n, 16);
    HexNumeralRead("", DecToHex(n), "", garbage);
    assert "" + DecToHex(n) + "" == DecToHex(n);
  }

  lemma AtoiAfterSpaces(spaces: string, t: string)
    requires forall i :: 0 <= i < |spaces| ==> IsSpace(spaces[i])
    requires t != "" ==> !IsSpace(t[0])
    ensures Atoi(spaces + t) == Atoi(t)
  {
    hide Value, DigitPrefix, IsSpace, IsDigit, SkipSpaces;
    SpacesSkipped(spaces, t);
    SpacesSkipped("", t);
    assert "" + t == t;
  }

  lemma AtoiSigned(sign: string, s: string, rest: string)
    requires sign == "" || sign == "+" || sign == "-"
    requires forall k :: 0 <= k < |s| ==> IsDigit(s[k], 10)
    requires rest != "" ==> !IsDigit(rest[0], 10)
    requires sign == "" && s == "" && rest != "" ==> !IsSpace(rest[0]) && rest[0] != '+' && rest[0] != '-'
    ensures Atoi(sign + (s + rest)) == if sign == "-" then -(Value(s, 10) as int) else Value(s, 10)
  {
    hide Atoi, Value, IsDigit, IsSpace;
    if sign != "" {
      AtoiWithSign(sign[0], s, rest);
      assert sign == [sign[0]];
    } else {
      AtoiUnsigned(s, rest);
      assert "" + (s + rest) == s + rest;
    }
  }

  lemma AtoiUnsigned(s: string, rest: string)
    requires forall k :: 0 <= k < |s| ==> IsDigit(s[k], 10)
    requires rest != "" ==> !IsDigit(rest[0], 10)
    requires s == "" && rest != "" ==> !IsSpace(rest[0]) && rest[0] != '+' && rest[0] != '-'
    ensures Atoi(s + rest) == Value(s, 10)
  {
    hide Value, DigitPrefix, IsDigit, IsSpace, SkipSpaces;
    var t := s + rest;
    DigitsThen(s, rest, 10);
    if s != "" {
      DigitNoSpace(s[0], 10);
      assert t[0] == s[0];
    } else {
      assert t == rest;
    }
    assert SkipSpaces(t) == t;
  }

  lemma AtoiWithSign(sign: char, s: string, rest: string)
    requires sign == '+' || sign == '-'
    requires forall k :: 0 <= k < |s| ==> IsDigit(s[k], 10)
    requires rest != "" ==> !IsDigit(rest[0], 10)
    ensures Atoi([sign] + (s + rest)) == if sign == '-' then -(Value(s, 10) as int) else Value(s, 10)
  {
    assert !IsSpace(sign);
    hide Value, DigitPrefix, IsDigit, IsSpace, SkipSpaces;
    var t := [sign] + (s + rest);
    assert t[0] == sign && t[1..] == s + rest;
    assert SkipSpaces(t) == t;
    DigitsThen(s, rest, 10);
  }

  /** A number with or without sign is read after white space and up to the first other character. */
  lemma AtoiRead(spaces: string, sign: string, s: string, rest: string)
    requires forall i :: 0 <= i < |spaces| ==> IsSpace(spaces[i])
    requires sign == "" || sign == "+" || sign == "-"
    requires forall k :: 0 <= k < |s| ==> IsDigit(s[k], 10)
    requires rest != "" ==> !IsDigit(rest[0], 10)
    requires sign == "" && s == "" && rest != "" ==> !IsSpace(rest[0]) && rest[0] != '+' && rest[0] != '-'
    ensures Atoi(spaces + (sign + (s + rest))) == if sign == "-" then -(Value(s, 10) as int) else Value(s, 10)
  {
    AtoiSigned(sign, s, rest);
    var t := sign + (s + rest);
    if sign == "" && s != "" {
      DigitNoSpace(s[0], 10);
      assert t == s + rest && t[0] == s[0];
    } else if sign != "" {
      assert t[0] == sign[0];
    } else {
      assert t == rest;
    }
    hide Value, Atoi, IsDigit;
    AtoiAfterSpaces(spaces, t);
  }

  /** What a number below zero looks like. */
  lemma NegativeApart(value: string) returns (spaces: string, digits: string, rest: string)
    requires Atoi(value) < 0
    ensures value == spaces + ("-" + (digits + rest))
    ensures forall i :: 0 <= i < |spaces| ==> IsSpace(spaces[i])
    ensures forall k :: 0 <= k < |digits| ==> IsDigit(digits[k], 10)
    ensures rest != "" ==> !IsDigit(rest[0], 10)
    ensures Value(digits, 10) > 0
  {
    hide Value, IsDigit, IsSpace, SkipSpaces, Atoi, Leading;
    NegativeStart(value);
    var t := SkipSpaces(value);
    spaces := value[..|value| - |t|];
    digits, rest := LeadingApart(t[1..]);
    assert t == "-" + t[1..] && value == spaces + t;
  }

  lemma NegativeStart(value: string)
    requires Atoi(value) < 0
    ensures var t := SkipSpaces(value); t != "" && t[0] == '-' && Leading(t[1..]) > 0
  {
    hide Leading, SkipSpaces;
  }

  lemma LeadingApart(u: string) returns (digits: string, rest: string)
    ensures u == digits + rest && (rest != "" ==> !IsDigit(rest[0], 10))
    ensures forall k :: 0 <= k < |digits| ==> IsDigit(digits[k], 10)
    ensures Value(digits, 10) == Leading(u)
  {
    hide Value, IsDigit;
    var k := DigitPrefix(u, 10);
    digits, rest := u[..k], u[k..];
  }

  lemma AtoiRoundTrip(n: nat)
    ensures Atoi(Itoa(n)) == n
  {
    PrintValue(n, 10);
    var s := Itoa(n);
    NumeralPrefix(s, 10);
    assert IsDigit(s[0], 10);
  }

  /** Numerals stand on one line and hold no separator. */
  lemma NumeralText(s: string, base: Base)
    requires forall k :: 0 <= k < |s| ==> IsDigit(s[k], base)
    ensures forall k :: 0 <= k < |s| ==>
      Positive(s[k]) && !IsSpace(s[k]) && s[k] !in ";,=: \r\n"
  {
    forall k | 0 <= k < |s|
      ensures Positive(s[k]) && !IsSpace(s[k]) && s[k] !in ";,=: \r\n"
    {
      assert IsDigit(s[k], base);
    }
  }
}
