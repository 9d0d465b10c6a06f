/**
  Decimal text: printing, the value of a run of digits, and the longest digit prefix of a text.
*/
module Decimal {

  const DIGITS := "0123456789"

  predicate IsDigit(c: char) {
    '0' <= c <= '9'
  }

  predicate AllDigits(s: string) {
    forall i :: 0 <= i < |s| ==> IsDigit(s[i])
  }

  function DigitValue(c: char): (d: nat)
    requires IsDigit(c)
    ensures d < 10
  {
    c as int - '0' as int
  }

  function DigitChar(d: nat): (c: char)
    requires d < 10
    ensures IsDigit(c) && DigitValue(c) == d
  {
    ('0' as int + d) as char
  }

  // The ten digits in the order of their values, and the six characters of space.
  lemma DigitsAre(c: char)
    ensures IsDigit(c) <==> c in DIGITS
    ensures IsDigit(c) ==> DIGITS[DigitValue(c)] == c && DigitChar(DigitValue(c)) == c
    ensures IsSpace(c) <==> c in " \t\n\U{B}\U{C}\r"
  {
    if IsDigit(c) {
      assert DIGITS[c as int - '0' as int] == c;
    }
  }

  // The number a run of digits stands for.
  function Value(s: string): nat
    requires AllDigits(s)
  {
    if s == "" then 0 else Value(s[..|s| - 1]) * 10 + DigitValue(s[|s| - 1])
  }

  // std::to_string and fmt::format_int for unsigned values.
  function Print(n: nat): string {
    (if n < 10 then "" else Print(n / 10)) + [DigitChar(n % 10)]
  }

  lemma ValueNext(s: string, c: char)
    requires AllDigits(s) && IsDigit(c)
    ensures AllDigits(s + [c]) && Value(s + [c]) == Value(s) * 10 + DigitValue(c)
  {
    assert (s + [c])[..|s|] == s;
  }

  lemma {:induction false} PrintIsDecimal(n: nat)
    ensures AllDigits(Print(n)) && |Print(n)| >= 1
    ensures Value(Print(n)) == n
  {
    var before := if n < 10 then "" else Print(n / 10);
    if n >= 10 {
      PrintIsDecimal(n / 10);
    }
    PrintNext(before, n);
  }

  lemma PrintNext(before: string, n: nat)
    requires AllDigits(before) && Value(before) == n / 10 && before == if n < 10 then "" else Print(n / 10)
    ensures AllDigits(Print(n)) && |Print(n)| >= 1 && Value(Print(n)) == n
  {
    assert Print(n) == before + [DigitChar(n % 10)];
    ValueNext(before, DigitChar(n % 10));
  }

  lemma PrintIsInjective(m: nat, n: nat)
    requires Print(m) == Print(n)
    ensures m == n
  {
    PrintIsDecimal(m);
    PrintIsDecimal(n);
  }

  // The length of the longest prefix of s from i on that is all digits.
  function DigitRun(s: string): (n: nat)
    ensures n <= |s| && AllDigits(s[..n])
    ensures n < |s| ==> !IsDigit(s[n])
  {
    if s == "" || !IsDigit(s[0]) then 0
    else
      var n := 1 + DigitRun(s[1..]);
      assert s[..n] == [s[0]] + s[1..][..n - 1];
      n
  }

  lemma {:induction false} DigitRunIs(s: string, rest: string)
    requires AllDigits(s) && (rest == "" || !IsDigit(rest[0]))
    ensures DigitRun(s + rest) == |s| && (s + rest)[..|s|] == s
  {
    if s == "" {
      assert s + rest == rest;
    } else {
      assert (s + rest)[1..] == s[1..] + rest;
      DigitRunIs(s[1..], rest);
    }
  }

  predicate IsSpace(c: char) {
    c == ' ' || 9 <= c as int <= 13
  }

  // strtol in base ten: leading space, an optional sign, digits.
  datatype Parse = NoNumber | Number(value: int, used: nat)

  function SpaceRun(s: string): (n: nat)
    ensures n <= |s|
  {
    if s == "" || !IsSpace(s[0]) then 0 else 1 + SpaceRun(s[1..])
  }

  function ParseInt(s: string): (p: Parse)
    ensures p.Number? ==> 0 < p.used <= |s|
  {
    var space := SpaceRun(s);
    var signed := space < |s| && (s[space] == '-' || s[space] == '+');
    var start := if signed then space + 1 else space;
    var run := DigitRun(s[start..]);
    if run == 0 then NoNumber
    else
      var v: int := Value(s[start..][..run]);
      Number(if signed && s[space] == '-' then -v else v, start + run)
  }

  lemma {:induction false} SpaceRunIs(spaces: string, rest: string)
    requires forall i :: 0 <= i < |spaces| ==> IsSpace(spaces[i])
    requires rest == "" || !IsSpace(rest[0])
    ensures SpaceRun(spaces + rest) == |spaces|
  {
    if spaces == "" {
      assert spaces + rest == rest;
    } else {
      assert (spaces + rest)[1..] == spaces[1..] + rest;
      SpaceRunIs(spaces[1..], rest);
    }
  }

  // What follows the space is no space, and its sign is the one written.
  lemma FirstIs(sign: string, digits: string, rest: string)
    requires sign in ["", "+", "-"] && AllDigits(digits)
    requires digits == "" && sign == "" && rest != "" ==> !IsSpace(rest[0]) && rest[0] != '+' && rest[0] != '-'
    ensures
      var after := sign + (digits + rest);
      && (after == "" || !IsSpace(after[0]))
      && (after != "" && (after[0] == '-' || after[0] == '+') <==> sign != "")
      && (sign != "" ==> after[0] == sign[0])
  {
    assert digits != "" ==> (digits + rest)[0] == digits[0] && IsDigit(digits[0]);
  }

  /**
    Space is skipped, a minus sign negates, a plus sign does not, and the digits run as far as they go; a
    text with no digit there is no number.
  */
  lemma SignedReads(spaces: string, sign: string, digits: string, rest: string)
    requires forall i :: 0 <= i < |spaces| ==> IsSpace(spaces[i])
    requires sign in ["", "+", "-"] && AllDigits(digits) && (rest == "" || !IsDigit(rest[0]))
    requires digits == "" && sign == "" && rest != "" ==> !IsSpace(rest[0]) && rest[0] != '+' && rest[0] != '-'
    ensures
      ParseInt(spaces + (sign + (digits + rest))) ==
        if digits == "" then NoNumber
        else
          var value: int := Value(digits);
          Number(if sign == "-" then -value else value, |spaces| + |sign| + |digits|)
  {
    hide SpaceRun, DigitRun, Value, ParseInt, AllDigits;
    var tail := digits + rest;
    var after := sign + tail;
    var s := spaces + after;
    FirstIs(sign, digits, rest);
    SpaceRunIs(spaces, after);
    DigitRunIs(digits, rest);
    DropFirst(spaces, after);
    DropFirst(sign, tail);
    assert sign == "-" <==> |sign| == 1 && s[|spaces|] == '-';
    ParseFrom(s, |spaces|, |sign|, digits, tail);
  }

  lemma DropFirst(a: string, b: string)
    ensures (a + b)[|a|..] == b
  {
  }

  lemma ParseFrom(s: string, space: nat, sign: nat, digits: string, tail: string)
    requires SpaceRun(s) == space && sign <= 1 && space + sign <= |s|
    requires var after := s[space..];
      (after != "" && (after[0] == '-' || after[0] == '+') <==> sign == 1) && after[sign..] == tail
    requires AllDigits(digits) && DigitRun(tail) == |digits| && tail[..|digits|] == digits
    ensures
      ParseInt(s) ==
        if digits == "" then NoNumber
        else
          var value: int := Value(digits);
          Number(if sign == 1 && s[space] == '-' then -value else value, space + sign + |digits|)
  {
    hide SpaceRun, DigitRun, Value, IsDigit, IsSpace;
    assert s[space + sign..] == s[space..][sign..];
  }

  // Plain digits are read as their value, wherever they stop.
  lemma ParseDigits(s: string, rest: string)
    requires AllDigits(s) && s != "" && (rest == "" || !IsDigit(rest[0]))
    ensures ParseInt(s + rest) == Number(Value(s), |s|)
  {
    SignedReads("", "", s, rest);
    assert "" + ("" + (s + rest)) == s + rest;
  }
}
