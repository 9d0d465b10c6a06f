/**
  Undoing `\xHH` escapes in place.  drives.cpp overwrites the backslash and joins what is before and
  after the escape; services.cpp inserts the letter and erases the four characters after it.  Both are
  compared with one left-to-right pass that never looks at a decoded letter again.
*/
module Unescape {
  import opened Decimal

  // Undefined stands for reading past the end of a string.
  datatype Result = Done(text: string) | Throws | Undefined

  predicate IsHex(c: char) {
    IsDigit(c) || 'a' <= c <= 'f' || 'A' <= c <= 'F'
  }

  function HexValue(c: char): (d: nat)
    requires IsHex(c)
    ensures d < 16
  {
    if IsDigit(c) then DigitValue(c)
    else if 'a' <= c <= 'f' then c as int - 'a' as int + 10
    else c as int - 'A' as int + 10
  }

  function HexRun(s: string): (n: nat)
    ensures n <= |s|
    ensures forall k :: 0 <= k < n ==> IsHex(s[k])
  {
    if s == "" || !IsHex(s[0]) then 0 else 1 + HexRun(s[1..])
  }

  // std::stoi and std::stoull in base 16 on at most two characters: leading space, a sign, digits.
  // Neither can see a 0x prefix there, and a negative number is the same char in both.
  function ReadHex(s: string): (p: Parse)
    requires |s| <= 2
    ensures p.Number? ==> 0 < p.used <= |s|
  {
    var space := SpaceRun(s);
    var signed := space < |s| && (s[space] == '-' || s[space] == '+');
    var start := if signed then space + 1 else space;
    var run := HexRun(s[start..]);
    if run == 0 then NoNumber
    else
      var v: int := if run == 1 then HexValue(s[start]) else HexValue(s[start]) * 16 + HexValue(s[start + 1]);
      Number(if signed && s[space] == '-' then -v else v, start + run)
  }

  // The conversion to char keeps the low eight bits.
  function ToChar(v: int): (c: char)
    ensures c as int < 256 && (c as int - v) % 256 == 0
  {
    (v % 256) as char
  }

  predicate EscapeAt(s: string, a: nat) {
    a + 1 < |s| && s[a] == '\\' && s[a + 1] == 'x'
  }

  // std::string::substr(pos, count) and erase(pos, count) stop at the end.
  function Substr(s: string, pos: nat, count: nat): (t: string)
    requires pos <= |s|
    ensures |t| <= count
  {
    s[pos..if pos + count <= |s| then pos + count else |s|]
  }

  function Erase(s: string, pos: nat, count: nat): string
    requires pos <= |s|
  {
    s[..pos] + s[if pos + count <= |s| then pos + count else |s|..]
  }

  function Prepend(p: string, r: Result): Result {
    if r.Done? then Done(p + r.text) else r
  }

  // ----- one pass -----

  // What a program takes an escape to span: the digits it could read, or always four characters.
  datatype Span = AsRead | AlwaysFour

  function AfterEscape(s: string, used: nat, span: Span): (n: nat)
    requires EscapeAt(s, 0) && used <= |s| - 2
    ensures 2 <= n <= |s|
  {
    if span.AsRead? then 2 + used else if |s| < 4 then |s| else 4
  }

  function Pass(s: string, span: Span): Result
    decreases |s|
  {
    if s == "" then Done("")
    else if !EscapeAt(s, 0) then Prepend(s[..1], Pass(s[1..], span))
    else
      match ReadHex(Substr(s, 2, 2))
      case NoNumber => Throws
      case Number(v, used) => Prepend([ToChar(v)], Pass(s[AfterEscape(s, used, span)..], span))
  }

  lemma PrependTwice(p: string, q: string, r: Result)
    ensures Prepend(p, Prepend(q, r)) == Prepend(p + q, r)
  {
    if r.Done? {
      assert p + (q + r.text) == p + q + r.text;
    }
  }

  // ----- drives.cpp -----

  // Where a loop stands: everything before a is decoded, everything from a on is still to be read.
  ghost predicate Standing(text: string, span: Span, info: string, a: nat) {
    a <= |info| && Prepend(info[..a], Pass(info[a..], span)) == Pass(text, span)
  }

  lemma StandingNext(text: string, span: Span, info: string, a: nat)
    requires Standing(text, span, info, a) && a < |info| && !EscapeAt(info, a)
    ensures Standing(text, span, info, a + 1)
  {
    PrependTwice(info[..a], info[a..][..1], Pass(info[a + 1..], span));
    assert info[..a] + info[a..][..1] == info[..a + 1];
    assert info[a..][1..] == info[a + 1..];
  }

  lemma StandingAfterEscape(text: string, span: Span, info: string, a: nat, next: string)
    requires Standing(text, span, info, a) && EscapeAt(info, a)
    ensures
      match ReadHex(Substr(info, a + 2, 2))
      case NoNumber => Pass(text, span) == Throws
      case Number(v, used) =>
        next == info[..a] + [ToChar(v)] + info[a + AfterEscape(info[a..], used, span)..] ==>
          Standing(text, span, next, a + 1)
  {
    var rest := info[a..];
    assert Substr(rest, 2, 2) == Substr(info, a + 2, 2);
    match ReadHex(Substr(info, a + 2, 2))
    case NoNumber =>
    case Number(v, used) =>
      var n := AfterEscape(rest, used, span);
      assert rest[n..] == info[a + n..];
      PrependTwice(info[..a], [ToChar(v)], Pass(info[a + n..], span));
      if next == info[..a] + [ToChar(v)] + info[a + n..] {
        assert next[..a + 1] == info[..a] + [ToChar(v)];
        assert next[a + 1..] == info[a + n..];
      }
  }

  lemma StandingAtStart(text: string, span: Span)
    ensures Standing(text, span, text, 0)
  {
    assert text[..0] == "" && text[0..] == text;
    if Pass(text, span).Done? {
      assert "" + Pass(text, span).text == Pass(text, span).text;
    }
  }

  lemma StandingAtEnd(text: string, span: Span, info: string, a: nat)
    requires Standing(text, span, info, a) && |info| <= a + 1
    ensures Pass(text, span) == Done(info)
  {
    if a + 1 == |info| {
      StandingNext(text, span, info, a);
    }
    assert info[|info|..] == "" && info[..|info|] == info;
    assert info + "" == info;
  }

  // The text with some characters from a on, or all of them, collapsed into one.
  function Collapsed(s: string, a: nat, count: nat, c: char): string
    requires a <= |s|
  {
    s[..a] + [c] + s[if a + count <= |s| then a + count else |s|..]
  }

  // What the loops of drives.cpp do with an escape.
  method OverwriteAndJoin(text: string, a: nat, idx: nat, c: char) returns (info: string)
    requires EscapeAt(text, a) && a + 2 + idx <= |text|
    ensures info == Collapsed(text, a, 2 + idx, c)
  {
    info := text[a := c];
    var top := Substr(info, 0, a + 1);
    var bot := info[a + 2 + idx..];
    assert top == text[..a] + [c];
    info := top + bot;
  }

  // Both loops of drives.cpp.
  method UnescapeDrive(text: string) returns (r: Result)
    ensures r == Pass(text, AsRead)
  {
    var info := text;
    var a := 0;
    StandingAtStart(text, AsRead);
    while a < |info|
      invariant Standing(text, AsRead, info, a)
      decreases |info| - a
    {
      if EscapeAt(info, a) {
        var number := Substr(info, a + 2, 2);
        match ReadHex(number) {
          case NoNumber =>
            StandingAfterEscape(text, AsRead, info, a, "");
            return Throws;
          case Number(v, idx) =>
            StandingAfterEscape(text, AsRead, info, a, Collapsed(info, a, 2 + idx, ToChar(v)));
            info := OverwriteAndJoin(info, a, idx, ToChar(v));
        }
      } else {
        StandingNext(text, AsRead, info, a);
      }
      a := a + 1;
    }
    StandingAtEnd(text, AsRead, info, a);
    return Done(info);
  }

  // ----- services.cpp -----

  // What the loops of services.cpp do with an escape.
  method InsertAndErase(text: string, a: nat, c: char) returns (id: string)
    requires EscapeAt(text, a)
    ensures id == Collapsed(text, a, 4, c)
  {
    id := text[..a] + [c] + text[a..];
    assert id[..a + 1] == text[..a] + [c];
    assert id[a + 1..] == text[a..];
    id := Erase(id, a + 1, 4);
  }

  // All four loops of services.cpp.  On an empty string `size() - 1` is the largest size_t, and the
  // loop reads past the end.
  method UnescapeService(text: string) returns (r: Result)
    ensures r == if text == "" then Undefined else Pass(text, AlwaysFour)
  {
    if |text| == 0 {
      return Undefined;
    }
    var id := text;
    var a := 0;
    StandingAtStart(text, AlwaysFour);
    while a < |id| - 1
      invariant |id| >= 1 && Standing(text, AlwaysFour, id, a)
      decreases |id| - a
    {
      if id[a] == '\\' && id[a + 1] == 'x' {
        var value := Substr(id, a + 2, 2);
        match ReadHex(value) {
          case NoNumber =>
            StandingAfterEscape(text, AlwaysFour, id, a, "");
            return Throws;
          case Number(v, _) =>
            StandingAfterEscape(text, AlwaysFour, id, a, Collapsed(id, a, 4, ToChar(v)));
            id := InsertAndErase(id, a, ToChar(v));
        }
      } else {
        StandingNext(text, AlwaysFour, id, a);
      }
      a := a + 1;
    }
    StandingAtEnd(text, AlwaysFour, id, a);
    return Done(id);
  }

  // ----- what the two loops undo -----

  const LOWER := "0123456789abcdef"
  const UPPER := "0123456789ABCDEF"

  // c is the digit of that value, in either case.
  predicate IsDigitOf(c: char, d: nat)
    requires d < 16
  {
    c == LOWER[d] || c == UPPER[d]
  }

  lemma DigitIs(c: char, d: nat)
    requires d < 16
    ensures IsDigitOf(c, d) <==> IsHex(c) && HexValue(c) == d
  {
    if IsHex(c) {
      assert IsDigitOf(c, HexValue(c));
    }
  }

  /**
    What at most two characters read as in base 16: the value of one digit or two, one digit behind space
    or a plus sign as itself, behind a minus sign negated; anything else is no number.
  */
  lemma ReadHexIs(t: string, d: nat, e: nat)
    requires |t| <= 2 && d < 16 && e < 16
    ensures |t| >= 1 && IsDigitOf(t[0], d) && (|t| == 2 ==> !IsHex(t[1])) ==> ReadHex(t) == Number(d, 1)
    ensures |t| == 2 && IsDigitOf(t[0], d) && IsDigitOf(t[1], e) ==> ReadHex(t) == Number(16 * d + e, 2)
    ensures |t| == 2 && (t[0] == '+' || IsSpace(t[0])) && IsDigitOf(t[1], e) ==> ReadHex(t) == Number(e, 2)
    ensures |t| == 2 && t[0] == '-' && IsDigitOf(t[1], e) ==> ReadHex(t) == Number(-(e as int), 2)
    ensures ReadHex(t).NoNumber? <==>
      t == "" || (!IsHex(t[0]) && (|t| == 2 && IsHex(t[1]) ==> t[0] !in "+-" && !IsSpace(t[0])))
  {
    if t != "" {
      DigitIs(t[0], d);
      assert t[0..] == t && t[1..] == if |t| == 1 then "" else [t[1]];
      if |t| == 2 {
        DigitIs(t[1], e);
        assert t[2..] == "" && [t[1]][1..] == "";
        assert HexRun([t[1]]) == if IsHex(t[1]) then 1 else 0;
        assert SpaceRun([t[1]]) == if IsSpace(t[1]) then 1 else 0;
      }
    }
  }

  // text with some of its characters written as escapes, and every backslash among them.
  predicate Escapes(e: string, text: string) {
    if e == "" then text == ""
    else
      text != "" &&
      if e[0] == '\\' then
        var n := text[0] as int;
        && n < 256 && |e| >= 4 && e[1] == 'x'
        && IsDigitOf(e[2], n / 16) && IsDigitOf(e[3], n % 16)
        && Escapes(e[4..], text[1..])
      else e[0] == text[0] && Escapes(e[1..], text[1..])
  }

  lemma TwoHexDigits(c: char, d: char)
    requires IsHex(c) && IsHex(d)
    ensures ReadHex([c, d]) == Number(HexValue(c) * 16 + HexValue(d), 2)
  {
    assert [c, d][0..] == [c, d] && [c, d][1..] == [d] && [d][1..] == [];
    assert HexRun([d]) == 1;
  }

  lemma EscapeStep(e: string, span: Span)
    requires |e| >= 4 && EscapeAt(e, 0) && IsHex(e[2]) && IsHex(e[3])
    ensures Pass(e, span) == Prepend([(HexValue(e[2]) * 16 + HexValue(e[3])) as char], Pass(e[4..], span))
  {
    assert Substr(e, 2, 2) == [e[2], e[3]];
    TwoHexDigits(e[2], e[3]);
  }

  /**
    Both loops give back any text from any escaping of it that writes every backslash as `\xHH`,
    whichever other characters are escaped and however the digits are written.  A decoded letter is
    never read again as part of an escape.
  */
  lemma {:induction false} UnescapesWhatWasEscaped(e: string, text: string, span: Span)
    requires Escapes(e, text)
    ensures Pass(e, span) == Done(text)
  {
    if e != "" {
      assert text == [text[0]] + text[1..];
      if e[0] == '\\' {
        DigitIs(e[2], text[0] as int / 16);
        DigitIs(e[3], text[0] as int % 16);
        EscapeStep(e, span);
        UnescapesWhatWasEscaped(e[4..], text[1..], span);
      } else {
        UnescapesWhatWasEscaped(e[1..], text[1..], span);
      }
    }
  }

  // Every escape that the pass comes to has two hex digits.
  predicate WellFormed(s: string) {
    if s == "" then true
    else if !EscapeAt(s, 0) then WellFormed(s[1..])
    else |s| >= 4 && IsHex(s[2]) && IsHex(s[3]) && WellFormed(s[4..])
  }

  // No escape that the pass comes to has one digit and something behind it: the spans are the same.
  predicate SameSpans(s: string)
    decreases |s|
  {
    if s == "" then true
    else if !EscapeAt(s, 0) then SameSpans(s[1..])
    else
      match ReadHex(Substr(s, 2, 2))
      case NoNumber => true
      case Number(_, used) => (used == 2 || |s| == 3) && SameSpans(s[2 + used..])
  }

  lemma {:induction false} WellFormedIsDecoded(s: string)
    requires WellFormed(s)
    ensures SameSpans(s) && Pass(s, AsRead).Done?
  {
    if s != "" {
      if EscapeAt(s, 0) {
        EscapeStep(s, AsRead);
        assert Substr(s, 2, 2) == [s[2], s[3]];
        TwoHexDigits(s[2], s[3]);
        WellFormedIsDecoded(s[4..]);
      } else {
        WellFormedIsDecoded(s[1..]);
      }
    }
  }

  /**
    On text with the same spans, readable or not, the two loops agree.
  */
  lemma {:induction false} LoopsAgree(s: string)
    requires SameSpans(s)
    ensures Pass(s, AsRead) == Pass(s, AlwaysFour)
    decreases |s|
  {
    if s != "" {
      if !EscapeAt(s, 0) {
        LoopsAgree(s[1..]);
      } else {
        match ReadHex(Substr(s, 2, 2))
        case NoNumber =>
        case Number(_, used) =>
          assert AfterEscape(s, used, AlwaysFour) == 2 + used;
          LoopsAgree(s[2 + used..]);
      }
    }
  }
}
