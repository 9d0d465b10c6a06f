/**
  Exactly when the two ways of writing the unescape loop agree.

  Where an escape has one digit and something behind it, the loop of drives.cpp keeps what is behind
  and the loop of services.cpp loses it.  From there on one of the two results is ahead of the other
  by some letters, its lead; the lemmas show that the lead is never lost again, whatever follows.
*/
module UnescapeLoops {
  import opened Decimal
  import opened Unescape

  // ----- what an escape reads -----

  // One digit read where two characters stand.
  lemma OneRead(t: string)
    requires |t| == 2 && ReadHex(t).Number? && ReadHex(t).used == 1
    ensures IsHex(t[0]) && 0 <= ReadHex(t).value < 16
  {
  }

  // Two characters read: the second is a digit, and the first is one too unless the value is small.
  lemma TwoRead(t: string)
    requires |t| == 2 && ReadHex(t).Number? && ReadHex(t).used == 2
    ensures IsHex(t[1]) && t[0] != '\\' && -16 < ReadHex(t).value < 256
    ensures IsHex(t[0]) || -16 < ReadHex(t).value < 16
  {
    assert t[0..] == t && t[1..] == [t[1]] && [t[1]][1..] == "";
    assert HexRun([t[1]]) == if IsHex(t[1]) then 1 else 0;
  }

  predicate IsControl(c: char) {
    c as int < 16
  }

  // ----- one step of both passes -----

  // The escape at the start of s parts the loops.
  predicate Parts(s: string) {
    EscapeAt(s, 0) && |s| >= 4 && ReadHex(Substr(s, 2, 2)).Number? && ReadHex(Substr(s, 2, 2)).used == 1
  }

  // What both passes write for the start of s, and where they go on, when s does not part them.
  lemma Together(s: string) returns (c: char, n: nat)
    requires s != "" && !Parts(s) && Pass(s, AsRead).Done?
    ensures 1 <= n <= |s|
    ensures forall span: Span :: Pass(s, span) == Prepend([c], Pass(s[n..], span))
    ensures SameSpans(s) <==> SameSpans(s[n..])
  {
    if EscapeAt(s, 0) {
      var number := ReadHex(Substr(s, 2, 2));
      c, n := ToChar(number.value), 2 + number.used;
      assert AfterEscape(s, number.used, AsRead) == n == AfterEscape(s, number.used, AlwaysFour);
    } else {
      c, n := s[0], 1;
      assert s[..1] == [c];
    }
  }

  // Where it does, both write a control character; one goes on with s[3..], the other with s[4..].
  lemma Apart(s: string) returns (c: char)
    requires Parts(s)
    ensures IsControl(c) && !SameSpans(s)
    ensures Pass(s, AsRead) == Prepend([c], Pass(s[3..], AsRead))
    ensures Pass(s, AlwaysFour) == Prepend([c], Pass(s[4..], AlwaysFour))
  {
    OneRead(Substr(s, 2, 2));
    c := ToChar(ReadHex(Substr(s, 2, 2)).value);
  }

  // What is known of the characters that an escape reads, and of the letter it stands for.
  lemma DigitsRead(d: string)
    requires |d| <= 2 && ReadHex(d).Number?
    ensures
      var c, used := ToChar(ReadHex(d).value), ReadHex(d).used;
      && '\\' !in d[..used] && !IsControl(d[used - 1])
      && (used == 2 && IsControl(d[0]) ==> c != d[1])
      && (c == 'x' ==> used == 2 && !IsControl(d[0]))
  {
    if |d| == 2 {
      if ReadHex(d).used == 2 {
        TwoRead(d);
      } else {
        OneRead(d);
      }
    } else {
      assert d[0..] == d && d[1..] == "";
    }
  }

  // Neither pass changes text without a backslash, whatever is behind it.
  lemma {:induction false} CopiesPlain(p: string, rest: string, span: Span)
    requires '\\' !in p
    ensures Pass(p + rest, span) == Prepend(p, Pass(rest, span))
  {
    if p == "" {
      assert p + rest == rest;
      PrependNothing(Pass(rest, span));
    } else {
      assert (p + rest)[..1] == p[..1] && (p + rest)[1..] == p[1..] + rest;
      CopiesPlain(p[1..], rest, span);
      PrependTwice(p[..1], p[1..], Pass(rest, span));
      assert p[..1] + p[1..] == p;
    }
  }

  lemma CopiesPart(t: string, a: nat, b: nat, span: Span)
    requires a <= b <= |t| && forall k :: a <= k < b ==> t[k] != '\\'
    ensures Pass(t[a..], span) == Prepend(t[a..b], Pass(t[b..], span))
  {
    assert t[a..] == t[a..b] + t[b..];
    CopiesPlain(t[a..b], t[b..], span);
  }

  lemma PrependNothing(r: Result)
    ensures Prepend("", r) == r
  {
    if r.Done? {
      assert "" + r.text == r.text;
    }
  }

  // An escape that one loop reads and the other, whose erasure took its backslash, copies.
  lemma Copied(t: string) returns (c: char, used: nat)
    requires EscapeAt(t, 0) && Pass(t, AsRead).Done?
    ensures 1 <= used <= 2 && 2 + used <= |t|
    ensures Pass(t, AsRead) == Prepend([c], Pass(t[2 + used..], AsRead))
    ensures Pass(t[1..], AlwaysFour) == Prepend(t[1..2 + used], Pass(t[2 + used..], AlwaysFour))
    ensures !IsControl(t[1 + used]) && (used == 2 && IsControl(t[2]) ==> c != t[3])
    ensures c == 'x' ==> used == 2 && !IsControl(t[2])
  {
    var d := Substr(t, 2, 2);
    c, used := ToChar(ReadHex(d).value), ReadHex(d).used;
    DigitsRead(d);
    var end := 2 + used;
    forall k | 2 <= k < end ensures t[k] == d[k - 2] && t[k] != '\\' {
      assert d[..used][k - 2] == d[k - 2];
    }
    CopiesPart(t, 1, end, AlwaysFour);
  }

  // ----- a lead is never lost -----

  // One result is ahead by lead when both go on with s.
  predicate Ahead(lead: string, s: string, leader: Span, other: Span) {
    Pass(s, leader).Done? && Prepend(lead, Pass(s, leader)) == Pass(s, other)
  }

  lemma LeadShows(lead: string, a: string)
    requires lead != ""
    ensures lead + a != a
  {
    assert |lead + a| == |lead| + |a|;
  }

  // A letter that both write moves to the end of the lead.
  lemma Rotate(lead: string, c: char, a: string, b: string)
    requires lead != "" && lead + ([c] + a) == [c] + b
    ensures lead[0] == c && (lead[1..] + [c]) + a == b
  {
    assert (lead + ([c] + a))[0] == lead[0];
    assert (lead + ([c] + a))[1..] == lead[1..] + [c] + a;
    assert ([c] + b)[1..] == b;
  }

  // A lead that ends in a control character is longer than what the other side copies: the copy has none
  // where that character would have to be.
  lemma LeadOutlasts(before: string, c: char, d: char, a: string, copied: string, b: string)
    requires before + [c] + ([d] + a) == copied + b && IsControl(c)
    requires 2 <= |copied| <= 3 && copied[0] == 'x' && !IsControl(copied[|copied| - 1])
    requires |copied| == 3 && IsControl(copied[1]) ==> d != copied[2]
    ensures |before| >= |copied| && (before[|copied|..] + [c, d]) + a == b
  {
    var all := copied + b;
    assert all[|before|] == c && all[|before| + 1] == d;
    assert forall k :: 0 <= k < |copied| ==> all[k] == copied[k];
    assert all[|copied|..] == b;
    if |before| >= |copied| {
      assert (before + [c] + ([d] + a))[|copied|..] == before[|copied|..] + [c, d] + a;
    }
  }

  /**
    What drives.cpp has kept it stays ahead by: the results never come to the same again.
  */
  lemma {:induction false} DriveStaysAhead(lead: string, s: string)
    requires lead != "" && Ahead(lead, s, AsRead, AlwaysFour)
    ensures false
    decreases |s|
  {
    var a, b := Pass(s, AsRead).text, Pass(s, AlwaysFour).text;
    if s == "" {
      LeadShows(lead, a);
    } else if !Parts(s) {
      var c, n := Together(s);
      Rotate(lead, c, Pass(s[n..], AsRead).text, Pass(s[n..], AlwaysFour).text);
      DriveStaysAhead(lead[1..] + [c], s[n..]);
    } else {
      var c := Apart(s);
      var t := s[3..];
      assert t[1..] == s[4..];
      Rotate(lead, c, Pass(t, AsRead).text, Pass(t[1..], AlwaysFour).text);
      DriveAheadByControl(lead[1..], c, t);
    }
  }

  // The same right after the loops part, when the lead ends in the control character just written.
  lemma {:induction false} DriveAheadByControl(before: string, c: char, t: string)
    requires IsControl(c) && t != "" && Pass(t, AsRead).Done?
    requires Prepend(before + [c], Pass(t, AsRead)) == Pass(t[1..], AlwaysFour)
    ensures false
    decreases |t|
  {
    var lead := before + [c];
    if !EscapeAt(t, 0) {
      assert t[..1] == [t[0]];
      PrependTwice(lead, [t[0]], Pass(t[1..], AsRead));
      DriveStaysAhead(lead + [t[0]], t[1..]);
    } else {
      var d, used := Copied(t);
      var copied, rest := t[1..2 + used], t[2 + used..];
      var a, b := Pass(rest, AsRead).text, Pass(rest, AlwaysFour).text;
      assert lead + ([d] + a) == copied + b;
      LeadOutlasts(before, c, d, a, copied, b);
      DriveStaysAhead(before[|copied|..] + [c, d], rest);
    }
  }

  /**
    And where services.cpp has copied an escape it stays ahead by that, as no escape that parts the
    loops again can write a letter of it.
  */
  lemma {:induction false} ServiceStaysAhead(lead: string, s: string)
    requires lead != "" && forall k :: 0 <= k < |lead| ==> !IsControl(lead[k])
    requires Ahead(lead, s, AlwaysFour, AsRead)
    ensures false
    decreases |s|
  {
    var a, b := Pass(s, AlwaysFour).text, Pass(s, AsRead).text;
    if s == "" {
      LeadShows(lead, a);
    } else if !Parts(s) {
      var c, n := Together(s);
      Rotate(lead, c, Pass(s[n..], AlwaysFour).text, Pass(s[n..], AsRead).text);
      ServiceStaysAhead(lead[1..] + [c], s[n..]);
    } else {
      var c := Apart(s);
      Rotate(lead, c, Pass(s[4..], AlwaysFour).text, Pass(s[3..], AsRead).text);
    }
  }

  // Where the loops part their results do, when what follows can be decoded.
  lemma PartingShows(s: string)
    requires Parts(s) && Pass(s, AsRead).Done?
    ensures Pass(s, AsRead) != Pass(s, AlwaysFour)
  {
    if Pass(s, AsRead) == Pass(s, AlwaysFour) {
      var c := Apart(s);
      var t := s[3..];
      assert t[1..] == s[4..];
      SameAfter(c, Pass(t, AsRead), Pass(t[1..], AlwaysFour));
      if !EscapeAt(t, 0) {
        assert t[..1] == [t[0]];
        DriveStaysAhead([t[0]], t[1..]);
      } else {
        PartingAtEscape(t);
      }
    }
  }

  lemma PartingAtEscape(t: string)
    requires EscapeAt(t, 0) && Pass(t, AsRead).Done?
    ensures Pass(t, AsRead) != Pass(t[1..], AlwaysFour)
  {
    var d, used := Copied(t);
    var digits, rest := t[2..2 + used], t[2 + used..];
    assert t[1..2 + used] == ['x'] + digits;
    if Pass(t, AsRead) == Pass(t[1..], AlwaysFour) {
      FirstLetters(d, Pass(rest, AsRead).text, 'x', digits, Pass(rest, AlwaysFour).text);
      ServiceStaysAhead(digits, rest);
    }
  }

  lemma FirstLetters(d: char, a: string, c: char, digits: string, b: string)
    requires [d] + a == [c] + digits + b
    ensures d == c && a == digits + b
  {
    assert ([d] + a)[0] == d && ([d] + a)[1..] == a;
    assert ([c] + digits + b)[0] == c && ([c] + digits + b)[1..] == digits + b;
  }

  // On a text that drives.cpp decodes, only the same spans give the same result.
  lemma {:induction false} DecodedAgreeIff(s: string)
    requires Pass(s, AsRead).Done?
    ensures Pass(s, AsRead) == Pass(s, AlwaysFour) <==> SameSpans(s)
    decreases |s|
  {
    if SameSpans(s) {
      LoopsAgree(s);
    }
    if s != "" {
      if Parts(s) {
        PartingShows(s);
        var c := Apart(s);
      } else {
        var c, n := Together(s);
        DecodedAgreeIff(s[n..]);
        if Pass(s, AsRead) == Pass(s, AlwaysFour) {
          SameAfter(c, Pass(s[n..], AsRead), Pass(s[n..], AlwaysFour));
        }
      }
    }
  }

  lemma SameAfter(c: char, r: Result, q: Result)
    requires r.Done? && Prepend([c], r) == Prepend([c], q)
    ensures r == q
  {
    assert ([c] + r.text)[1..] == r.text && ([c] + q.text)[1..] == q.text;
  }

  // Every escape that a pass with these spans comes to has a digit to read.
  predicate AllReadable(s: string, span: Span)
    decreases |s|
  {
    if s == "" then true
    else if !EscapeAt(s, 0) then AllReadable(s[1..], span)
    else
      match ReadHex(Substr(s, 2, 2))
      case NoNumber => false
      case Number(_, used) => AllReadable(s[AfterEscape(s, used, span)..], span)
  }

  lemma {:induction false} DecodesIff(s: string, span: Span)
    ensures if AllReadable(s, span) then Pass(s, span).Done? else Pass(s, span).Throws?
    decreases |s|
  {
    if s != "" {
      if !EscapeAt(s, 0) {
        DecodesIff(s[1..], span);
      } else {
        match ReadHex(Substr(s, 2, 2))
        case NoNumber =>
        case Number(_, used) => DecodesIff(s[AfterEscape(s, used, span)..], span);
      }
    }
  }

  /**
    For every text the two loops agree if and only if no escape that is come to has one digit and
    something behind it, or both loops come to an escape without a digit, where they throw.
  */
  lemma LoopsAgreeIff(s: string)
    ensures
      Pass(s, AsRead) == Pass(s, AlwaysFour)
      <==> SameSpans(s) || (!AllReadable(s, AsRead) && !AllReadable(s, AlwaysFour))
  {
    DecodesIff(s, AsRead);
    DecodesIff(s, AlwaysFour);
    if AllReadable(s, AsRead) {
      DecodedAgreeIff(s);
    } else if SameSpans(s) {
      LoopsAgree(s);
    }
  }

  /**
    For instance, five and then a letter.
  */
  lemma OneDigitDiffers()
    ensures Pass("\\x5z", AsRead) != Pass("\\x5z", AlwaysFour)
  {
    var s := "\\x5z";
    FiveIsRead();
    assert Substr(s, 2, 2) == "5z";
    assert s[3..] == "z" && "z"[1..] == "";
    assert AllReadable("z", AsRead);
    LoopsAgreeIff(s);
  }

  lemma FiveIsRead()
    ensures ReadHex("5z") == Number(5, 1)
  {
    assert "5z"[0..] == "5z" && "5z"[1..] == "z";
    assert HexRun("z") == 0 && HexRun("5z") == 1;
  }
}
