/**
  What a pattern of one flag writes, in terms of the message: every flag that shows a field of it, with
  and without a pad spec, and the layout of `%+`.
*/
module PatternFlags {
  import opened Decimal
  import opened Options
  import opened Padding
  import opened Pattern

  // What a pattern without custom flags writes into an empty buffer.
  function Written(pattern: string, ctx: Context): Out {
    RunAll(Program(pattern, map[]), ctx, Out("", 0, 0))
  }

  // ----- one-flag patterns -----

  lemma OneToken(spec: string, flag: char, pad: PadInfo)
    requires var p := "%" + spec + [flag]; PadSpec(p, 1) == (pad, |p| - 1)
    ensures Tokens("%" + spec + [flag], 0) == [Flag(flag, pad)]
  {
    var p := "%" + spec + [flag];
    assert p[0] == '%' && p[|p| - 1] == flag;
    assert Tokens(p, |p|) == [];
  }

  lemma OneFlagMeans(spec: string, flag: char, pad: PadInfo, ctx: Context)
    requires var p := "%" + spec + [flag]; PadSpec(p, 1) == (pad, |p| - 1)
    ensures Written("%" + spec + [flag], ctx) == FlagMeaning(flag, pad, map[], ctx, Out("", 0, 0))
  {
    hide FlagMeaning, PadSpec, Tokens, RunAll, Program;
    OneToken(spec, flag, pad);
    CompilationPreservesMeaning("%" + spec + [flag], map[], ctx, Out("", 0, 0));
    var out := FlagMeaning(flag, pad, map[], ctx, Out("", 0, 0));
    var one := [Flag(flag, pad)];
    assert one[1..] == [];
    assert Interpret([], map[], ctx, out) == out;
  }

  lemma PlainFlagMeans(flag: char, ctx: Context)
    requires !IsDigit(flag) && flag != '-' && flag != '='
    ensures Written(['%', flag], ctx) == FlagMeaning(flag, NO_PAD, map[], ctx, Out("", 0, 0))
  {
    assert "%" + "" + [flag] == ['%', flag];
    OneFlagMeans("", flag, NO_PAD, ctx);
  }

  lemma PlainFieldMeans(flag: char, ctx: Context)
    requires IsBuiltin(flag) && flag != '^' && flag != '$'
    ensures
      var body := FieldText(flag, ctx);
      Written(['%', flag], ctx) == Out(if body.Some? then body.value else "", 0, 0)
  {
    hide FieldText, RunAll, Program;
    PlainFlagMeans(flag, ctx);
    if FieldText(flag, ctx).Some? {
      assert "" + FieldText(flag, ctx).value == FieldText(flag, ctx).value;
    }
  }

  /**
    A pattern without flags is written as it stands.
  */
  lemma PlainPatternIsItself(p: string, ctx: Context)
    requires '%' !in p
    ensures Written(p, ctx) == Out(p, 0, 0)
  {
    CompilationPreservesMeaning(p, map[], ctx, Out("", 0, 0));
    PlainFrom(p, 0, ctx, Out("", 0, 0));
    assert "" + p[0..] == p;
  }

  lemma NextChar(p: string, i: nat)
    requires i < |p| && p[i] != '%'
    ensures Tokens(p, i) == [Char(p[i])] + Tokens(p, i + 1)
  {
  }

  lemma CharReads(c: char, rest: seq<Token>, ctx: Context, out: Out)
    ensures Interpret([Char(c)] + rest, map[], ctx, out) == Interpret(rest, map[], ctx, Add(out, [c]))
  {
    assert ([Char(c)] + rest)[1..] == rest;
  }

  lemma AddNext(out: Out, p: string, i: nat)
    requires i < |p|
    ensures Add(Add(out, [p[i]]), p[i + 1..]) == Add(out, p[i..])
  {
    assert p[i..] == [p[i]] + p[i + 1..];
    assert out.text + ([p[i]] + p[i + 1..]) == out.text + [p[i]] + p[i + 1..];
  }

  lemma {:induction false} PlainFrom(p: string, i: nat, ctx: Context, out: Out)
    requires '%' !in p && i <= |p|
    ensures Interpret(Tokens(p, i), map[], ctx, out) == Add(out, p[i..])
    decreases |p| - i
  {
    if i == |p| {
      assert out.text + p[i..] == out.text;
    } else {
      hide Tokens, Interpret, Add;
      NextChar(p, i);
      CharReads(p[i], Tokens(p, i + 1), ctx, out);
      PlainFrom(p, i + 1, ctx, Add(out, [p[i]]));
      AddNext(out, p, i);
    }
  }

  // ----- the fields -----

  // The number in decimal, with zeros in front of it up to this many characters.
  ghost predicate IsNumber(text: string, n: nat, width: nat) {
    && text != "" && AllDigits(text) && Value(text) == n
    && |text| >= width && (|text| > width && |text| > 1 ==> text[0] != '0')
  }

  lemma {:induction false} PrintIsNumber(n: nat)
    ensures IsNumber(Print(n), n, 1) && (n > 0 ==> Print(n)[0] != '0')
    ensures n < 10 <==> |Print(n)| == 1
    ensures n < 100 <==> |Print(n)| <= 2
    decreases n
  {
    PrintIsDecimal(n);
    if n < 10 {
      assert Print(n) == [DigitChar(n)];
    } else {
      PrintIsNumber(n / 10);
      hide AllDigits, Value, DigitChar, Print;
      PrintGoesOn(n);
    }
  }

  lemma PrintGoesOn(n: nat)
    requires n >= 10 && Print(n / 10) != ""
    ensures |Print(n)| == |Print(n / 10)| + 1 && Print(n)[0] == Print(n / 10)[0]
  {
    assert Print(n) == Print(n / 10) + [DigitChar(n % 10)];
  }

  // The longest end of the file name that has no separator in it.
  predicate IsBaseName(text: string, filename: string, sep: char) {
    && |text| <= |filename|
    && var start := |filename| - |text|;
    && filename[start..] == text
    && (forall i :: 0 <= i < |text| ==> text[i] != sep)
    && (start > 0 ==> filename[start - 1] == sep)
  }

  lemma {:induction false} BaseNameIs(filename: string, sep: char)
    ensures IsBaseName(BaseName(filename, sep), filename, sep)
    decreases |filename|
  {
    var n := |filename| - 1;
    if filename != "" && filename[n] != sep {
      BaseNameIs(filename[..n], sep);
      hide BaseStart;
      BaseGoesOn(filename, sep);
      LongerBase(filename[..n], filename[n], BaseName(filename[..n], sep), sep);
      assert filename[..n] + [filename[n]] == filename;
    }
  }

  lemma BaseGoesOn(filename: string, sep: char)
    requires filename != "" && filename[|filename| - 1] != sep
    ensures
      var n := |filename| - 1;
      BaseName(filename, sep) == BaseName(filename[..n], sep) + [filename[n]]
  {
    var n := |filename| - 1;
    var start := BaseStart(filename, sep);
    assert filename[start..] == filename[..n][start..] + [filename[n]];
  }

  lemma LongerBase(before: string, c: char, text: string, sep: char)
    requires IsBaseName(text, before, sep) && c != sep
    ensures IsBaseName(text + [c], before + [c], sep)
  {
    var start := |before| - |text|;
    assert (before + [c])[start..] == before[start..] + [c];
  }

  /**
    Each flag of the message shows its own field: the logger's name, the level and its short form, the
    thread and the process in decimal, the payload; `%%` is a percent sign.
  */
  lemma FlagsShowTheirFields(ctx: Context)
    ensures Written("%n", ctx) == Out(ctx.msg.loggerName, 0, 0)
    ensures Written("%l", ctx) == Out(ctx.msg.level, 0, 0)
    ensures Written("%L", ctx) == Out(ctx.msg.shortLevel, 0, 0)
    ensures Written("%v", ctx) == Out(ctx.msg.payload, 0, 0)
    ensures IsNumber(Written("%t", ctx).text, ctx.msg.threadId, 1)
    ensures IsNumber(Written("%P", ctx).text, ctx.env.pid, 1)
    ensures Written("%%", ctx) == Out("%", 0, 0)
  {
    hide Written, FieldText;
    MessageFields(ctx);
    PlainFieldMeans('n', ctx);
    PlainFieldMeans('l', ctx);
    PlainFieldMeans('L', ctx);
    PlainFieldMeans('v', ctx);
    PlainFieldMeans('t', ctx);
    PlainFieldMeans('P', ctx);
    PlainFlagMeans('%', ctx);
    PrintIsNumber(ctx.msg.threadId);
    PrintIsNumber(ctx.env.pid);
  }

  lemma MessageFields(ctx: Context)
    ensures FieldText('n', ctx) == Some(ctx.msg.loggerName)
    ensures FieldText('l', ctx) == Some(ctx.msg.level)
    ensures FieldText('L', ctx) == Some(ctx.msg.shortLevel)
    ensures FieldText('v', ctx) == Some(ctx.msg.payload)
    ensures FieldText('t', ctx) == Some(Print(ctx.msg.threadId))
    ensures FieldText('P', ctx) == Some(Print(ctx.env.pid))
  {
  }

  const TIME_FLAGS := "aAbhBcCYDxmdHIMSefFEprRTXzuioO"
  const OTHER_FLAGS := "nlLtvP@sg#!^$+%"

  /**
    The flags of dates and elapsed times show their text; every other character stands for itself with its
    percent sign.  Digits, `-` and `=` begin a pad spec.
  */
  lemma OtherFlagsShow(flag: char, ctx: Context)
    requires !IsDigit(flag) && flag != '-' && flag != '=' && flag !in OTHER_FLAGS
    ensures
      Written(['%', flag], ctx)
      == Out(if flag in TIME_FLAGS then ctx.env.dateText(flag, ctx.msg, ctx.tm) else ['%', flag], 0, 0)
  {
    hide Written, FieldText;
    KnownFlags(flag);
    if flag in TIME_FLAGS {
      TimeField(flag, ctx);
      PlainFieldMeans(flag, ctx);
    } else {
      PlainFlagMeans(flag, ctx);
      assert "" + "%" + [flag] == ['%', flag];
    }
  }

  lemma KnownFlags(flag: char)
    ensures IsBuiltin(flag) || flag == '+' || flag == '%' <==> flag in TIME_FLAGS || flag in OTHER_FLAGS
  {
  }

  lemma TimeField(flag: char, ctx: Context)
    requires flag !in OTHER_FLAGS
    ensures FieldText(flag, ctx) == Some(ctx.env.dateText(flag, ctx.msg, ctx.tm))
  {
  }

  /**
    The flags of the source location write nothing without one; with one, `%g` shows the file, `%s` its
    last component, `%#` the line, `%!` the function, and `%@` the file and the line.
  */
  lemma SourceFlagsShow(ctx: Context)
    ensures ctx.msg.source.line == 0 ==>
      forall flag :: flag in "@sg#!" ==> Written(['%', flag], ctx) == Out("", 0, 0)
    ensures ctx.msg.source.line != 0 ==>
      && Written("%g", ctx) == Out(ctx.msg.source.filename, 0, 0)
      && Written("%!", ctx) == Out(ctx.msg.source.funcname, 0, 0)
      && IsBaseName(Written("%s", ctx).text, ctx.msg.source.filename, ctx.env.folderSep)
      && IsNumber(Written("%#", ctx).text, ctx.msg.source.line, 1)
      && Written("%@", ctx).text == ctx.msg.source.filename + ":" + Written("%#", ctx).text
  {
    hide Written, FieldText;
    SourceFields(ctx);
    forall flag | flag in "@sg#!"
      ensures ctx.msg.source.line == 0 ==> Written(['%', flag], ctx) == Out("", 0, 0)
    {
      PlainFieldMeans(flag, ctx);
    }
    PlainFieldMeans('g', ctx);
    PlainFieldMeans('!', ctx);
    PlainFieldMeans('s', ctx);
    PlainFieldMeans('#', ctx);
    PlainFieldMeans('@', ctx);
    BaseNameIs(ctx.msg.source.filename, ctx.env.folderSep);
    PrintIsNumber(ctx.msg.source.line);
  }

  lemma SourceFields(ctx: Context)
    ensures ctx.msg.source.line == 0 ==> forall flag :: flag in "@sg#!" ==> FieldText(flag, ctx) == None
    ensures ctx.msg.source.line != 0 ==>
      var source := ctx.msg.source;
      && FieldText('g', ctx) == Some(source.filename)
      && FieldText('!', ctx) == Some(source.funcname)
      && FieldText('s', ctx) == Some(BaseName(source.filename, ctx.env.folderSep))
      && FieldText('#', ctx) == Some(Print(source.line))
      && FieldText('@', ctx) == Some(source.filename + ":" + Print(source.line))
  {
  }

  // ----- with a pad spec -----

  ghost predicate Framed(text: string, body: string, before: nat, behind: nat) {
    && |text| == before + |body| + behind
    && text[before..before + |body|] == body
    && (forall i :: 0 <= i < before ==> text[i] == ' ')
    && (forall i :: before + |body| <= i < |text| ==> text[i] == ' ')
  }

  // The body between spaces that fill the room, or what the room leaves of it.
  ghost predicate PaddedTo(text: string, body: string, side: Side, room: nat, truncate: bool) {
    if |body| >= room then text == if truncate then body[..room] else body
    else
      exists before: nat, behind: nat ::
        && Framed(text, body, before, behind)
        && before + |body| + behind == room
        && match side
           case Left => behind == 0
           case Right => before == 0
           case Center => before <= behind <= before + 1
  }

  /**
    A pad spec puts spaces around what the flag shows, up to its width of 64 at most: before it, behind it
    for `-`, and on both sides for `=`, the odd one behind.  With `!` what is too long is cut at the width;
    so the flag `!` itself needs the mark before it, or it is taken for one and nothing is shown.
  */
  lemma PaddedFlagShows(flag: char, side: Side, width: nat, truncate: bool, ctx: Context)
    requires IsBuiltin(flag) && flag != '^' && flag != '$' && width < SIZE_T
    ensures
      var text := Written("%" + SpecText(side, Print(width), truncate) + [flag], ctx).text;
      if flag == '!' && !truncate then text == ""
      else if NeedsSource(flag) && ctx.msg.source.line == 0 then text == ""
      else PaddedTo(text, Written(['%', flag], ctx).text, side, if width < 64 then width else 64, truncate)
  {
    hide Written, FieldText, PaddedTo, PadSpec, PaddedExactly, SpecText;
    var spec := SpecText(side, Print(width), truncate);
    var pad := PadInfo(Capped(width), side, truncate, true);
    if flag == '!' && !truncate {
      MarkTaken(side, width, ctx);
    } else {
      SpecReadsAlone(flag, side, width, truncate);
      PaddedFieldMeans(spec, flag, pad, ctx);
      PlainFieldMeans(flag, ctx);
      NoFieldIff(flag, ctx);
      if FieldText(flag, ctx).Some? {
        PaddingFrames(pad, FieldText(flag, ctx).value);
      }
    }
  }

  lemma PaddedFieldMeans(spec: string, flag: char, pad: PadInfo, ctx: Context)
    requires IsBuiltin(flag) && flag != '^' && flag != '$' && pad.enabled
    requires PadSpec("%" + spec + [flag], 1) == (pad, 1 + |spec|)
    ensures
      var body := FieldText(flag, ctx);
      Written("%" + spec + [flag], ctx).text == if body.Some? then PaddedExactly("", pad, body.value) else ""
  {
    hide Written, FieldText, PadSpec, PaddedExactly;
    OneFlagMeans(spec, flag, pad, ctx);
  }

  lemma SpecReadsAlone(flag: char, side: Side, width: nat, truncate: bool)
    requires IsBuiltin(flag) && width < SIZE_T && (flag == '!' ==> truncate)
    ensures
      var spec := SpecText(side, Print(width), truncate);
      PadSpec("%" + spec + [flag], 1) == (PadInfo(Capped(width), side, truncate, true), 1 + |spec|)
  {
    hide PadSpec;
    var spec := SpecText(side, Print(width), truncate);
    SpecStands(spec, flag);
    PadSpecReadsBack("%" + spec + [flag], 1, side, width, Print(width), truncate);
  }

  // A `!` behind the width is read as the mark.
  lemma MarkTaken(side: Side, width: nat, ctx: Context)
    requires width < SIZE_T
    ensures Written("%" + SpecText(side, Print(width), false) + ['!'], ctx).text == ""
  {
    hide PadSpec, Program;
    var spec := SpecText(side, Print(width), true);
    var p := "%" + spec;
    MarkBehind(side, Print(width));
    StandsBehind(spec);
    PadSpecReadsBack(p, 1, side, width, Print(width), true);
    NoFlagNoText(p, ctx);
  }

  lemma MarkBehind(side: Side, digits: string)
    ensures "%" + SpecText(side, digits, false) + ['!'] == "%" + SpecText(side, digits, true)
  {
    assert SpecText(side, digits, false) + ['!'] == SpecText(side, digits, true);
  }

  lemma StandsBehind(spec: string)
    ensures StandsAt("%" + spec, 1, spec)
  {
  }

  lemma NoFlagNoText(p: string, ctx: Context)
    requires p != "" && p[0] == '%' && PadSpec(p, 1).1 == |p|
    ensures Written(p, ctx).text == ""
  {
    hide PadSpec;
    assert Tokens(p, 0) == [];
  }

  lemma NoFieldIff(flag: char, ctx: Context)
    ensures FieldText(flag, ctx).None? <==> NeedsSource(flag) && ctx.msg.source.line == 0
  {
  }

  lemma SpecStands(spec: string, flag: char)
    ensures StandsAt("%" + spec + [flag], 1, spec)
  {
  }

  lemma PaddingFrames(pad: PadInfo, body: string)
    ensures PaddedTo(PaddedExactly("", pad, body), body, pad.side, pad.width, pad.truncate)
  {
    var text := PaddedExactly("", pad, body);
    if |body| < pad.width {
      var before, behind := Before(pad, |body|), After(pad, |body|);
      assert Framed(text, body, before, behind);
    } else {
      assert Spaces(0) == "" && "" + body == body;
    }
  }

  // ----- colours -----

  lemma TokensAt(p: string, i: nat)
    requires i + 1 < |p| && p[i] == '%' && !IsDigit(p[i + 1]) && p[i + 1] != '-' && p[i + 1] != '='
    ensures Tokens(p, i) == [Flag(p[i + 1], NO_PAD)] + Tokens(p, i + 2)
  {
  }

  // `%^` and `%$` mark the colour range: from what is written before the one to what is before the other.
  lemma ColoursMarkTheirRange(ctx: Context)
    ensures Written("%L%^%v%$%L", ctx) == Out(
      ctx.msg.shortLevel + ctx.msg.payload + ctx.msg.shortLevel,
      |ctx.msg.shortLevel|, |ctx.msg.shortLevel + ctx.msg.payload|)
  {
    hide FieldText, Program, RunAll, Tokens;
    var p := "%L%^%v%$%L";
    MessageFields(ctx);
    var a, b, c, d := Flag('L', NO_PAD), Flag('^', NO_PAD), Flag('v', NO_PAD), Flag('$', NO_PAD);
    TokensAt(p, 0);
    TokensAt(p, 2);
    TokensAt(p, 4);
    TokensAt(p, 6);
    TokensAt(p, 8);
    TokensEnd(p);
    assert Tokens(p, 0) == [a, b, c, d, a];
    CompilationPreservesMeaning(p, map[], ctx, Out("", 0, 0));
    var (m, v, n) := (ctx.msg.shortLevel, ctx.msg.payload, ctx.msg.shortLevel);
    Reads(a, [b, c, d, a], ctx, Out("", 0, 0));
    assert "" + m == m;
    Reads(b, [c, d, a], ctx, Out(m, 0, 0));
    Reads(c, [d, a], ctx, Out(m, |m|, 0));
    Reads(d, [a], ctx, Out(m + v, |m|, 0));
    Reads(a, [], ctx, Out(m + v, |m|, |m + v|));
  }

  lemma TokensEnd(p: string)
    ensures Tokens(p, |p|) == []
  {
  }

  lemma Reads(t: Token, rest: seq<Token>, ctx: Context, out: Out)
    requires t.Flag?
    ensures Interpret([t] + rest, map[], ctx, out)
         == Interpret(rest, map[], ctx, FlagMeaning(t.c, t.pad, map[], ctx, out))
  {
    assert ([t] + rest)[1..] == rest;
  }

  // ----- the layout of `%+` -----

  // The number as above, or a negative one as its sign and its size.
  ghost predicate IsSigned(text: string, n: int, width: nat) {
    if n < 0 then text != "" && text[0] == '-' && IsNumber(text[1..], -n, 1) else IsNumber(text, n, width)
  }

  lemma PadsAreNumbers(n: int)
    ensures IsSigned(PrintInt(n), n, 1) && IsSigned(Pad2(n), n, 2)
    ensures n >= 0 ==> IsNumber(Pad3(n), n, 3)
  {
    if n < 0 {
      PrintIsNumber(-n);
      assert ("-" + Print(-n))[1..] == Print(-n);
    } else {
      PrintIsNumber(n);
      if n < 10 {
        ZeroInFront(Print(n));
        ZeroInFront("0" + Print(n));
        assert "0" + ("0" + Print(n)) == "00" + Print(n);
      } else if n < 100 {
        ZeroInFront(Print(n));
      }
    }
  }

  lemma {:induction false} ZeroInFront(digits: string)
    requires AllDigits(digits)
    ensures AllDigits("0" + digits) && Value("0" + digits) == Value(digits)
    decreases |digits|
  {
    var s, n := "0" + digits, |digits| - 1;
    if digits == "" {
      assert s[..0] == "";
    } else {
      ZeroInFront(digits[..n]);
      assert s[..|digits|] == "0" + digits[..n];
    }
  }

  /**
    The milliseconds shown are below a thousand exactly when the time is not before the epoch or has no
    whole millisecond beyond a full second.  After the epoch they are those within the second; before it
    they are an unsigned wrap-around.
  */
  lemma MillisAre(time: int)
    ensures Millis(time) < 1000 <==> time >= 0 || -time / 1_000_000 % 1000 == 0
    ensures time >= 0 ==> Millis(time) == time / 1_000_000 % 1000
    ensures time < 0 ==>
      var m := -time / 1_000_000 % 1000;
      Millis(time) == if m == 0 then 0 else 0x1_0000_0000 - m
  {
    var t := if time < 0 then -time else time;
    var ms, s := t / 1_000_000, t / 1_000_000_000;
    assert t == ms * 1_000_000 + t % 1_000_000 && ms == ms / 1000 * 1000 + ms % 1000;
    assert s == ms / 1000;
  }

  /**
    `%+` is laid out as `[year-month-day hour:minute:second.millis] [name] [level] [file:line] payload`,
    without the name when the logger has none and without the place when the message has none; the colour
    range is that of the level.
  */
  lemma FullLayout(ctx: Context)
    returns (year: string, mon: string, day: string, hour: string, min: string, sec: string, millis: string)
    ensures IsSigned(year, ctx.tm.year + 1900, 1) && IsSigned(mon, ctx.tm.mon + 1, 2) && IsSigned(day, ctx.tm.mday, 2)
    ensures IsSigned(hour, ctx.tm.hour, 2) && IsSigned(min, ctx.tm.min, 2) && IsSigned(sec, ctx.tm.sec, 2)
    ensures ctx.msg.time >= 0 ==> IsNumber(millis, ctx.msg.time / 1_000_000 % 1000, 3)
    ensures ctx.msg.time < 0 ==>
      var m := -ctx.msg.time / 1_000_000 % 1000;
      IsNumber(millis, if m == 0 then 0 else 0x1_0000_0000 - m, 3)
    ensures
      var msg := ctx.msg;
      var lead := "[" + year + "-" + mon + "-" + day + " " + hour + ":" + min + ":" + sec + "." + millis + "] "
        + (if msg.loggerName == "" then "" else "[" + msg.loggerName + "] ") + "[";
      var place := if msg.source.line == 0 then "" else
        "[" + Written("%s", ctx).text + ":" + Written("%#", ctx).text + "] ";
      Written("%+", ctx)
      == Out(lead + msg.level + "] " + place + msg.payload, |lead|, |lead + msg.level|)
  {
    hide Written, FieldText, IsSigned, IsNumber, PrintInt, Pad2, Pad3, Print, Millis, BaseName;
    year, mon, day := PrintInt(ctx.tm.year + 1900), Pad2(ctx.tm.mon + 1), Pad2(ctx.tm.mday);
    hour, min, sec := Pad2(ctx.tm.hour), Pad2(ctx.tm.min), Pad2(ctx.tm.sec);
    millis := Pad3(Millis(ctx.msg.time));
    PadsAreNumbers(ctx.tm.year + 1900);
    PadsAreNumbers(ctx.tm.mon + 1);
    PadsAreNumbers(ctx.tm.mday);
    PadsAreNumbers(ctx.tm.hour);
    PadsAreNumbers(ctx.tm.min);
    PadsAreNumbers(ctx.tm.sec);
    PadsAreNumbers(Millis(ctx.msg.time));
    MillisAre(ctx.msg.time);
    DateThenRest(ctx);
    PlaceIs(ctx);
  }

  lemma DateThenRest(ctx: Context)
    ensures Written("%+", ctx) == FullRest(ctx, Out(DateText(ctx.tm), 0, 0))
  {
    hide Written, DateText;
    PlainFlagMeans('+', ctx);
    assert "" + DateText(ctx.tm) == DateText(ctx.tm);
  }

  lemma PlaceIs(ctx: Context)
    ensures SourcePiece(ctx.msg.source, ctx.env.folderSep) ==
      if ctx.msg.source.line == 0 then ""
      else "[" + Written("%s", ctx).text + ":" + Written("%#", ctx).text + "] "
  {
    hide Written, FieldText, BaseName, Print;
    PlainFieldMeans('s', ctx);
    PlainFieldMeans('#', ctx);
    SourceFields(ctx);
  }
}
