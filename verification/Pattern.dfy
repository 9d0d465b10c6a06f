/**
  The pattern compiler: a format string is compiled once into a list of formatters, and the list is
  run for every message.  The theorems compare it with reading the pattern directly, left to right.
*/
module Pattern {
  import opened Decimal
  import opened Options
  import opened Padding

  // ----- messages -----

  datatype Source = Source(filename: string, line: nat, funcname: string) {
    predicate Empty() {
      line == 0
    }
  }

  // Broken-down time.
  datatype Tm = Tm(year: int, mon: int, mday: int, hour: int, min: int, sec: int)

  datatype Message = Message(
    loggerName: string,
    level: string,
    shortLevel: string,
    threadId: nat,
    source: Source,
    payload: string,
    time: int)            // nanoseconds since the epoch

  // A user's formatter for a custom flag, known by number.
  type Handler = nat

  // What stays the same from message to message: the process, the folder separator, the text of the
  // date and elapsed-time flags, and the text of a custom formatter.
  datatype Env = Env(
    pid: nat,
    folderSep: char,
    dateText: (char, Message, Tm) -> string,
    customText: (Handler, PadInfo, Message, Tm) -> string)

  // What a formatter sees.
  datatype Context = Context(msg: Message, tm: Tm, env: Env)

  // The buffer, and the colour range that formatters leave in the message.
  datatype Out = Out(text: string, colorStart: nat, colorEnd: nat)

  function Add(out: Out, s: string): Out {
    out.(text := out.text + s)
  }

  // ----- formatters -----

  datatype Formatter =
    | Literal(text: string)
    | Percent
    | Custom(handler: Handler, pad: PadInfo)
    | Full
    | Builtin(flag: char, pad: PadInfo)

  // The flags with a formatter of their own, besides `%` and `+`.
  predicate IsBuiltin(flag: char) {
    match flag
    case 'n' | 'l' | 'L' | 't' | 'v' | 'a' | 'A' | 'b' | 'h' | 'B' | 'c' | 'C' | 'Y' | 'D' | 'x' => true
    case 'm' | 'd' | 'H' | 'I' | 'M' | 'S' | 'e' | 'f' | 'F' | 'E' | 'p' | 'r' | 'R' | 'T' | 'X' => true
    case 'z' | 'P' | '^' | '$' | '@' | 's' | 'g' | '#' | '!' | 'u' | 'i' | 'o' | 'O' => true
    case _ => false
  }

  // The flags whose formatters return at once when the message has no source location.
  predicate NeedsSource(flag: char) {
    flag == '@' || flag == 's' || flag == 'g' || flag == '#' || flag == '!'
  }

  // Where the last folder separator is, plus one.
  function BaseStart(filename: string, sep: char): (i: nat)
    ensures i <= |filename|
    decreases |filename|
  {
    if filename == "" then 0
    else if filename[|filename| - 1] == sep then |filename|
    else BaseStart(filename[..|filename| - 1], sep)
  }

  function BaseName(filename: string, sep: char): string {
    filename[BaseStart(filename, sep)..]
  }

  // The text of a padded flag; None when its formatter writes nothing at all, padding included.
  function FieldText(flag: char, ctx: Context): Option<string> {
    var msg := ctx.msg;
    if NeedsSource(flag) && msg.source.Empty() then None
    else
      match flag
      case 'n' => Some(msg.loggerName)
      case 'l' => Some(msg.level)
      case 'L' => Some(msg.shortLevel)
      case 't' => Some(Print(msg.threadId))
      case 'v' => Some(msg.payload)
      case 'P' => Some(Print(ctx.env.pid))
      case '@' => Some(msg.source.filename + ":" + Print(msg.source.line))
      case 's' => Some(BaseName(msg.source.filename, ctx.env.folderSep))
      case 'g' => Some(msg.source.filename)
      case '#' => Some(Print(msg.source.line))
      case '!' => Some(msg.source.funcname)
      case _ => Some(ctx.env.dateText(flag, msg, ctx.tm))
  }

  // A field with its padding, when the flag carries a pad spec.
  function Field(flag: char, pad: PadInfo, ctx: Context, out: Out): Out {
    match FieldText(flag, ctx)
    case None => out
    case Some(body) => if pad.enabled then out.(text := PaddedExactly(out.text, pad, body)) else Add(out, body)
  }

  // A field whose declared size is its length.
  function PaddedExactly(dest: string, pad: PadInfo, body: string): string {
    Padded(dest, pad, |body|, body)
  }

  // fmt's printing of signed numbers, and of one padded with a zero to two characters.
  function PrintInt(n: int): string {
    if n < 0 then "-" + Print(-n) else Print(n)
  }

  function Pad2(n: int): string {
    if 0 <= n < 10 then "0" + Print(n) else PrintInt(n)
  }

  function Pad3(n: nat): string {
    if n < 10 then "00" + Print(n) else if n < 100 then "0" + Print(n) else Print(n)
  }

  // The part of `%+` that full_formatter caches for a second.
  function DateText(tm: Tm): string {
    DateOf(PrintInt(tm.year + 1900), Pad2(tm.mon + 1), Pad2(tm.mday), Pad2(tm.hour), Pad2(tm.min), Pad2(tm.sec))
  }

  function DateOf(year: string, mon: string, day: string, hour: string, min: string, sec: string): string {
    "[" + year + "-" + mon + "-" + day + " " + hour + ":" + min + ":" + sec + "."
  }

  // duration_cast truncates toward zero.
  function TruncDiv(a: int, b: int): int
    requires b > 0
  {
    if a >= 0 then a / b else -((-a) / b)
  }

  function Seconds(time: int): int {
    TruncDiv(time, 1_000_000_000)
  }

  // The milliseconds of a message, cast to an unsigned 32-bit number.
  function Millis(time: int): nat {
    (TruncDiv(time, 1_000_000) - Seconds(time) * 1000) % 0x1_0000_0000
  }

  // The pieces of `%+` that a message may leave out.
  function NamePiece(msg: Message): string {
    if |msg.loggerName| > 0 then "[" + msg.loggerName + "] " else ""
  }

  function SourcePiece(source: Source, sep: char): string {
    if source.Empty() then "" else "[" + BaseName(source.filename, sep) + ":" + Print(source.line) + "] "
  }

  // The rest of `%+`, after the cached date.
  function FullRest(ctx: Context, out: Out): Out {
    var msg := ctx.msg;
    var lead := out.text + Pad3(Millis(msg.time)) + "] " + NamePiece(msg) + "[";
    var end := |lead + msg.level|;
    Out(lead + msg.level + "] " + SourcePiece(msg.source, ctx.env.folderSep) + msg.payload, |lead|, end)
  }

  function FullText(ctx: Context, out: Out): Out {
    FullRest(ctx, Add(out, DateText(ctx.tm)))
  }

  function Format(f: Formatter, ctx: Context, out: Out): Out {
    match f
    case Literal(s) => Add(out, s)
    case Percent => Add(out, "%")
    case Custom(h, pad) => Add(out, ctx.env.customText(h, pad, ctx.msg, ctx.tm))
    case Full => FullText(ctx, out)
    case Builtin('^', _) => out.(colorStart := |out.text|)
    case Builtin('$', _) => out.(colorEnd := |out.text|)
    case Builtin(flag, pad) => Field(flag, pad, ctx, out)
  }

  // What running a formatter does to the output.
  type Step = (Formatter, Out) -> Out

  function StepOf(ctx: Context): Step {
    (f: Formatter, out: Out) => Format(f, ctx, out)
  }

  // The first n formatters, one after the other.
  function RunFirst(step: Step, fs: seq<Formatter>, n: nat, out: Out): Out
    requires n <= |fs|
  {
    if n == 0 then out else step(fs[n - 1], RunFirst(step, fs, n - 1, out))
  }

  function RunAll(fs: seq<Formatter>, ctx: Context, out: Out): Out {
    RunFirst(StepOf(ctx), fs, |fs|, out)
  }

  // ----- pad specs -----

  const SIZE_T := 0x1_0000_0000_0000_0000

  function Capped(width: nat): (w: nat)
    ensures w <= MAX_WIDTH
  {
    if width < MAX_WIDTH then width else MAX_WIDTH
  }

  // A pad spec of this width whose digits end at position end, and the position after it.
  function SpecOf(p: string, side: Side, width: nat, end: nat): (r: (PadInfo, nat))
    requires end <= |p|
    ensures end <= r.1 <= |p|
    ensures r.0.width <= MAX_WIDTH
  {
    var truncate := end < |p| && p[end] == '!';
    (PadInfo(Capped(width), side, truncate, true), if truncate then end + 1 else end)
  }

  predicate AllDigitsIn(p: string, a: nat, b: nat)
    requires b <= |p|
  {
    forall k :: a <= k < b ==> IsDigit(p[k])
  }

  // Where the run of digits from position a on ends.
  function RunEnd(p: string, a: nat): (b: nat)
    requires a <= |p|
    ensures a <= b <= |p| && AllDigitsIn(p, a, b)
    ensures b < |p| ==> !IsDigit(p[b])
    decreases |p| - a
  {
    if a < |p| && IsDigit(p[a]) then RunEnd(p, a + 1) else a
  }

  // The number its digits from a to b stand for.
  function NumberIn(p: string, a: nat, b: nat): nat
    requires a <= b <= |p| && AllDigitsIn(p, a, b)
  {
    if a == b then 0 else NumberIn(p, a, b - 1) * 10 + DigitValue(p[b - 1])
  }

  // The rest of a pad spec whose width starts at position start: a run of digits, in size_t arithmetic.
  function SizedSpec(p: string, start: nat, side: Side): (r: (PadInfo, nat))
    requires start < |p| && IsDigit(p[start])
    ensures start < r.1 <= |p|
    ensures r.0.width <= MAX_WIDTH
  {
    var end := RunEnd(p, start);
    SpecOf(p, side, NumberIn(p, start, end) % SIZE_T, end)
  }

  // The pad spec at position i, and the position after it.
  function PadSpec(p: string, i: nat): (r: (PadInfo, nat))
    requires i <= |p|
    ensures i <= r.1 <= |p|
    ensures r.0.width <= MAX_WIDTH
  {
    if i == |p| then (NO_PAD, i)
    else
      var side := if p[i] == '-' then Right else if p[i] == '=' then Center else Left;
      var start := if p[i] == '-' || p[i] == '=' then i + 1 else i;
      if start == |p| || !IsDigit(p[start]) then (NO_PAD, start) else SizedSpec(p, start, side)
  }

  // A pattern is read as plain characters and as flags, each with the pad spec before it.  A `%` with
  // nothing after its pad spec ends the pattern.
  datatype Token = Char(c: char) | Flag(c: char, pad: PadInfo)

  function Tokens(p: string, i: nat): seq<Token>
    requires i <= |p|
    decreases |p| - i
  {
    if i == |p| then []
    else if p[i] != '%' then [Char(p[i])] + Tokens(p, i + 1)
    else
      var (pad, j) := PadSpec(p, i + 1);
      if j == |p| then [] else [Flag(p[j], pad)] + Tokens(p, j + 1)
  }

  // ----- compilation -----

  type Handlers = map<char, Handler>

  function FlagFormatters(flag: char, pad: PadInfo, handlers: Handlers): (fs: seq<Formatter>)
    ensures |fs| >= 1
  {
    if flag in handlers then [Custom(handlers[flag], pad)]
    else if flag == '+' then [Full]
    else if flag == '%' then [Percent]
    else if IsBuiltin(flag) then [Builtin(flag, pad)]
    else if !pad.truncate then [Literal("%" + [flag])]
    else [Builtin('!', pad.(truncate := false)), Literal([flag])]
  }

  // The text collected so far, if any.
  function Flush(chars: string): seq<Formatter> {
    if chars == "" then [] else [Literal(chars)]
  }

  // The program for what is left of a pattern, with the user's text collected so far.
  function Compile(ts: seq<Token>, chars: string, handlers: Handlers): seq<Formatter>
    decreases |ts|
  {
    if ts == [] then Flush(chars)
    else
      match ts[0]
      case Char(c) => Compile(ts[1..], chars + [c], handlers)
      case Flag(c, pad) => Flush(chars) + FlagFormatters(c, pad, handlers) + Compile(ts[1..], "", handlers)
  }

  function Program(p: string, handlers: Handlers): seq<Formatter> {
    Compile(Tokens(p, 0), "", handlers)
  }

  // ----- reading the pattern directly -----

  // What a flag writes: the user's text, the field, or for an unknown flag the flag itself, unless a
  // `!` before it is to be read as the function-name flag.
  function FlagMeaning(flag: char, pad: PadInfo, handlers: Handlers, ctx: Context, out: Out): Out {
    if flag in handlers then Add(out, ctx.env.customText(handlers[flag], pad, ctx.msg, ctx.tm))
    else if flag == '+' then FullText(ctx, out)
    else if flag == '%' then Add(out, "%")
    else if flag == '^' then out.(colorStart := |out.text|)
    else if flag == '$' then out.(colorEnd := |out.text|)
    else if IsBuiltin(flag) then Field(flag, pad, ctx, out)
    else if pad.truncate then Add(Field('!', pad.(truncate := false), ctx, out), [flag])
    else Add(Add(out, "%"), [flag])
  }

  // One character or one flag at a time.
  function Interpret(ts: seq<Token>, handlers: Handlers, ctx: Context, out: Out): Out
    decreases |ts|
  {
    if ts == [] then out
    else
      match ts[0]
      case Char(c) => Interpret(ts[1..], handlers, ctx, Add(out, [c]))
      case Flag(c, pad) => Interpret(ts[1..], handlers, ctx, FlagMeaning(c, pad, handlers, ctx, out))
  }

  lemma {:induction false} RunFirstOf(step: Step, a: seq<Formatter>, b: seq<Formatter>, n: nat, out: Out)
    requires n <= |a| && n <= |b| && forall k :: 0 <= k < n ==> a[k] == b[k]
    ensures RunFirst(step, a, n, out) == RunFirst(step, b, n, out)
  {
    if n > 0 {
      RunFirstOf(step, a, b, n - 1, out);
    }
  }

  lemma {:induction false} RunOn(step: Step, a: seq<Formatter>, b: seq<Formatter>, n: nat, out: Out)
    requires n <= |b|
    ensures RunFirst(step, a + b, |a| + n, out) == RunFirst(step, b, n, RunFirst(step, a, |a|, out))
  {
    if n == 0 {
      RunFirstOf(step, a + b, a, |a|, out);
    } else {
      RunOn(step, a, b, n - 1, out);
      assert (a + b)[|a| + n - 1] == b[n - 1];
    }
  }

  lemma RunConcat(a: seq<Formatter>, b: seq<Formatter>, ctx: Context, out: Out)
    ensures RunAll(a + b, ctx, out) == RunAll(b, ctx, RunAll(a, ctx, out))
  {
    RunOn(StepOf(ctx), a, b, |b|, out);
  }

  lemma RunOne(f: Formatter, ctx: Context, out: Out)
    ensures RunAll([f], ctx, out) == Format(f, ctx, out)
  {
    assert RunFirst(StepOf(ctx), [f], 0, out) == out;
  }

  lemma RunFlush(chars: string, ctx: Context, out: Out)
    ensures RunAll(Flush(chars), ctx, out) == Add(out, chars)
  {
    if chars == "" {
      assert out.text + chars == out.text;
    } else {
      RunOne(Literal(chars), ctx, out);
    }
  }

  lemma RunFlag(flag: char, pad: PadInfo, handlers: Handlers, ctx: Context, out: Out)
    ensures RunAll(FlagFormatters(flag, pad, handlers), ctx, out) == FlagMeaning(flag, pad, handlers, ctx, out)
  {
    var fs := FlagFormatters(flag, pad, handlers);
    RunOne(fs[0], ctx, out);
    if |fs| == 1 {
      assert fs == [fs[0]];
      FlagAlone(flag, pad, handlers, ctx, out);
    } else {
      RunOne(fs[1], ctx, RunAll([fs[0]], ctx, out));
      RunConcat([fs[0]], [fs[1]], ctx, out);
      assert fs == [fs[0]] + [fs[1]];
    }
  }

  lemma FlagAlone(flag: char, pad: PadInfo, handlers: Handlers, ctx: Context, out: Out)
    requires |FlagFormatters(flag, pad, handlers)| == 1
    ensures Format(FlagFormatters(flag, pad, handlers)[0], ctx, out) == FlagMeaning(flag, pad, handlers, ctx, out)
  {
    assert out.text + ("%" + [flag]) == out.text + "%" + [flag];
  }

  // The program for some text and a flag, followed by the rest.
  lemma RunFlagPiece(chars: string, flag: char, pad: PadInfo, rest: seq<Formatter>,
                     handlers: Handlers, ctx: Context, out: Out) returns (out': Out)
    ensures out' == FlagMeaning(flag, pad, handlers, ctx, Add(out, chars)) == Add(out', "")
    ensures RunAll(Flush(chars) + FlagFormatters(flag, pad, handlers) + rest, ctx, out) == RunAll(rest, ctx, out')
  {
    var fs := FlagFormatters(flag, pad, handlers);
    RunFlush(chars, ctx, out);
    RunConcat(Flush(chars) + fs, rest, ctx, out);
    RunConcat(Flush(chars), fs, ctx, out);
    RunFlag(flag, pad, handlers, ctx, Add(out, chars));
    out' := RunAll(fs, ctx, Add(out, chars));
    assert out'.text + "" == out'.text;
  }

  lemma {:induction false} CompiledFrom(ts: seq<Token>, chars: string, handlers: Handlers, ctx: Context, out: Out)
    ensures RunAll(Compile(ts, chars, handlers), ctx, out) == Interpret(ts, handlers, ctx, Add(out, chars))
    decreases |ts|
  {
    RunFlush(chars, ctx, out);
    if ts != [] {
      match ts[0]
      case Char(c) =>
        CompiledFrom(ts[1..], chars + [c], handlers, ctx, out);
        assert out.text + (chars + [c]) == out.text + chars + [c];
      case Flag(c, pad) =>
        var out' := RunFlagPiece(chars, c, pad, Compile(ts[1..], "", handlers), handlers, ctx, out);
        CompiledFrom(ts[1..], "", handlers, ctx, out');
    }
  }

  /**
    Compilation preserves meaning: for every pattern, set of custom flags and message, running the
    compiled formatters is reading the pattern from left to right.
  */
  lemma CompilationPreservesMeaning(p: string, handlers: Handlers, ctx: Context, out: Out)
    ensures RunAll(Program(p, handlers), ctx, out) == Interpret(Tokens(p, 0), handlers, ctx, out)
  {
    CompiledFrom(Tokens(p, 0), "", handlers, ctx, out);
    assert Add(out, "") == out;
  }

  // ----- which custom flags a program depends on -----

  // The characters looked up as flags, in order.
  function Flags(ts: seq<Token>): seq<char> {
    if ts == [] then [] else (if ts[0].Flag? then [ts[0].c] else []) + Flags(ts[1..])
  }

  function Lookup(handlers: Handlers, flag: char): Option<Handler> {
    if flag in handlers then Some(handlers[flag]) else None
  }

  predicate SameOn(flags: seq<char>, g: Handlers, h: Handlers) {
    forall k :: 0 <= k < |flags| ==> Lookup(g, flags[k]) == Lookup(h, flags[k])
  }

  lemma SameFlagIff(flag: char, pad: PadInfo, g: Handlers, h: Handlers)
    ensures
      var a, b := FlagFormatters(flag, pad, g), FlagFormatters(flag, pad, h);
      && (Lookup(g, flag) == Lookup(h, flag) ==> a == b)
      && (Lookup(g, flag) != Lookup(h, flag) ==> a[0] != b[0])
  {
  }

  lemma SamePieces<T>(start: seq<T>, a: seq<T>, c: seq<T>, b: seq<T>, d: seq<T>)
    requires a != [] && b != []
    ensures a == b ==> (start + a + c == start + b + d <==> c == d)
    ensures a[0] != b[0] ==> start + a + c != start + b + d
  {
    assert (start + a + c)[|start|] == a[0] && (start + b + d)[|start|] == b[0];
    assert (start + a + c)[|start| + |a|..] == c && (start + b + d)[|start| + |b|..] == d;
  }

  lemma SameFlagPiece(chars: string, flag: char, pad: PadInfo, c: seq<Formatter>, d: seq<Formatter>,
                      g: Handlers, h: Handlers)
    ensures
      Flush(chars) + FlagFormatters(flag, pad, g) + c == Flush(chars) + FlagFormatters(flag, pad, h) + d
      <==> Lookup(g, flag) == Lookup(h, flag) && c == d
  {
    SameFlagIff(flag, pad, g, h);
    SamePieces(Flush(chars), FlagFormatters(flag, pad, g), c, FlagFormatters(flag, pad, h), d);
  }

  lemma {:induction false} SameProgramFrom(ts: seq<Token>, chars: string, g: Handlers, h: Handlers)
    ensures Compile(ts, chars, g) == Compile(ts, chars, h) <==> SameOn(Flags(ts), g, h)
    decreases |ts|
  {
    if ts != [] {
      match ts[0]
      case Char(c) =>
        SameProgramFrom(ts[1..], chars + [c], g, h);
        assert Flags(ts) == Flags(ts[1..]);
      case Flag(c, pad) =>
        SameProgramFrom(ts[1..], "", g, h);
        SameFlagPiece(chars, c, pad, Compile(ts[1..], "", g), Compile(ts[1..], "", h), g, h);
        SameOnCons(c, Flags(ts[1..]), g, h);
    }
  }

  lemma SameOnCons(flag: char, flags: seq<char>, g: Handlers, h: Handlers)
    ensures SameOn([flag] + flags, g, h) <==> Lookup(g, flag) == Lookup(h, flag) && SameOn(flags, g, h)
  {
    if SameOn([flag] + flags, g, h) {
      assert ([flag] + flags)[0] == flag;
      forall k | 0 <= k < |flags| ensures Lookup(g, flags[k]) == Lookup(h, flags[k]) {
        assert ([flag] + flags)[k + 1] == flags[k];
      }
    }
  }

  /**
    Two sets of custom flags compile a pattern to the same program exactly when they agree on every
    flag the pattern uses.
  */
  lemma SameProgramIff(p: string, g: Handlers, h: Handlers)
    ensures Program(p, g) == Program(p, h) <==> SameOn(Flags(Tokens(p, 0)), g, h)
  {
    SameProgramFrom(Tokens(p, 0), "", g, h);
  }

  // ----- pad specs read back -----

  function SideText(side: Side): string {
    match side
    case Left => ""
    case Right => "-"
    case Center => "="
  }

  // The text of a pad spec.
  function SpecText(side: Side, digits: string, truncate: bool): string {
    SideText(side) + (digits + if truncate then "!" else "")
  }

  // text stands in p at position i.
  predicate StandsAt(p: string, i: nat, text: string) {
    i + |text| <= |p| && forall n :: 0 <= n < |text| ==> p[i + n] == text[n]
  }

  lemma StandsSplit(p: string, i: nat, a: string, b: string)
    requires StandsAt(p, i, a + b)
    ensures StandsAt(p, i, a) && StandsAt(p, i + |a|, b)
  {
    forall n | 0 <= n < |a|
      ensures p[i + n] == a[n]
    {
      assert (a + b)[n] == a[n];
    }
    forall n | 0 <= n < |b|
      ensures p[i + |a| + n] == b[n]
    {
      assert (a + b)[|a| + n] == b[n];
    }
  }

  lemma {:induction false} RunEndIs(p: string, a: nat, b: nat)
    requires a <= b <= |p| && AllDigitsIn(p, a, b) && (b < |p| ==> !IsDigit(p[b]))
    ensures RunEnd(p, a) == b
    decreases b - a
  {
    if a < b {
      RunEndIs(p, a + 1, b);
    }
  }

  lemma {:induction false} NumberReads(p: string, a: nat, digits: string)
    requires AllDigits(digits) && StandsAt(p, a, digits)
    ensures AllDigitsIn(p, a, a + |digits|)
    ensures NumberIn(p, a, a + |digits|) == Value(digits)
    decreases |digits|
  {
    forall k | a <= k < a + |digits|
      ensures IsDigit(p[k])
    {
      assert p[a + (k - a)] == digits[k - a];
    }
    if digits != "" {
      var n := |digits| - 1;
      NumberReads(p, a, digits[..n]);
      assert p[a + n] == digits[n];
    }
  }

  // The run of digits ends where the text of the width does.
  lemma WidthEnds(p: string, start: nat, digits: string)
    requires AllDigits(digits) && digits != "" && StandsAt(p, start, digits)
    requires start + |digits| < |p| ==> !IsDigit(p[start + |digits|])
    ensures IsDigit(p[start]) && RunEnd(p, start) == start + |digits|
  {
    NumberReads(p, start, digits);
    RunEndIs(p, start, start + |digits|);
  }

  lemma SizeReads(p: string, start: nat, side: Side, digits: string)
    requires AllDigits(digits) && digits != "" && Value(digits) < SIZE_T && StandsAt(p, start, digits)
    requires start + |digits| < |p| ==> !IsDigit(p[start + |digits|])
    ensures IsDigit(p[start])
    ensures SizedSpec(p, start, side) == SpecOf(p, side, Value(digits), start + |digits|)
  {
    WidthEnds(p, start, digits);
    NumberReads(p, start, digits);
    FitsSize(Value(digits));
  }

  lemma FitsSize(n: nat)
    requires n < SIZE_T
    ensures n % SIZE_T == n
  {
  }

  lemma SideReads(p: string, i: nat, side: Side, start: nat)
    requires StandsAt(p, i, SideText(side)) && start == i + |SideText(side)| < |p| && IsDigit(p[start])
    ensures PadSpec(p, i) == SizedSpec(p, start, side)
  {
    assert side.Right? || side.Center? ==> p[i + 0] == SideText(side)[0];
  }

  /**
    A pad spec reads back as it was written: side, width in decimal and truncation mark, whatever
    flag follows, with widths above 64 capped.  The width must fit a size_t.
  */
  lemma PadSpecReadsBack(p: string, i: nat, side: Side, width: nat, digits: string, truncate: bool)
    requires width < SIZE_T && digits == Print(width)
    requires StandsAt(p, i, SpecText(side, digits, truncate))
    requires
      var end := i + |SideText(side)| + |digits|;
      end < |p| && !truncate ==> !IsDigit(p[end]) && p[end] != '!'
    ensures
      PadSpec(p, i)
      == (PadInfo(Capped(width), side, truncate, true), i + |SpecText(side, digits, truncate)|)
  {
    PrintIsDecimal(width);
    SpecReads(p, i, side, digits, truncate);
  }

  lemma SpecReads(p: string, i: nat, side: Side, digits: string, truncate: bool)
    requires AllDigits(digits) && digits != "" && Value(digits) < SIZE_T
    requires StandsAt(p, i, SpecText(side, digits, truncate))
    requires
      var end := i + |SideText(side)| + |digits|;
      end < |p| && !truncate ==> !IsDigit(p[end]) && p[end] != '!'
    ensures
      PadSpec(p, i)
      == (PadInfo(Capped(Value(digits)), side, truncate, true), i + |SpecText(side, digits, truncate)|)
  {
    var start, mark := i + |SideText(side)|, if truncate then "!" else "";
    StandsSplit(p, i, SideText(side), digits + mark);
    StandsSplit(p, start, digits, mark);
    if truncate {
      assert p[start + |digits| + 0] == mark[0];
    }
    SizeReads(p, start, side, digits);
    SideReads(p, i, side, start);
  }
}
