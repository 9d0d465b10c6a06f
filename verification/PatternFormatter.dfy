/**
  pattern_formatter: the class that compiles a pattern into formatters and runs them for every message.
  Two caches sit on the way of the time: the formatter's own broken-down time, renewed when the second
  changes, and the date text that each full formatter keeps for the second it last wrote.
*/
module PatternFormatter {
  import opened Decimal
  import opened Options
  import opened Padding
  import opened Pattern

  // A tm with every field zero, which is what the constructors start with.
  const ZERO_TM := Tm(0, 0, 0, 0, 0, 0)

  // The range of the level name, which formatters leave in the message.
  class ColorRange {
    var start: nat
    var end: nat
  }

  // A formatter object.  Only full formatters use the cache.
  class FlagFormatter {
    const what: Formatter
    var cacheTimestamp: int
    var cachedDatetime: string

    constructor (what: Formatter)
      ensures this.what == what && cachedDatetime == ""
    {
      this.what := what;
      cacheTimestamp := 0;
      cachedDatetime := "";
    }

    // What is cached for a second is the text of that second's time.
    ghost predicate CacheIs(secs: int, date: string)
      reads this
    {
      cachedDatetime != "" ==> what.Full? && (cacheTimestamp == secs ==> cachedDatetime == date)
    }

    // What is cached is the text of this second's time.
    ghost predicate IsCurrent(secs: int, date: string)
      reads this
    {
      cachedDatetime != "" ==> what.Full? && cacheTimestamp == secs && cachedDatetime == date
    }

    method FullDate(time: int, tm: Tm) returns (text: string)
      requires CacheIs(Seconds(time), DateText(tm)) && what.Full?
      modifies this
      ensures text == DateText(tm)
      ensures CacheIs(Seconds(time), DateText(tm)) && cacheTimestamp == Seconds(time) && cachedDatetime != ""
    {
      var secs := Seconds(time);
      if cacheTimestamp != secs || |cachedDatetime| == 0 {
        cachedDatetime := "";
        cachedDatetime := cachedDatetime + "[";
        cachedDatetime := cachedDatetime + PrintInt(tm.year + 1900);
        cachedDatetime := cachedDatetime + "-";
        cachedDatetime := cachedDatetime + Pad2(tm.mon + 1);
        cachedDatetime := cachedDatetime + "-";
        cachedDatetime := cachedDatetime + Pad2(tm.mday);
        cachedDatetime := cachedDatetime + " ";
        cachedDatetime := cachedDatetime + Pad2(tm.hour);
        cachedDatetime := cachedDatetime + ":";
        cachedDatetime := cachedDatetime + Pad2(tm.min);
        cachedDatetime := cachedDatetime + ":";
        cachedDatetime := cachedDatetime + Pad2(tm.sec);
        cachedDatetime := cachedDatetime + ".";
        cacheTimestamp := secs;
        DateTextParts(tm);
      }
      text := cachedDatetime;
    }

    method FormatFull(ctx: Context, dest: MemoryBuf, colors: ColorRange)
      requires CacheIs(Seconds(ctx.msg.time), DateText(ctx.tm)) && what.Full?
      modifies this, dest, colors
      ensures Out(dest.text, colors.start, colors.end)
              == FullText(ctx, Out(old(dest.text), old(colors.start), old(colors.end)))
      ensures CacheIs(Seconds(ctx.msg.time), DateText(ctx.tm))
      ensures cachedDatetime != "" && cacheTimestamp == Seconds(ctx.msg.time)
    {
      var date := FullDate(ctx.msg.time, ctx.tm);
      dest.Append(date);
      FormatRest(ctx, dest, colors);
    }

    static method FormatRest(ctx: Context, dest: MemoryBuf, colors: ColorRange)
      modifies dest, colors
      ensures Out(dest.text, colors.start, colors.end)
              == FullRest(ctx, Out(old(dest.text), old(colors.start), old(colors.end)))
    {
      var msg := ctx.msg;
      dest.Append(Pad3(Millis(msg.time)));
      dest.Append("] ");
      AppendName(msg, dest);
      dest.Append("[");
      colors.start := |dest.text|;
      dest.Append(msg.level);
      colors.end := |dest.text|;
      dest.Append("] ");
      AppendSource(msg.source, ctx.env.folderSep, dest);
      dest.Append(msg.payload);
    }

    static method AppendName(msg: Message, dest: MemoryBuf)
      modifies dest
      ensures dest.text == old(dest.text) + NamePiece(msg)
    {
      assert dest.text + "" == dest.text;
      if |msg.loggerName| > 0 {
        dest.Append("[");
        dest.Append(msg.loggerName);
        dest.Append("] ");
      }
    }

    static method AppendSource(source: Source, sep: char, dest: MemoryBuf)
      modifies dest
      ensures dest.text == old(dest.text) + SourcePiece(source, sep)
    {
      assert dest.text + "" == dest.text;
      if !source.Empty() {
        dest.Append("[");
        dest.Append(BaseName(source.filename, sep));
        dest.Append(":");
        dest.Append(Print(source.line));
        dest.Append("] ");
      }
    }

    method Format(ctx: Context, dest: MemoryBuf, colors: ColorRange)
      requires CacheIs(Seconds(ctx.msg.time), DateText(ctx.tm))
      requires what.Builtin? ==> what.pad.width <= MAX_WIDTH
      modifies this, dest, colors
      ensures Out(dest.text, colors.start, colors.end)
              == Pattern.Format(what, ctx, Out(old(dest.text), old(colors.start), old(colors.end)))
      ensures IsCurrent(Seconds(ctx.msg.time), DateText(ctx.tm))
    {
      match what {
        case Literal(s) => dest.Append(s);
        case Percent => dest.Append("%");
        case Custom(h, pad) => dest.Append(ctx.env.customText(h, pad, ctx.msg, ctx.tm));
        case Full => FormatFull(ctx, dest, colors);
        case Builtin(flag, pad) =>
          if flag == '^' {
            colors.start := |dest.text|;
          } else if flag == '$' {
            colors.end := |dest.text|;
          } else {
            match FieldText(flag, ctx) {
              case None =>
              case Some(body) =>
                if pad.enabled {
                  FormatField(dest, pad, |body|, body);
                } else {
                  dest.Append(body);
                }
            }
          }
      }
    }
  }

  lemma DateTextParts(tm: Tm)
    ensures
      DateText(tm) == "" + "[" + PrintInt(tm.year + 1900) + "-" + Pad2(tm.mon + 1) + "-" + Pad2(tm.mday) + " "
                      + Pad2(tm.hour) + ":" + Pad2(tm.min) + ":" + Pad2(tm.sec) + "."
    ensures DateText(tm) != ""
  {
    assert "" + "[" == "[";
  }

  // ----- every width is within the padder's spaces -----

  predicate AllCapped(fs: seq<Formatter>) {
    forall k :: 0 <= k < |fs| && fs[k].Builtin? ==> fs[k].pad.width <= MAX_WIDTH
  }

  predicate TokensCapped(ts: seq<Token>) {
    forall k :: 0 <= k < |ts| && ts[k].Flag? ==> ts[k].pad.width <= MAX_WIDTH
  }

  lemma {:induction false} TokensAreCapped(p: string, i: nat)
    requires i <= |p|
    ensures TokensCapped(Tokens(p, i))
    decreases |p| - i
  {
    if i < |p| {
      if p[i] != '%' {
        TokensAreCapped(p, i + 1);
      } else {
        var (pad, j) := PadSpec(p, i + 1);
        if j < |p| {
          TokensAreCapped(p, j + 1);
        }
      }
    }
  }

  lemma {:induction false} CompiledCapped(ts: seq<Token>, chars: string, handlers: Handlers)
    requires TokensCapped(ts)
    ensures AllCapped(Compile(ts, chars, handlers))
    decreases |ts|
  {
    if ts != [] {
      match ts[0]
      case Char(c) => CompiledCapped(ts[1..], chars + [c], handlers);
      case Flag(c, pad) => CompiledCapped(ts[1..], "", handlers);
    }
  }

  /**
    However wide a pattern asks a field to be, no compiled formatter asks the padder for more than the
    64 spaces it has.
  */
  lemma ProgramsAreCapped(p: string, handlers: Handlers)
    ensures AllCapped(Program(p, handlers))
  {
    TokensAreCapped(p, 0);
    CompiledCapped(Tokens(p, 0), "", handlers);
  }

  // ----- which time is shown -----

  predicate AllZero(seen: seq<int>) {
    forall k :: 0 <= k < |seen| ==> seen[k] == 0
  }

  // The broken-down time after messages of these seconds.
  function TimeShown(seen: seq<int>, getTime: int -> Tm): Tm {
    if AllZero(seen) then ZERO_TM else getTime(seen[|seen| - 1])
  }

  function LastSecond(seen: seq<int>): int {
    if seen == [] then 0 else seen[|seen| - 1]
  }

  function Kinds(fs: seq<FlagFormatter>): (ks: seq<Formatter>)
    ensures |ks| == |fs|
    ensures forall k :: 0 <= k < |fs| ==> ks[k] == fs[k].what
  {
    seq(|fs|, k requires 0 <= k < |fs| => fs[k].what)
  }

  ghost predicate CachesEmpty(fs: seq<FlagFormatter>)
    reads fs
  {
    forall k :: 0 <= k < |fs| ==> fs[k].cachedDatetime == ""
  }

  lemma TimeNext(seen: seq<int>, secs: int, getTime: int -> Tm)
    ensures LastSecond(seen + [secs]) == secs
    ensures TimeShown(seen + [secs], getTime)
         == if secs == LastSecond(seen) then TimeShown(seen, getTime) else getTime(secs)
  {
    var next := seen + [secs];
    assert forall k :: 0 <= k < |seen| ==> next[k] == seen[k];
    assert next[|seen|] == secs;
  }

  // What is left to compile from position it, with the text collected so far.
  function Rest(p: string, it: nat, chars: string, handlers: Handlers): seq<Formatter>
    requires it <= |p|
  {
    Compile(Tokens(p, it), chars, handlers)
  }

  lemma RestAfterChar(p: string, it: nat, chars: string, handlers: Handlers)
    requires it < |p| && p[it] != '%'
    ensures Rest(p, it, chars, handlers) == Rest(p, it + 1, chars + [p[it]], handlers)
  {
    assert Tokens(p, it)[1..] == Tokens(p, it + 1);
  }

  // What a `%` at position it compiles to, and where to go on after it.
  function FlagPiece(p: string, it: nat, handlers: Handlers): seq<Formatter>
    requires it < |p|
  {
    var (pad, j) := PadSpec(p, it + 1);
    if j == |p| then [] else FlagFormatters(p[j], pad, handlers)
  }

  function AfterFlag(p: string, it: nat): (next: nat)
    requires it < |p|
    ensures it < next <= |p|
  {
    var j := PadSpec(p, it + 1).1;
    if j == |p| then j else j + 1
  }

  lemma Associative<T>(a: seq<T>, b: seq<T>, c: seq<T>, d: seq<T>)
    ensures a + (b + c + d) == a + b + c + d
  {
  }

  lemma RestAfterFlag(p: string, it: nat, before: seq<Formatter>, chars: string, handlers: Handlers)
    requires it < |p| && p[it] == '%'
    ensures
      before + Rest(p, it, chars, handlers)
      == before + Flush(chars) + FlagPiece(p, it, handlers) + Rest(p, AfterFlag(p, it), "", handlers)
  {
    var (pad, j) := PadSpec(p, it + 1);
    var piece, rest := FlagPiece(p, it, handlers), Rest(p, AfterFlag(p, it), "", handlers);
    Associative(before, Flush(chars), piece, rest);
    if j < |p| {
      var ts := Tokens(p, it);
      assert ts[0] == Flag(p[j], pad) && ts[1..] == Tokens(p, j + 1);
    } else {
      assert Flush(chars) + piece + rest == Flush(chars);
    }
  }

  class PatternFormatter {
    var pattern: string
    const eol: string
    const getTime: int -> Tm
    var cachedTm: Tm
    var lastLogSecs: int
    var formatters: seq<FlagFormatter>
    var customHandlers: Handlers

    // The formatters, the custom flags when the pattern was last compiled, and the seconds of the
    // messages so far.
    ghost var owned: set<FlagFormatter>
    ghost var compiledWith: Handlers
    ghost var seen: seq<int>

    // The vector's unique_ptrs.
    ghost predicate Owned()
      reads this
    {
      forall k :: 0 <= k < |formatters| ==> formatters[k] in owned
    }

    // While compiling: nothing is cached yet.
    ghost predicate Building()
      reads this, owned
    {
      Owned() && CachesEmpty(formatters)
    }

    // Where the loop over the formatters stands: the caches of the first n are of this second.
    ghost predicate Formatted(n: nat, secs: int, date: string)
      reads this, formatters
    {
      && n <= |formatters|
      && (forall k :: 0 <= k < |formatters| ==> formatters[k].CacheIs(secs, date))
      && (forall k :: 0 <= k < n ==> formatters[k].IsCurrent(secs, date))
    }

    ghost predicate Valid()
      reads this, owned
    {
      && Owned()
      && Kinds(formatters) == Program(pattern, compiledWith)
      && lastLogSecs == LastSecond(seen)
      && cachedTm == TimeShown(seen, getTime)
      && Formatted(|formatters|, lastLogSecs, DateText(cachedTm))
    }

    constructor (pattern: string, getTime: int -> Tm, eol: string, customFlags: Handlers)
      ensures Valid() && fresh(owned)
      ensures this.pattern == pattern && this.eol == eol && this.getTime == getTime
      ensures customHandlers == compiledWith == customFlags
      ensures seen == []
    {
      this.pattern := pattern;
      this.eol := eol;
      this.getTime := getTime;
      lastLogSecs := 0;
      customHandlers := customFlags;
      cachedTm := ZERO_TM;
      formatters := [];
      owned := {};
      seen := [];
      new;
      CompilePattern(pattern);
    }

    // Without a pattern the one formatter is made directly.
    constructor Default(getTime: int -> Tm, eol: string)
      ensures Valid() && fresh(owned)
      ensures pattern == "%+" && this.eol == eol && this.getTime == getTime
      ensures customHandlers == compiledWith == map[]
      ensures seen == []
    {
      pattern := "%+";
      this.eol := eol;
      this.getTime := getTime;
      lastLogSecs := 0;
      customHandlers := map[];
      compiledWith := map[];
      cachedTm := ZERO_TM;
      seen := [];
      var full := new FlagFormatter(Full);
      formatters := [full];
      owned := {full};
      new;
      hide DateText;
      assert Kinds(formatters) == [Full];
      DefaultProgramIff(map[]);
    }

    method Push(what: Formatter)
      requires Building()
      modifies this`formatters, this`owned
      ensures Building() && fresh(owned - old(owned))
      ensures Kinds(formatters) == Kinds(old(formatters)) + [what]
    {
      var f := new FlagFormatter(what);
      formatters := formatters + [f];
      owned := owned + {f};
    }

    // Moves from position it past the pad spec there.
    static method HandlePadSpec(p: string, start: nat) returns (pad: PadInfo, it: nat)
      requires start <= |p|
      ensures (pad, it) == PadSpec(p, start)
    {
      it := start;
      if it == |p| {
        return NO_PAD, it;
      }
      var side := Left;
      if p[it] == '-' {
        side := Right;
        it := it + 1;
      } else if p[it] == '=' {
        side := Center;
        it := it + 1;
      }
      if it == |p| || !IsDigit(p[it]) {
        return NO_PAD, it;
      }
      pad, it := HandleSize(p, it, side);
    }

    static method HandleSize(p: string, start: nat, side: Side) returns (pad: PadInfo, it: nat)
      requires start < |p| && IsDigit(p[start])
      ensures (pad, it) == SizedSpec(p, start, side)
    {
      var width: nat := DigitValue(p[start]);
      it := start + 1;
      assert NumberIn(p, start, it) == DigitValue(p[start]);
      while it < |p| && IsDigit(p[it])
        invariant start < it <= |p|
        invariant AllDigitsIn(p, start, it) && width == NumberIn(p, start, it) % SIZE_T
      {
        WidthNext(NumberIn(p, start, it), DigitValue(p[it]));
        width := (width * 10 + DigitValue(p[it])) % SIZE_T;
        it := it + 1;
      }
      RunEndIs(p, start, it);
      var truncate := it < |p| && p[it] == '!';
      if truncate {
        it := it + 1;
      }
      pad := PadInfo(if width < MAX_WIDTH then width else MAX_WIDTH, side, truncate, true);
    }

    method HandleFlag(flag: char, pad: PadInfo)
      requires Building()
      modifies this`formatters, this`owned
      ensures Building() && fresh(owned - old(owned))
      ensures Kinds(formatters) == Kinds(old(formatters)) + FlagFormatters(flag, pad, customHandlers)
    {
      if flag in customHandlers {
        Push(Custom(customHandlers[flag], pad));
      } else if flag == '+' {
        Push(Full);
      } else if flag == '%' {
        Push(Percent);
      } else if IsBuiltin(flag) {
        Push(Builtin(flag, pad));
      } else if !pad.truncate {
        var unknown := "%";
        unknown := unknown + [flag];
        Push(Literal(unknown));
      } else {
        Push(Builtin('!', pad.(truncate := false)));
        Push(Literal([flag]));
      }
    }

    // What Compile does for the text collected so far.
    method PushChars(userChars: Option<string>)
      requires userChars.Some? ==> userChars.value != ""
      requires Building()
      modifies this`formatters, this`owned
      ensures Building() && fresh(owned - old(owned))
      ensures Kinds(formatters) == Kinds(old(formatters)) + Flush(Collected(userChars))
    {
      if userChars.Some? {
        Push(Literal(userChars.value));
      }
    }

    // A `%` at position it: what is collected is flushed, and the flag behind the pad spec is handled.
    // Returns where to go on.
    method CompileFlag(p: string, it: nat, userChars: Option<string>) returns (next: nat)
      requires it < |p| && (userChars.Some? ==> userChars.value != "")
      requires Building()
      modifies this`formatters, this`owned
      ensures Building() && fresh(owned - old(owned))
      ensures next == AfterFlag(p, it)
      ensures Kinds(formatters)
           == Kinds(old(formatters)) + Flush(Collected(userChars)) + FlagPiece(p, it, customHandlers)
    {
      PushChars(userChars);
      ghost var before := Kinds(formatters);
      var pad;
      pad, next := HandlePadSpec(p, it + 1);
      if next < |p| {
        HandleFlag(p[next], pad);
        next := next + 1;
      } else {
        assert before + [] == before;
      }
    }

    method CompilePattern(p: string)
      modifies this`formatters, this`owned, this`compiledWith
      ensures Kinds(formatters) == Program(p, customHandlers)
      ensures Building() && fresh(owned)
      ensures compiledWith == customHandlers
    {
      compiledWith := customHandlers;
      formatters := [];
      owned := {};
      var userChars: Option<string> := None;
      var it := 0;
      while it < |p|
        invariant it <= |p|
        invariant userChars.Some? ==> userChars.value != ""
        invariant compiledWith == customHandlers
        invariant Building() && fresh(owned)
        invariant Kinds(formatters) + Rest(p, it, Collected(userChars), customHandlers) == Program(p, customHandlers)
        decreases |p| - it
      {
        if p[it] == '%' {
          RestAfterFlag(p, it, Kinds(formatters), Collected(userChars), customHandlers);
          it := CompileFlag(p, it, userChars);
          userChars := None;
        } else {
          RestAfterChar(p, it, Collected(userChars), customHandlers);
          userChars := Some(Collected(userChars) + [p[it]]);
          it := it + 1;
        }
      }
      PushChars(userChars);
    }

    method SetPattern(p: string)
      requires Valid()
      modifies this`pattern, this`formatters, this`owned, this`compiledWith
      ensures Valid() && fresh(owned) && pattern == p && compiledWith == customHandlers
    {
      pattern := p;
      CompilePattern(p);
    }

    // Adding a flag does not compile the pattern again.
    method AddFlag(flag: char, handler: Handler)
      requires Valid()
      modifies this`customHandlers
      ensures Valid() && customHandlers == old(customHandlers)[flag := handler]
    {
      customHandlers := customHandlers[flag := handler];
    }

    /**
      A clone runs the program that the pattern has with the custom flags of now; so it runs the same
      program exactly when the flags the pattern uses are those it was last compiled with.
    */
    method Clone() returns (c: PatternFormatter)
      requires Valid()
      ensures fresh(c) && c.Valid() && fresh(c.owned) && c.seen == []
      ensures c.pattern == pattern && c.eol == eol && c.getTime == getTime && c.customHandlers == customHandlers
      ensures Kinds(c.formatters) == Program(pattern, customHandlers)
      ensures Kinds(c.formatters) == Kinds(formatters)
          <==> SameOn(Flags(Tokens(pattern, 0)), customHandlers, compiledWith)
    {
      c := new PatternFormatter(pattern, getTime, eol, customHandlers);
      SameProgramIff(pattern, customHandlers, compiledWith);
    }

    /**
      For messages with timestamps in any order, both caches together show the time TimeShown says, and
      the buffer gets what the program writes for it, followed by the end of line.
    */
    method Format(msg: Message, env: Env, dest: MemoryBuf, colors: ColorRange)
      requires Valid()
      modifies this`cachedTm, this`lastLogSecs, this`seen, owned, dest, colors
      ensures Valid() && seen == old(seen) + [Seconds(msg.time)]
      ensures
        var out := RunAll(Program(pattern, compiledWith), Context(msg, TimeShown(seen, getTime), env),
                          Out(old(dest.text), old(colors.start), old(colors.end)));
        dest.text == out.text + eol && colors.start == out.colorStart && colors.end == out.colorEnd
    {
      hide DateText, StepOf, RunFirst;
      var secs := Seconds(msg.time);
      if secs != lastLogSecs {
        cachedTm := getTime(secs);
        lastLogSecs := secs;
      }
      seen := seen + [secs];
      TimeNext(old(seen), secs, getTime);
      ProgramsAreCapped(pattern, compiledWith);
      var ctx := Context(msg, cachedTm, env);
      FormatAll(ctx, dest, colors);
      dest.Append(eol);
    }

    // One turn of that loop.
    method FormatAt(i: nat, ctx: Context, dest: MemoryBuf, colors: ColorRange)
      requires i < |formatters| && Formatted(i, Seconds(ctx.msg.time), DateText(ctx.tm))
      requires formatters[i].what.Builtin? ==> formatters[i].what.pad.width <= MAX_WIDTH
      modifies formatters[i], dest, colors
      ensures Out(dest.text, colors.start, colors.end)
              == StepOf(ctx)(formatters[i].what, Out(old(dest.text), old(colors.start), old(colors.end)))
      ensures Formatted(i + 1, Seconds(ctx.msg.time), DateText(ctx.tm))
    {
      hide DateText, Seconds, Pattern.Format;
      formatters[i].Format(ctx, dest, colors);
    }

    method FormatAll(ctx: Context, dest: MemoryBuf, colors: ColorRange)
      requires Owned() && AllCapped(Kinds(formatters))
      requires Formatted(0, Seconds(ctx.msg.time), DateText(ctx.tm))
      modifies owned, dest, colors
      ensures Out(dest.text, colors.start, colors.end)
              == RunAll(Kinds(formatters), ctx, Out(old(dest.text), old(colors.start), old(colors.end)))
      ensures Formatted(|formatters|, Seconds(ctx.msg.time), DateText(ctx.tm))
    {
      hide DateText, Seconds, StepOf;
      ghost var kinds, out := Kinds(formatters), Out(dest.text, colors.start, colors.end);
      for i := 0 to |formatters|
        invariant Formatted(i, Seconds(ctx.msg.time), DateText(ctx.tm))
        invariant Out(dest.text, colors.start, colors.end) == RunFirst(StepOf(ctx), kinds, i, out)
      {
        assert formatters[i].what == kinds[i];
        FormatAt(i, ctx, dest, colors);
      }
    }
  }

  // Wrapping at every digit is wrapping once.
  lemma WidthNext(v: nat, d: nat)
    ensures (v % SIZE_T * 10 + d) % SIZE_T == (v * 10 + d) % SIZE_T
  {
    assert v * 10 + d == (v % SIZE_T * 10 + d) + SIZE_T * (v / SIZE_T * 10);
  }

  function Collected(userChars: Option<string>): string {
    if userChars.Some? then userChars.value else ""
  }

  lemma FourDigits(n: nat)
    requires 1000 <= n <= 9999
    ensures |Print(n)| == 4
  {
    assert |Print(n / 1000)| == 1;
    assert n / 100 / 10 == n / 1000 && |Print(n / 100)| == 2;
    assert n / 10 / 10 == n / 100 && |Print(n / 10)| == 3;
  }

  lemma DifferentYears(a: Tm, b: Tm)
    requires -900 <= a.year <= 8099 && -900 <= b.year <= 8099 && a.year != b.year
    ensures DateText(a) != DateText(b)
  {
    hide DateText;
    YearAt(a);
    YearAt(b);
    YearTells(DateText(a), DateText(b), a.year + 1900, b.year + 1900);
  }

  lemma YearTells(s: string, t: string, m: nat, n: nat)
    requires |s| >= 5 && |t| >= 5 && s[1..5] == Print(m) && t[1..5] == Print(n) && m != n
    ensures s != t
  {
    if Print(m) == Print(n) {
      PrintIsInjective(m, n);
    }
  }

  lemma YearAt(tm: Tm)
    requires -900 <= tm.year <= 8099
    ensures |DateText(tm)| >= 5 && DateText(tm)[1..5] == Print(tm.year + 1900)
  {
    hide DateOf, Print, Pad2;
    FourDigits(tm.year + 1900);
    YearStays(PrintInt(tm.year + 1900), Pad2(tm.mon + 1), Pad2(tm.mday), Pad2(tm.hour), Pad2(tm.min), Pad2(tm.sec));
  }

  lemma YearStays(year: string, mon: string, day: string, hour: string, min: string, sec: string)
    requires |year| == 4
    ensures
      var date := DateOf(year, mon, day, hour, min, sec);
      |date| >= 5 && date[1..5] == year
  {
    var s := "[" + year;
    StartStays(s, "-");
    StartStays(s + "-", mon);
    StartStays(s + "-" + mon, "-");
    StartStays(s + "-" + mon + "-", day);
    StartStays(s + "-" + mon + "-" + day, " ");
    StartStays(s + "-" + mon + "-" + day + " ", hour);
    StartStays(s + "-" + mon + "-" + day + " " + hour, ":");
    StartStays(s + "-" + mon + "-" + day + " " + hour + ":", min);
    StartStays(s + "-" + mon + "-" + day + " " + hour + ":" + min, ":");
    StartStays(s + "-" + mon + "-" + day + " " + hour + ":" + min + ":", sec);
    StartStays(s + "-" + mon + "-" + day + " " + hour + ":" + min + ":" + sec, ".");
  }

  lemma StartStays(s: string, more: string)
    requires |s| >= 5
    ensures |s + more| >= 5 && (s + more)[1..5] == s[1..5]
  {
  }

  /**
    Cache agreement, exactly.  For messages with timestamps in any order, the date shown is that of the
    last message's own second if and only if some message so far was not in second 0: the constructors
    claim to have seen second 0 without having computed its time.
  */
  lemma DateShownIsRightIff(seen: seq<int>, getTime: int -> Tm)
    requires seen != []
    requires getTime(0).year == 69 || getTime(0).year == 70   // wherever the clock stands, it is 1969 or 1970
    ensures DateText(TimeShown(seen, getTime)) == DateText(getTime(seen[|seen| - 1])) <==> !AllZero(seen)
    ensures TimeShown(seen, getTime) == getTime(seen[|seen| - 1]) <==> !AllZero(seen)
  {
    if AllZero(seen) {
      DifferentYears(ZERO_TM, getTime(0));
    }
  }

  /**
    The default formatter is what "%+" compiles to, unless there is a custom flag `+`.
  */
  lemma DefaultProgramIff(handlers: Handlers)
    ensures Program("%+", handlers) == [Full] <==> '+' !in handlers
  {
    var p := "%+";
    assert PadSpec(p, 1) == (NO_PAD, 1);
    assert Tokens(p, 2) == [];
    assert Tokens(p, 0) == [Flag('+', NO_PAD)];
    var fs := FlagFormatters('+', NO_PAD, handlers);
    assert Compile([], "", handlers) == [];
    assert Program(p, handlers) == [] + fs + [] == fs;
  }
}
