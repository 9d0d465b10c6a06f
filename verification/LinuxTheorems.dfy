/**
  What the Linux terminal keeps: exactly which commands leave the cursor inside the grid, that
  streams of the safe ones never meet a fault, how `m` reads its parameters, and that on plain text
  the terminal shows what the dumb one does.
*/
module LinuxTheorems {
  import opened Decimal
  import opened Options
  import opened Terminal
  import opened LinuxTerminal
  import D = DumbTerminal

  // The cursor row exists, the column is not negative, and the foreground is in the palette.
  predicate Bounded(st: State) {
    && 0 <= st.line < |st.data|
    && 0 <= st.col
    && 0 <= st.pen.index < 8
  }

  // Empty, or led by ESC with no letter yet, or led by a byte with its high bit set.
  predicate BufferOk(buffer: string) {
    || buffer == ""
    || IsHigh(buffer[0])
    || (buffer[0] == ESC && forall i :: 1 <= i < |buffer| ==> !IsAlpha(buffer[i]))
  }

  // ----- writing keeps the bounds -----

  lemma AddLetterKeepsBounds(st: State, letter: nat)
    requires Bounded(st)
    ensures AddLetter(st, letter).Ok?
    ensures
      var s := AddLetter(st, letter).state;
      Bounded(s) && s.(data := st.data, col := st.col) == st && |s.data| == |st.data|
  {
  }

  lemma {:induction false} AddLettersKeepBounds(st: State, letters: seq<nat>)
    requires Bounded(st)
    ensures AddLetters(st, letters).Ok?
    ensures
      var s := AddLetters(st, letters).state;
      Bounded(s) && s.(data := st.data, col := st.col) == st && |s.data| == |st.data|
    decreases |letters|
  {
    if letters != [] {
      var n := |letters| - 1;
      AddLettersKeepBounds(st, letters[..n]);
      AddLetterKeepsBounds(AddLetters(st, letters[..n]).state, letters[n]);
    }
  }

  lemma {:induction false} BlankKeepsBounds(st: State, start: int, end: int)
    requires Bounded(st) && start >= 0
    ensures Blank(st, start, end).Ok?
    ensures
      var s := Blank(st, start, end).state;
      Bounded(s) && s.(data := st.data, col := st.col) == st && |s.data| == |st.data|
    decreases end - start
  {
    if start < end {
      BlankKeepsBounds(st, start, end - 1);
      AddLetterKeepsBounds(Blank(st, start, end - 1).state.(col := end - 1), SPACE);
    }
  }

  // ----- select graphic rendition -----

  predicate EndsSelection(value: int) {
    value == 38 || value == 48
  }

  predicate OffPalette(value: int) {
    value in [98, 99, 108, 109]
  }

  // Every parameter up to the first 38 or 48 is a number, and none of those before it is off the palette.
  predicate SafeParams(params: seq<Parse>) {
    params == [] ||
    (params[0].Number?
     && !OffPalette(params[0].value)
     && (EndsSelection(params[0].value) || SafeParams(params[1..])))
  }

  lemma SelectIsSafeIff(pen: Pen, value: int)
    requires 0 <= pen.index < 8
    ensures Select(pen, value).Stop? <==> OffPalette(value)
    ensures Select(pen, value).Break? <==> EndsSelection(value)
    ensures Select(pen, value).Continue? ==> 0 <= Select(pen, value).pen.index < 8
    ensures Select(pen, value).Break? ==> 0 <= Select(pen, value).pen.index < 8
  {
  }

  /**
    An `m` sequence throws or reads off the palette exactly when, before any 38 or 48, it has a
    parameter that is no number or one of 98, 99, 108 and 109.
  */
  lemma {:induction false} SelectionIsSafeIff(pen: Pen, params: seq<Parse>)
    requires 0 <= pen.index < 8
    ensures SelectAll(pen, params).Ok? <==> SafeParams(params)
    ensures SelectAll(pen, params).Ok? ==> 0 <= SelectAll(pen, params).state.index < 8
    decreases |params|
  {
    if params != [] && params[0].Number? {
      SelectIsSafeIff(pen, params[0].value);
      match Select(pen, params[0].value)
      case Continue(p) => SelectionIsSafeIff(p, params[1..]);
      case _ =>
    }
  }

  // The text of an `m` sequence: its fields with semicolons between them.
  function FieldText(fields: seq<string>): string
    requires fields != []
  {
    fields[0] + if |fields| == 1 then "m" else ";" + FieldText(fields[1..])
  }

  // The reader reads a field as this number wherever no digit follows it.
  ghost predicate Reads(read: Reader, field: string, value: int) {
    forall rest: string {:trigger read(field + rest)} ::
      rest != "" && !IsDigit(rest[0]) ==> read(field + rest) == Number(value, |field|)
  }

  lemma FieldRead(read: Reader, text: string, i: nat, field: string, value: int, rest: string)
    requires i <= |text| && text[i..] == field + rest && |text| > 1
    requires rest != "" && !IsDigit(rest[0]) && Reads(read, field, value)
    ensures i < |text| && Param(read, text, i) == Number(value, |field|)
  {
  }

  lemma ParamFirst(read: Reader, text: string, i: nat, value: int, used: nat)
    requires i < |text| && Param(read, text, i) == Number(value, used)
    ensures Params(read, text, i) == [Number(value, used)] + Params(read, text, i + used + 1)
  {
    NextParam(read, text, i);
    var params := Params(read, text, i);
    assert params == [params[0]] + params[1..];
  }

  lemma FirstField(read: Reader, text: string, i: nat, field: string, value: int, rest: string)
    requires i <= |text| && text[i..] == field + rest && |text| > 1
    requires rest != "" && !IsDigit(rest[0]) && Reads(read, field, value)
    ensures Params(read, text, i) == [Number(value, |field|)] + Params(read, text, i + |field| + 1)
  {
    FieldRead(read, text, i, field, value, rest);
    ParamFirst(read, text, i, value, |field|);
  }

  lemma RestOf(text: string, i: nat, field: string, rest: string)
    requires i <= |text| && text[i..] == field + (";" + rest)
    ensures i + |field| + 1 <= |text| && text[i + |field| + 1..] == rest
  {
    forall k | 0 <= k < |rest| ensures text[i + |field| + 1 + k] == rest[k] {
      assert text[i..][|field| + 1 + k] == rest[k];
    }
  }

  // The values as they are read from the fields.
  function Numbers(fields: seq<string>, values: seq<int>): seq<Parse>
    requires |fields| == |values|
  {
    if fields == [] then [] else [Number(values[0], |fields[0]|)] + Numbers(fields[1..], values[1..])
  }

  lemma {:induction false} NumberAt(fields: seq<string>, values: seq<int>, k: nat)
    requires |fields| == |values| && k < |fields|
    ensures |Numbers(fields, values)| == |values|
    ensures Numbers(fields, values)[k] == Number(values[k], |fields[k]|)
    decreases |fields|
  {
    if |fields| > 1 {
      NumberAt(fields[1..], values[1..], if k == 0 then 0 else k - 1);
    }
  }

  lemma {:induction false} FieldsReadAt(read: Reader, text: string, i: nat, fields: seq<string>, values: seq<int>)
    requires fields != [] && |fields| == |values|
    requires forall k :: 0 <= k < |fields| ==> Reads(read, fields[k], values[k])
    requires i <= |text| && |text| > 1 && text[i..] == FieldText(fields)
    ensures Params(read, text, i) == Numbers(fields, values)
    decreases |fields|
  {
    var field := fields[0];
    if |fields| == 1 {
      FirstField(read, text, i, field, values[0], "m");
    } else {
      var rest := FieldText(fields[1..]);
      RestOf(text, i, field, rest);
      FirstField(read, text, i, field, values[0], ";" + rest);
      FieldsReadAt(read, text, i + |field| + 1, fields[1..], values[1..]);
    }
  }

  // The fields are the numbers in decimal.
  ghost predicate ArePrinted(fields: seq<string>, values: seq<nat>) {
    && |fields| == |values|
    && forall k :: 0 <= k < |values| ==> IsInt(values[k]) && fields[k] == Decimal.Print(values[k])
  }

  lemma StoiReads(n: nat)
    requires IsInt(n)
    ensures Reads(Stoi, Decimal.Print(n), n) && Decimal.Print(n) != ""
  {
    PrintIsDecimal(n);
    forall rest: string | rest != "" && !IsDigit(rest[0])
      ensures Stoi(Decimal.Print(n) + rest) == Number(n, |Decimal.Print(n)|)
    {
      ParseDigits(Decimal.Print(n), rest);
    }
  }

  /**
    The loop over an `m` sequence reads back exactly the numbers it was written with, however its
    text divides, and no parameters at all mean a single zero.
  */
  lemma ParamsReadBack(fields: seq<string>, values: seq<nat>)
    requires values != [] && ArePrinted(fields, values)
    ensures
      var params := Params(Stoi, FieldText(fields), 0);
      && |params| == |values|
      && forall k :: 0 <= k < |values| ==> params[k].Number? && params[k].value == values[k]
    ensures Params(Stoi, "m", 0) == [Number(0, 0)]
  {
    forall k | 0 <= k < |values| ensures Reads(Stoi, fields[k], values[k]) && fields[k] != "" {
      StoiReads(values[k]);
    }
    var text := FieldText(fields);
    assert text[0..] == text;
    FieldsReadAt(Stoi, text, 0, fields, values);
    NumberAt(fields, values, 0);
    forall k | 0 <= k < |values| ensures Params(Stoi, text, 0)[k] == Number(values[k], |fields[k]|) {
      NumberAt(fields, values, k);
    }
    assert Params(Stoi, "m", 1) == [];
  }

  // ----- commands -----

  // When a command, given with its bracket and without its ESC, keeps the bounds.
  predicate KeepsBounds(st: State, cmd: string, screen: Screen)
    requires cmd != ""
  {
    var last := cmd[|cmd| - 1];
    if cmd[0] != '[' || cmd == "[?2004h" || cmd == "[?2004l" then true
    else if last == 'H' then
      var target := CursorTarget(cmd);
      target.Some? && 0 <= target.value.0 <= |st.data| && 0 <= target.value.1
    else if last == 'J' then st.line == 0
    else if last == 'm' then SafeParams(Params(Stoi, cmd[1..], 0))
    else if last == 'K' then Atoi(cmd[1..]) in [Some(0), Some(1), Some(2)]
    else if IsMove(last) then
      var p := Count(cmd);
      && p.Number?
      && match last
         case 'D' => true
         case 'C' => 0 <= st.col + p.value && 0 <= screen.columns
         case 'A' => screen.rows != 0 && st.line - p.value < |st.data|
         case _ => screen.rows >= 0 && 0 <= st.line + p.value < |st.data|
    else true
  }

  lemma MoveKeepsBoundsIff(st: State, cmd: string, screen: Screen)
    requires Bounded(st) && cmd != "" && cmd[0] == '[' && IsMove(cmd[|cmd| - 1])
    requires cmd != "[?2004h" && cmd != "[?2004l"
    requires Count(cmd).Number?
    ensures Bounded(Move(st, cmd[|cmd| - 1], Count(cmd).value, screen)) <==> KeepsBounds(st, cmd, screen)
  {
  }

  lemma EraseKeepsBoundsIff(st: State, cmd: string, screen: Screen)
    requires Bounded(st) && cmd != ""
    ensures
      var r := Erase(st, cmd, screen);
      r.Ok? && Bounded(r.state) <==> Atoi(cmd[1..]) in [Some(0), Some(1), Some(2)]
  {
    var span := EraseSpan(st, cmd, screen);
    if span.Some? {
      BlankKeepsBounds(st, span.value.0, span.value.1);
    }
  }

  lemma CursorKeepsBoundsIff(st: State, target: Option<(int, int)>)
    requires Bounded(st)
    ensures
      var r := CursorTo(st, target);
      r.Ok? && Bounded(r.state) <==> target.Some? && 0 <= target.value.0 <= |st.data| && 0 <= target.value.1
  {
  }

  /**
    Each command, run in bounds, ends without a fault and in bounds exactly under a condition that can
    be checked before it runs: `A` on any screen with rows, `C` on any with columns, `H` and `B` for a
    target inside the grid, `J` only from the top line.
  */
  lemma CommandKeepsBoundsIff(st: State, screen: Screen)
    requires Bounded(st) && st.buffer != ""
    ensures Obey(st, screen).Ok? && Bounded(Obey(st, screen).state) <==> KeepsBounds(st, st.buffer, screen)
  {
    var cmd := st.buffer;
    var last := cmd[|cmd| - 1];
    if cmd[0] == '[' && cmd != "[?2004h" && cmd != "[?2004l" {
      if last == 'H' {
        CursorKeepsBoundsIff(st, CursorTarget(cmd));
      } else if last == 'm' {
        SelectionIsSafeIff(st.pen, Params(Stoi, cmd[1..], 0));
      } else if last == 'K' {
        EraseKeepsBoundsIff(st, cmd, screen);
      } else if IsMove(last) && Count(cmd).Number? {
        MoveKeepsBoundsIff(st, cmd, screen);
      }
    }
  }

  // Commands that keep the bounds wherever the cursor is.
  predicate Safe(cmd: string) {
    cmd != "" &&
    var last := cmd[|cmd| - 1];
    if cmd[0] != '[' || cmd == "[?2004h" || cmd == "[?2004l" then true
    else if last == 'H' || last == 'J' || last == 'B' then false
    else if last == 'm' then SafeParams(Params(Stoi, cmd[1..], 0))
    else if last == 'K' then Atoi(cmd[1..]) in [Some(0), Some(1), Some(2)]
    else if IsMove(last) then Count(cmd).Number? && Count(cmd).value >= 0
    else true
  }

  lemma SafeKeepsBounds(st: State, cmd: string, screen: Screen)
    requires Bounded(st) && Safe(cmd) && screen.columns >= 0 && screen.rows != 0
    ensures KeepsBounds(st, cmd, screen)
  {
  }

  // ----- the buffer, which does not depend on the grid -----

  function NextBuffer(buffer: string, c: char): string {
    if InCommand(buffer) then if IsAlpha(c) then "" else buffer + [c]
    else if IsHigh(c) || c == ESC then buffer + [c]
    else if c == '\n' || c == '\r' || c == '\U{8}' || c == '\U{7}' then buffer
    else ""
  }

  function BufferAfter(start: string, input: string): string {
    if input == "" then start else NextBuffer(BufferAfter(start, input[..|input| - 1]), input[|input| - 1])
  }

  // The commands that a stream completes, each without its ESC; the first may have begun in the buffer.
  function Commands(start: string, input: string): seq<string> {
    if input == "" then []
    else
      var before, c := input[..|input| - 1], input[|input| - 1];
      var buffer := BufferAfter(start, before);
      Commands(start, before) + if InCommand(buffer) && IsAlpha(c) then [buffer[1..] + [c]] else []
  }

  // The runs of bytes a stream hands to the UTF-8 conversion.
  function Texts(start: string, input: string): seq<string> {
    if input == "" then []
    else
      var before, c := input[..|input| - 1], input[|input| - 1];
      var buffer := BufferAfter(start, before);
      Texts(start, before) + if !InCommand(buffer) && Prints(c) then [buffer + [c]] else []
  }

  predicate Prints(c: char) {
    !IsHigh(c) && c != ESC && c != '\n' && c != '\r' && c != '\U{8}' && c != '\U{7}'
  }

  lemma {:induction false} BufferStaysOk(start: string, input: string)
    requires BufferOk(start)
    ensures BufferOk(BufferAfter(start, input))
    decreases |input|
  {
    if input != "" {
      BufferStaysOk(start, input[..|input| - 1]);
    }
  }

  lemma ObeyStepKeepsBounds(st: State, c: char, screen: Screen, decode: Decoder)
    requires Bounded(st) && InCommand(st.buffer) && IsAlpha(c)
    requires Safe(st.buffer[1..] + [c])
    requires screen.columns >= 0 && screen.rows != 0
    ensures
      var r := Step(st, c, screen, decode);
      r.Ok? && Bounded(r.state) && r.state.buffer == ""
  {
    var st' := st.(buffer := st.buffer[1..] + [c]);
    SafeKeepsBounds(st', st'.buffer, screen);
    CommandKeepsBoundsIff(st', screen);
  }

  lemma PrintStepKeepsBounds(st: State, c: char, screen: Screen, decode: Decoder)
    requires Bounded(st) && !InCommand(st.buffer) && Prints(c)
    requires decode(st.buffer + [c]).Some?
    ensures
      var r := Step(st, c, screen, decode);
      r.Ok? && Bounded(r.state) && r.state.buffer == ""
  {
    AddLettersKeepBounds(st.(buffer := st.buffer + [c]), decode(st.buffer + [c]).value);
  }

  lemma OtherStepKeepsBounds(st: State, c: char, screen: Screen, decode: Decoder)
    requires Bounded(st) && screen.columns >= 1
    requires if InCommand(st.buffer) then !IsAlpha(c) else !Prints(c)
    ensures
      var r := Step(st, c, screen, decode);
      r.Ok? && Bounded(r.state) && r.state.buffer == NextBuffer(st.buffer, c)
  {
  }

  // All commands are safe and all text is valid UTF-8.
  predicate WellFormed(start: string, input: string, decode: Decoder) {
    && All(Commands(start, input), Safe)
    && All(Texts(start, input), text => decode(text).Some?)
  }

  predicate All(texts: seq<string>, p: string -> bool) {
    forall i :: 0 <= i < |texts| ==> p(texts[i])
  }

  lemma AllConcat(a: seq<string>, b: seq<string>, p: string -> bool)
    ensures All(a + b, p) <==> All(a, p) && All(b, p)
  {
    if All(a + b, p) {
      forall i | 0 <= i < |a| ensures p(a[i]) {
        assert (a + b)[i] == a[i];
      }
      forall i | 0 <= i < |b| ensures p(b[i]) {
        assert (a + b)[|a| + i] == b[i];
      }
    }
  }

  predicate Usable(screen: Screen) {
    screen.columns >= 1 && screen.rows != 0
  }

  /**
    From every state in bounds, whatever command or letter its buffer has begun, and for every stream
    whose commands are all safe and whose text is valid UTF-8, on a screen with at least one column and
    some rows: nothing throws, every access is in bounds, and the state stays in bounds.
  */
  lemma {:induction false} WellFormedStreamsStayInBounds(st: State, input: string, screen: Screen, decode: Decoder)
    requires Bounded(st) && Usable(screen) && WellFormed(st.buffer, input, decode)
    ensures
      var r := Feed(st, input, screen, decode);
      r.Ok? && Bounded(r.state) && r.state.buffer == BufferAfter(st.buffer, input)
    decreases |input|
  {
    if input != "" {
      var n := |input| - 1;
      var before, c := input[..n], input[n];
      PrefixWellFormed(st.buffer, input, decode);
      WellFormedStreamsStayInBounds(st, before, screen, decode);
      var s := Feed(st, before, screen, decode).state;
      if InCommand(s.buffer) && IsAlpha(c) {
        ObeyStepKeepsBounds(s, c, screen, decode);
      } else if !InCommand(s.buffer) && Prints(c) {
        PrintStepKeepsBounds(s, c, screen, decode);
      } else {
        OtherStepKeepsBounds(s, c, screen, decode);
      }
    }
  }

  lemma PrefixWellFormed(start: string, input: string, decode: Decoder)
    requires input != "" && WellFormed(start, input, decode)
    ensures WellFormed(start, input[..|input| - 1], decode)
    ensures
      var buffer, c := BufferAfter(start, input[..|input| - 1]), input[|input| - 1];
      && (InCommand(buffer) && IsAlpha(c) ==> Safe(buffer[1..] + [c]))
      && (!InCommand(buffer) && Prints(c) ==> decode(buffer + [c]).Some?)
  {
    var before, c := input[..|input| - 1], input[|input| - 1];
    var buffer := BufferAfter(start, before);
    var command := if InCommand(buffer) && IsAlpha(c) then [buffer[1..] + [c]] else [];
    var text := if !InCommand(buffer) && Prints(c) then [buffer + [c]] else [];
    AllConcat(Commands(start, before), command, Safe);
    AllConcat(Texts(start, before), text, text => decode(text).Some?);
    assert command != [] ==> Safe(command[0]);
    assert text != [] ==> decode(text[0]).Some?;
  }

  // ----- many calls -----

  datatype Call = Call(text: string, screen: Screen)

  function Calls(st: State, calls: seq<Call>, decode: Decoder): Result<State>
    decreases |calls|
  {
    if calls == [] then Ok(st)
    else
      match AddText(st, calls[0].text, calls[0].screen, decode)
      case Ok(s) => Calls(s, calls[1..], decode)
      case Failed(f) => Failed(f)
  }

  // The bytes that the calls deliver.
  function Stream(calls: seq<Call>): string {
    if calls == [] then "" else Input(calls[0].text) + Stream(calls[1..])
  }

  lemma {:induction false} BuffersConcat(start: string, a: string, b: string)
    ensures BufferAfter(start, a + b) == BufferAfter(BufferAfter(start, a), b)
    decreases |b|
  {
    if b == "" {
      assert a + b == a;
    } else {
      assert (a + b)[..|a + b| - 1] == a + b[..|b| - 1];
      BuffersConcat(start, a, b[..|b| - 1]);
    }
  }

  lemma {:induction false} StreamsConcat(start: string, a: string, b: string)
    ensures Commands(start, a + b) == Commands(start, a) + Commands(BufferAfter(start, a), b)
    ensures Texts(start, a + b) == Texts(start, a) + Texts(BufferAfter(start, a), b)
    decreases |b|
  {
    if b == "" {
      assert a + b == a;
    } else {
      var before := b[..|b| - 1];
      assert (a + b)[..|a + b| - 1] == a + before;
      StreamsConcat(start, a, before);
      BuffersConcat(start, a, before);
    }
  }

  lemma WellFormedSplits(start: string, a: string, b: string, decode: Decoder)
    requires WellFormed(start, a + b, decode)
    ensures WellFormed(start, a, decode) && WellFormed(BufferAfter(start, a), b, decode)
  {
    StreamsConcat(start, a, b);
    AllConcat(Commands(start, a), Commands(BufferAfter(start, a), b), Safe);
    AllConcat(Texts(start, a), Texts(BufferAfter(start, a), b), text => decode(text).Some?);
  }

  /**
    The same over any number of calls, each with a screen of its own size: the safe commands and the
    letters may be cut between calls anywhere.
  */
  lemma {:induction false} CallsStayInBounds(st: State, calls: seq<Call>, decode: Decoder)
    requires Bounded(st) && BufferOk(st.buffer) && WellFormed(st.buffer, Stream(calls), decode)
    requires forall k :: 0 <= k < |calls| ==> Usable(calls[k].screen)
    ensures
      var r := Calls(st, calls, decode);
      && r.Ok?
      && Bounded(r.state)
      && r.state.buffer == BufferAfter(st.buffer, Stream(calls))
      && BufferOk(r.state.buffer)
    decreases |calls|
  {
    BufferStaysOk(st.buffer, Stream(calls));
    if calls != [] {
      var input, rest := Input(calls[0].text), Stream(calls[1..]);
      WellFormedSplits(st.buffer, input, rest, decode);
      WellFormedStreamsStayInBounds(st.(due := false), input, calls[0].screen, decode);
      BufferStaysOk(st.buffer, input);
      var s := AddText(st, calls[0].text, calls[0].screen, decode).state;
      CallsStayInBounds(s, calls[1..], decode);
      BuffersConcat(st.buffer, input, rest);
    }
  }

  // ----- agreement with the dumb terminal -----

  function Letters(data: Grid): seq<seq<nat>> {
    seq(|data|, r requires 0 <= r < |data| => RowLetters(data[r]))
  }

  function RowLetters(row: seq<Symbol>): seq<nat> {
    seq(|row|, c requires 0 <= c < |row| => row[c].letter)
  }

  // Printable seven-bit bytes, newlines, returns and bells.
  predicate PlainText(input: string) {
    forall i :: 0 <= i < |input| ==> input[i] != ESC && input[i] != '\U{8}' && !IsHigh(input[i])
  }

  lemma PutLetters(row: seq<Symbol>, row': seq<Symbol>, col: nat, s: Symbol, b: Symbol, s': Symbol, b': Symbol)
    requires RowLetters(row) == RowLetters(row') && s.letter == s'.letter && b.letter == b'.letter
    ensures RowLetters(Put(row, col, s, b)) == RowLetters(Put(row', col, s', b'))
  {
    assert |row| == |RowLetters(row)| == |RowLetters(row')| == |row'|;
    var p, p' := Put(row, col, s, b), Put(row', col, s', b');
    forall c | 0 <= c < |p| ensures p[c].letter == p'[c].letter {
      if c < |row| {
        assert RowLetters(row)[c] == RowLetters(row')[c];
      }
    }
  }

  predicate Agree(st: State, dumb: D.State) {
    && Letters(st.data) == Letters(dumb.data)
    && st.line == dumb.line == |dumb.data| - 1
    && st.col == dumb.col
    && st.buffer == ""
  }

  lemma StepAgrees(st: State, dumb: D.State, c: char, screen: Screen, decode: Decoder)
    requires Agree(st, dumb)
    requires c != ESC && c != '\U{8}' && !IsHigh(c)
    requires decode([c]) == Some([c as nat])
    ensures Step(st, c, screen, decode).Ok?
    ensures Agree(Step(st, c, screen, decode).state, D.Step(dumb, c))
  {
    assert |st.data| == |Letters(st.data)| == |dumb.data|;
    if c == '\n' {
      assert Letters(st.data + [[]]) == Letters(st.data) + [RowLetters([])];
      assert Letters(dumb.data + [[]]) == Letters(dumb.data) + [RowLetters([])];
    } else if Prints(c) {
      assert "" + [c] == [c];
      var st1 := st.(buffer := [c]);
      assert AddLetters(st1, []) == Ok(st1) && [c as nat][..0] == [];
      assert AddLetters(st1, [c as nat]) == AddLetter(st1, c as nat);
      var l := st.line;
      assert Letters(st.data)[l] == Letters(dumb.data)[l];
      var s := Plain(c as nat, st.pen.foreground, st.pen.background);
      var b := Plain(SPACE, st.pen.foreground, st.pen.background);
      var s', b' := D.Glyph(D.Letter(c)), D.Glyph(SPACE);
      PutLetters(st.data[l], dumb.data[l], st.col, s, b, s', b');
      UpdatedLetters(st.data, l, Put(st.data[l], st.col, s, b));
      UpdatedLetters(dumb.data, l, Put(dumb.data[l], st.col, s', b'));
    }
  }

  lemma UpdatedLetters(data: Grid, l: nat, row: seq<Symbol>)
    requires l < |data|
    ensures Letters(data[l := row]) == Letters(data)[l := RowLetters(row)]
  {
  }

  /**
    On plain seven-bit text the Linux terminal shows the letters the dumb terminal does, cell by cell.
  */
  lemma {:induction false} PlainTextLooksTheSame(input: string, screen: Screen, decode: Decoder)
    requires PlainText(input)
    requires forall c: char :: !IsHigh(c) ==> decode([c]) == Some([c as nat])
    ensures Feed(FRESH, input, screen, decode).Ok?
    ensures Agree(Feed(FRESH, input, screen, decode).state, D.Feed(D.FRESH, input))
    decreases |input|
  {
    if input != "" {
      var n := |input| - 1;
      PlainTextLooksTheSame(input[..n], screen, decode);
      StepAgrees(Feed(FRESH, input[..n], screen, decode).state, D.Feed(D.FRESH, input[..n]), input[n], screen, decode);
    }
  }

  // Plain text asks for a recount exactly at a newline.
  lemma StepRecounts(st: State, dumb: D.State, c: char, screen: Screen, decode: Decoder)
    requires Agree(st, dumb)
    requires c != ESC && c != '\U{8}' && !IsHigh(c)
    requires decode([c]) == Some([c as nat])
    ensures
      var r := Step(st, c, screen, decode);
      r.Ok? && r.state.due == (st.due || c == '\n') && r.state.wrapCount == st.wrapCount
  {
    assert |st.data| == |Letters(st.data)| == |dumb.data|;
    if Prints(c) {
      assert "" + [c] == [c];
      var st1 := st.(buffer := [c]);
      assert AddLetters(st1, []) == Ok(st1) && [c as nat][..0] == [];
      assert AddLetters(st1, [c as nat]) == AddLetter(st1, c as nat);
    }
  }

  lemma PlainPrefix(input: string)
    requires input != "" && PlainText(input)
    ensures
      var n := |input| - 1;
      PlainText(input[..n]) && input[n] != ESC && input[n] != '\U{8}' && !IsHigh(input[n])
  {
  }

  lemma {:induction false} FedRecounts(input: string, screen: Screen, decode: Decoder)
    requires PlainText(input)
    requires forall c: char :: !IsHigh(c) ==> decode([c]) == Some([c as nat])
    ensures
      var r := Feed(FRESH, input, screen, decode);
      r.Ok? && (r.state.due <==> '\n' in input) && r.state.wrapCount == 0
    decreases |input|
  {
    if input != "" {
      hide Step, PlainText, Agree;
      var n := |input| - 1;
      PlainPrefix(input);
      FedRecounts(input[..n], screen, decode);
      PlainTextLooksTheSame(input[..n], screen, decode);
      StepRecounts(
        Feed(FRESH, input[..n], screen, decode).state, D.Feed(D.FRESH, input[..n]), input[n], screen, decode);
      assert input == input[..n] + [input[n]];
    }
  }

  /**
    A call with plain text has the wrapped lines counted exactly if the text has a newline.
  */
  lemma PlainTextRecounts(text: string, screen: Screen, decode: Decoder)
    requires PlainText(Input(text))
    requires forall c: char :: !IsHigh(c) ==> decode([c]) == Some([c as nat])
    ensures
      var r := AddText(FRESH, text, screen, decode);
      r.Ok? && r.state.wrapCount == if '\n' in Input(text) then LineCount(r.state.data, screen.columns) else 0
  {
    FedRecounts(Input(text), screen, decode);
    assert FRESH.(due := false) == FRESH;
  }
}
