/**
  What each control sequence of the Linux terminal shows, from its bytes: where the cursor goes, which
  cells are blanked and which pen is taken.
*/
module LinuxEffects {
  import opened Decimal
  import opened Options
  import opened Terminal
  import opened LinuxTerminal
  import opened LinuxTheorems
  import opened LinuxPen

  // ----- a sequence is obeyed when its letter arrives -----

  // Its letter is its last byte.
  predicate IsCommand(cmd: string) {
    cmd != "" && IsAlpha(cmd[|cmd| - 1]) && forall i :: 0 <= i < |cmd| - 1 ==> !IsAlpha(cmd[i])
  }

  // The control sequence in front of other bytes of the stream.
  function Sent(st: State, cmd: string, screen: Screen, decode: Decoder): Result<State> {
    Feed(st, [ESC] + cmd, screen, decode)
  }

  lemma FedNext(st: State, before: string, c: char, s: State, screen: Screen, decode: Decoder)
    requires Feed(st, before, screen, decode) == Ok(s)
    ensures Feed(st, before + [c], screen, decode) == Step(s, c, screen, decode)
  {
    assert (before + [c])[..|before|] == before;
  }

  lemma Waits(st: State, c: char, screen: Screen, decode: Decoder)
    requires InCommand(st.buffer) || (st.buffer == "" && c == ESC)
    requires !IsAlpha(c)
    ensures Step(st, c, screen, decode) == Ok(st.(buffer := st.buffer + [c]))
  {
  }

  lemma {:induction false} CommandWaits(st: State, cmd: string, k: nat, screen: Screen, decode: Decoder)
    requires st.buffer == "" && IsCommand(cmd) && k < |cmd|
    ensures Feed(st, [ESC] + cmd[..k], screen, decode) == Ok(st.(buffer := [ESC] + cmd[..k]))
  {
    if k == 0 {
      assert Feed(st, "", screen, decode) == Ok(st);
      assert "" + [ESC] == [ESC] + cmd[..0] == [ESC];
      hide Feed, Step;
      FedNext(st, "", ESC, st, screen, decode);
      Waits(st, ESC, screen, decode);
    } else {
      hide Feed, Step;
      var before, c := [ESC] + cmd[..k - 1], cmd[k - 1];
      CommandWaits(st, cmd, k - 1, screen, decode);
      assert before + [c] == [ESC] + cmd[..k];
      FedNext(st, before, c, st.(buffer := before), screen, decode);
      Waits(st.(buffer := before), c, screen, decode);
    }
  }

  lemma Obeys(st: State, c: char, screen: Screen, decode: Decoder)
    requires InCommand(st.buffer) && IsAlpha(c)
    ensures
      Step(st, c, screen, decode) ==
        match Obey(st.(buffer := st.buffer[1..] + [c]), screen)
        case Ok(s) => Ok(s.(buffer := ""))
        case Failed(f) => Failed(f)
  {
  }

  lemma CommandIsObeyed(st: State, cmd: string, screen: Screen, decode: Decoder)
    requires st.buffer == "" && IsCommand(cmd)
    ensures
      Sent(st, cmd, screen, decode) ==
        match Obey(st.(buffer := cmd), screen)
        case Ok(s) => Ok(s.(buffer := ""))
        case Failed(f) => Failed(f)
  {
    hide Feed, Step, Obey;
    var n := |cmd| - 1;
    var before := [ESC] + cmd[..n];
    CommandWaits(st, cmd, n, screen, decode);
    assert before + [cmd[n]] == [ESC] + cmd;
    FedNext(st, before, cmd[n], st.(buffer := before), screen, decode);
    Obeys(st.(buffer := before), cmd[n], screen, decode);
    assert before[1..] + [cmd[n]] == cmd;
  }

  // ----- the shape of a command -----

  predicate Wordless(s: string) {
    forall i :: 0 <= i < |s| ==> !IsAlpha(s[i])
  }

  lemma WordlessConcat(a: string, b: string)
    requires Wordless(a) && Wordless(b)
    ensures Wordless(a + b)
  {
  }

  lemma DigitsAreWordless(s: string)
    requires AllDigits(s)
    ensures Wordless(s) && forall i :: 0 <= i < |s| ==> s[i] != ';'
  {
    assert forall i :: 0 <= i < |s| ==> IsDigit(s[i]);
  }

  // The parts of a command.
  lemma Ends(body: string, last: char)
    requires Wordless(body) && IsAlpha(last)
    ensures
      var cmd := "[" + body + [last];
      && IsCommand(cmd)
      && cmd[0] == '[' && cmd[|cmd| - 1] == last && cmd[1..] == body + [last]
      && (last != 'h' && last != 'l' ==> cmd != "[?2004h" && cmd != "[?2004l")
  {
    var cmd := "[" + body + [last];
    assert cmd[1..] == body + [last];
    assert "[?2004h"[|"[?2004h"| - 1] == 'h' && "[?2004l"[|"[?2004l"| - 1] == 'l';
  }

  // ----- numbers in commands -----

  // A number as it stands in a command, or nothing.
  function Given(n: Option<nat>): string {
    if n.Some? then Decimal.Print(n.value) else ""
  }

  lemma GivenIsCommand(n: Option<nat>, last: char)
    requires IsAlpha(last)
    ensures AllDigits(Given(n)) && Wordless(Given(n)) && (n.Some? ==> Given(n) != "")
    ensures
      var cmd := "[" + Given(n) + [last];
      && IsCommand(cmd)
      && cmd[0] == '[' && cmd[|cmd| - 1] == last && cmd[1..] == Given(n) + [last]
      && (last != 'h' && last != 'l' ==> cmd != "[?2004h" && cmd != "[?2004l")
  {
    if n.Some? {
      PrintIsDecimal(n.value);
    }
    DigitsAreWordless(Given(n));
    Ends(Given(n), last);
  }

  lemma NumberIsRead(n: nat, rest: string)
    requires rest == "" || !IsDigit(rest[0])
    ensures ParseInt(Decimal.Print(n) + rest) == Number(n, |Decimal.Print(n)|)
  {
    PrintIsDecimal(n);
    ParseDigits(Decimal.Print(n), rest);
  }

  lemma NothingIsRead(last: char, rest: string)
    requires IsAlpha(last)
    ensures ParseInt([last] + rest) == NoNumber
  {
    var s := [last] + rest;
    assert SpaceRun(s) == 0 && s[0..] == s && DigitRun(s) == 0;
  }

  lemma CountIs(n: Option<nat>, last: char)
    requires IsAlpha(last) && (n.Some? ==> IsInt(n.value))
    ensures
      var count := Count("[" + Given(n) + [last]);
      count.Number? && count.value == if n.Some? then n.value else 1
  {
    var cmd := "[" + Given(n) + [last];
    GivenIsCommand(n, last);
    assert cmd[1..] == Given(n) + [last];
    if n.Some? {
      NumberIsRead(n.value, [last]);
    }
  }

  lemma AtoiIs(n: Option<nat>, last: char)
    requires IsAlpha(last) && (n.Some? ==> IsInt(n.value))
    ensures Atoi(Given(n) + [last]) == Some(if n.Some? then n.value else 0)
  {
    if n.Some? {
      NumberIsRead(n.value, [last]);
    } else {
      NothingIsRead(last, "");
      assert Given(n) + [last] == [last] + "";
    }
  }

  // ----- cursor moves -----

  /**
    `D`, `C`, `A` and `B` move the cursor by the number given, or by one, and stop at the edge: the first
    column, the column count, the first line of the last screenful, or the end of the grid or the screen.
  */
  lemma MovesGoSoFar(st: State, n: Option<nat>, screen: Screen, decode: Decoder)
    requires st.buffer == "" && (n.Some? ==> IsInt(n.value))
    ensures
      var count, lines := if n.Some? then n.value else 1, |st.data|;
      var text := "[" + Given(n);
      && Sent(st, text + "D", screen, decode) == Ok(st.(col := if st.col <= count then 0 else st.col - count))
      && Sent(st, text + "C", screen, decode)
        == Ok(st.(col := if screen.columns <= st.col + count then screen.columns else st.col + count))
      && Sent(st, text + "A", screen, decode)
        == Ok(st.(line :=
             var top := if 0 <= screen.rows < lines then lines - screen.rows else 0;
             if st.line - count <= top then top else st.line - count))
      && Sent(st, text + "B", screen, decode)
        == Ok(st.(line :=
             var bottom := if 0 <= screen.rows < lines then lines else screen.rows;
             if bottom <= st.line + count then bottom else st.line + count))
  {
    hide Sent, Given;
    MoveGoes(st, n, 'D', screen, decode);
    MoveGoes(st, n, 'C', screen, decode);
    MoveGoes(st, n, 'A', screen, decode);
    MoveGoes(st, n, 'B', screen, decode);
  }

  lemma MoveGoes(st: State, n: Option<nat>, last: char, screen: Screen, decode: Decoder)
    requires st.buffer == "" && (n.Some? ==> IsInt(n.value)) && IsMove(last)
    ensures
      Sent(st, "[" + Given(n) + [last], screen, decode)
      == Ok(Move(st, last, if n.Some? then n.value else 1, screen))
  {
    hide Sent, IsCommand, Given, Move, Count;
    var cmd := "[" + Given(n) + [last];
    GivenIsCommand(n, last);
    CommandIsObeyed(st, cmd, screen, decode);
    CountIs(n, last);
    ObeyMove(st.(buffer := cmd), last, screen);
    MoveKeepsBuffer(st, cmd, last, if n.Some? then n.value else 1, screen);
  }

  lemma ObeyMove(st: State, last: char, screen: Screen)
    requires st.buffer != "" && st.buffer[0] == '[' && st.buffer[|st.buffer| - 1] == last && IsMove(last)
    requires st.buffer != "[?2004h" && st.buffer != "[?2004l" && Count(st.buffer).Number?
    ensures Obey(st, screen) == Ok(Move(st, last, Count(st.buffer).value, screen))
  {
    hide Count, Move, Params, LinuxTerminal.SelectAll, Erase, CursorTarget;
  }

  lemma MoveKeepsBuffer(st: State, cmd: string, last: char, v: int, screen: Screen)
    requires st.buffer == ""
    ensures Move(st.(buffer := cmd), last, v, screen).(buffer := "") == Move(st, last, v, screen)
  {
  }

  function CursorText(l: nat, c: nat): string {
    "[" + (Decimal.Print(l) + (";" + Decimal.Print(c))) + "H"
  }

  lemma CursorTextIsCommand(l: nat, c: nat)
    ensures IsCommand(CursorText(l, c)) && CursorText(l, c)[0] == '['
    ensures CursorText(l, c)[|CursorText(l, c)| - 1] == 'H'
    ensures CursorText(l, c)[1..] == Decimal.Print(l) + (";" + Decimal.Print(c) + "H")
    ensures AllDigits(Decimal.Print(l)) && AllDigits(Decimal.Print(c))
  {
    var first, second := Decimal.Print(l), Decimal.Print(c);
    PrintIsDecimal(l);
    PrintIsDecimal(c);
    DigitsAreWordless(first);
    DigitsAreWordless(second);
    WordlessConcat(";", second);
    WordlessConcat(first, ";" + second);
    Ends(first + (";" + second), 'H');
    assert first + (";" + second) + "H" == first + (";" + second + "H");
  }

  lemma FindIs(a: string, c: char, b: string)
    requires forall i :: 0 <= i < |a| ==> a[i] != c
    ensures Find(a + ([c] + b), c) == |a|
  {
    var s := a + ([c] + b);
    assert s[|a|] == c;
    assert forall i :: 0 <= i < |a| ==> s[i] != c;
  }

  lemma TargetIs(l: nat, c: nat)
    requires IsInt(l) && IsInt(c)
    ensures CursorTarget(CursorText(l, c)) == Some((l, c))
  {
    hide Find, ParseInt;
    var cmd, first, second := CursorText(l, c), Decimal.Print(l), Decimal.Print(c);
    CursorTextIsCommand(l, c);
    DigitsAreWordless(first);
    assert cmd == ("[" + first) + ([';'] + (second + "H"));
    FindIs("[" + first, ';', second + "H");
    assert cmd[2 + |first|..] == second + "H";
    NumberIsRead(l, ";" + second + "H");
    NumberIsRead(c, "H");
  }

  /**
    `H` with two numbers goes to that line and column, counted from one, zero meaning one.
  */
  lemma CursorGoesTo(st: State, l: nat, c: nat, screen: Screen, decode: Decoder)
    requires st.buffer == "" && IsInt(l) && IsInt(c)
    ensures
      Sent(st, "[" + (Decimal.Print(l) + (";" + Decimal.Print(c))) + "H", screen, decode)
      == Ok(st.(line := if l <= 1 then 0 else l - 1, col := if c <= 1 then 0 else c - 1))
  {
    hide Sent, IsCommand, CursorTarget, Find;
    var cmd := CursorText(l, c);
    CursorTextIsCommand(l, c);
    TargetIs(l, c);
    ObeyCursor(st.(buffer := cmd), screen);
    CommandIsObeyed(st, cmd, screen, decode);
  }

  lemma ObeyCursor(st: State, screen: Screen)
    requires st.buffer != "" && st.buffer[0] == '[' && st.buffer[|st.buffer| - 1] == 'H'
    ensures Obey(st, screen) == CursorTo(st, CursorTarget(st.buffer))
  {
    assert "[?2004h"[6] == 'h' && "[?2004l"[6] == 'l';
  }

  lemma ObeyClear(st: State, screen: Screen)
    requires st.buffer != "" && st.buffer[0] == '[' && st.buffer[|st.buffer| - 1] == 'J'
    ensures Obey(st, screen) == Ok(st.(data := [[]], wrapCount := 1))
  {
    assert "[?2004h"[6] == 'h' && "[?2004l"[6] == 'l';
    var empty: Grid := [[]];
    assert empty[..0] == [] && |empty[0]| == 0;
    assert LineCount(empty, screen.columns) == LineCount(empty[..0], screen.columns) + Lines(0, screen.columns);
  }

  /**
    `J` leaves one empty line, whatever its number, and the cursor where it was.
  */
  lemma ClearEmpties(st: State, n: Option<nat>, screen: Screen, decode: Decoder)
    requires st.buffer == ""
    ensures Sent(st, "[" + Given(n) + "J", screen, decode) == Ok(st.(data := [[]], wrapCount := 1))
  {
    hide Sent, IsCommand, Given;
    var cmd := "[" + Given(n) + "J";
    GivenIsCommand(n, 'J');
    ObeyClear(st.(buffer := cmd), screen);
    CommandIsObeyed(st, cmd, screen, decode);
  }

  // ----- cells -----

  // The grid with the cells of one row from column start up to end blank, the row lengthened if needed.
  ghost predicate Blanked(st: State, s: State, start: int, end: int)
    requires 0 <= st.line < |st.data|
  {
    && |s.data| == |st.data|
    && (forall l :: 0 <= l < |st.data| && l != st.line ==> s.data[l] == st.data[l])
    && var row, row' := st.data[st.line], s.data[st.line];
    && |row'| == (if start < end && |row| < end then end else |row|)
    && forall c :: 0 <= c < |row'| ==>
         row'[c] == if start <= c < end || c >= |row|
                    then Symbol(32, st.pen.foreground, st.pen.background, false, false, false)
                    else row[c]
  }

  lemma {:induction false} BlankBlanks(st: State, start: int, end: int)
    requires Bounded(st) && start >= 0
    ensures Blank(st, start, end).Ok? && Blanked(st, Blank(st, start, end).state, start, end)
    decreases end - start
  {
    if start < end {
      BlankBlanks(st, start, end - 1);
      BlankKeepsBounds(st, start, end - 1);
      OneMoreBlank(st, Blank(st, start, end - 1).state, start, end - 1);
    }
  }

  lemma OneMoreBlank(st: State, s: State, start: int, c: int)
    requires Bounded(st) && 0 <= start <= c && Blanked(st, s, start, c)
    requires s.line == st.line && s.pen == st.pen
    ensures
      var r := AddLetter(s.(col := c), SPACE);
      r.Ok? && Blanked(st, r.state, start, c + 1)
  {
  }

  lemma ObeyErase(st: State, screen: Screen)
    requires st.buffer != "" && st.buffer[0] == '[' && st.buffer[|st.buffer| - 1] == 'K'
    ensures Obey(st, screen) == Erase(st, st.buffer, screen)
  {
    assert "[?2004h"[6] == 'h' && "[?2004l"[6] == 'l';
  }

  lemma SameCells(a: State, s: State, b: State, t: State, start: int, end: int)
    requires 0 <= a.line < |a.data| && Blanked(a, s, start, end)
    requires a.data == b.data && a.line == b.line && a.pen == b.pen && s.data == t.data
    ensures Blanked(b, t, start, end)
  {
  }

  /**
    `K` blanks, in the pen's colours, from the cursor to the column count, or up to the cursor, or the
    whole line, and nothing else; the cursor stays.
  */
  lemma EraseBlanks(st: State, n: Option<nat>, screen: Screen, decode: Decoder)
    requires Bounded(st) && st.buffer == "" && (n.Some? ==> n.value <= 2)
    ensures
      var r := Sent(st, "[" + Given(n) + "K", screen, decode);
      var start := if n == None || n == Some(0) then st.col else 0;
      var end := if n == Some(1) then st.col else screen.columns;
      && r.Ok?
      && r.state == st.(data := r.state.data)
      && Blanked(st, r.state, start, end)
  {
    var cmd := "[" + Given(n) + "K";
    hide Sent, IsCommand, Given, Atoi, Blank, Blanked;
    GivenIsCommand(n, 'K');
    CommandIsObeyed(st, cmd, screen, decode);
    AtoiIs(n, 'K');
    var st' := st.(buffer := cmd);
    ObeyErase(st', screen);
    var span := EraseSpan(st', cmd, screen).value;
    BlankBlanks(st', span.0, span.1);
    BlankKeepsBounds(st', span.0, span.1);
    var s := Blank(st', span.0, span.1).state;
    SameCells(st', s, st, s.(col := st.col, buffer := ""), span.0, span.1);
  }

  /**
    A letter is shown at the cursor in the pen's colours, with blanks of those colours before it where the
    row was shorter; no other cell changes and the cursor goes one column on.
  */
  lemma LetterShows(st: State, letter: nat)
    requires Bounded(st)
    ensures
      var r := AddLetter(st, letter);
      && r.Ok?
      && r.state == st.(data := r.state.data, col := st.col + 1)
      && |r.state.data| == |st.data|
      && (forall l :: 0 <= l < |st.data| && l != st.line ==> r.state.data[l] == st.data[l])
      && var row, row' := st.data[st.line], r.state.data[st.line];
      && |row'| == (if st.col < |row| then |row| else st.col + 1)
      && forall c :: 0 <= c < |row'| ==>
           row'[c] == if c == st.col then Symbol(letter, st.pen.foreground, st.pen.background, false, false, false)
                      else if c < |row| then row[c]
                      else Symbol(32, st.pen.foreground, st.pen.background, false, false, false)
  {
  }

  /**
    A backspace goes back one column, if there is one, and takes off the last cell of the row when the
    cursor was just behind it, or blanks the letter of the cell the cursor was on.  A newline goes down
    one line, with a new row below the last one; a return goes to column 0.  None of them else changes a
    cell or the cursor.
  */
  lemma ControlsShow(st: State, screen: Screen, decode: Decoder)
    requires Bounded(st) && st.buffer == "" && screen.columns != 0
    ensures Feed(st, "\r", screen, decode) == Ok(st.(col := 0))
    ensures Feed(st, "\U{7}", screen, decode) == Ok(st)
    ensures
      Feed(st, "\n", screen, decode) ==
        if st.line + 1 == |st.data| then Ok(st.(data := st.data + [[]], line := st.line + 1, due := true))
        else Ok(st.(line := st.line + 1))
    ensures st.col == 0 ==> Feed(st, "\U{8}", screen, decode) == Ok(st)
    ensures st.col > 0 ==>
      var r, row := Feed(st, "\U{8}", screen, decode), st.data[st.line];
      && r.Ok?
      && r.state == st.(data := r.state.data, col := st.col - 1, due := r.state.due)
      && (r.state.due <==> st.due || (st.col - 1) % screen.columns == 0)
      && |r.state.data| == |st.data|
      && (forall l :: 0 <= l < |st.data| && l != st.line ==> r.state.data[l] == st.data[l])
      && |r.state.data[st.line]| == (if st.col == |row| then |row| - 1 else |row|)
      && forall c :: 0 <= c < |r.state.data[st.line]| ==>
           r.state.data[st.line][c] == if c == st.col then row[c].(letter := 32) else row[c]
  {
    assert Feed(st, "", screen, decode) == Ok(st);
    OneByte(st, '\r', screen, decode);
    OneByte(st, '\U{7}', screen, decode);
    OneByte(st, '\n', screen, decode);
    OneByte(st, '\U{8}', screen, decode);
  }

  lemma OneByte(st: State, c: char, screen: Screen, decode: Decoder)
    ensures Feed(st, [c], screen, decode) == Step(st, c, screen, decode)
  {
    assert "" + [c] == [c];
    assert Feed(st, "", screen, decode) == Ok(st);
    FedNext(st, "", c, st, screen, decode);
  }

  /**
    A command of another letter, or without its bracket, changes nothing.
  */
  lemma OthersChangeNothing(st: State, cmd: string, screen: Screen, decode: Decoder)
    requires st.buffer == "" && IsCommand(cmd) && (cmd[0] != '[' || cmd[|cmd| - 1] !in "HJmKDCAB")
    ensures Sent(st, cmd, screen, decode) == Ok(st)
  {
    CommandIsObeyed(st, cmd, screen, decode);
  }

  // ----- the pen -----

  function Body(fields: seq<string>): string
    requires fields != []
  {
    fields[0] + if |fields| == 1 then "" else ";" + Body(fields[1..])
  }

  lemma {:induction false} BodyIsWordless(fields: seq<string>, values: seq<nat>)
    requires values != [] && ArePrinted(fields, values)
    ensures Wordless(Body(fields)) && FieldText(fields) == Body(fields) + "m"
    decreases |values|
  {
    PrintIsDecimal(values[0]);
    DigitsAreWordless(fields[0]);
    if |fields| == 1 {
      assert Body(fields) == fields[0];
    } else {
      BodyIsWordless(fields[1..], values[1..]);
      WordlessConcat(";", Body(fields[1..]));
      WordlessConcat(fields[0], ";" + Body(fields[1..]));
      assert fields[0] + (";" + (Body(fields[1..]) + "m")) == fields[0] + (";" + Body(fields[1..])) + "m";
    }
  }

  predicate AllOn(values: seq<int>) {
    forall k :: 0 <= k < |values| ==> values[k] !in [98, 99, 108, 109]
  }

  // The numbers up to any 38 or 48 are all on the palette.
  predicate OnPalette(values: seq<int>) {
    AllOn(Heeded(values))
  }

  lemma AllOnNext(v: int, rest: seq<int>)
    ensures AllOn([v] + rest) <==> !OffPalette(v) && AllOn(rest)
  {
    var all := [v] + rest;
    assert all[0] == v;
    assert forall k :: 0 <= k < |rest| ==> rest[k] == all[k + 1];
  }

  lemma {:induction false} SafeIff(params: seq<Parse>, values: seq<int>)
    requires AreNumbers(params, values)
    ensures SafeParams(params) <==> OnPalette(values)
    decreases |values|
  {
    if values != [] {
      NumbersRest(params, values);
      SafeIff(params[1..], values[1..]);
      AllOnNext(values[0], Heeded(values[1..]));
    }
  }

  lemma ObeySelection(st: State, screen: Screen)
    requires st.buffer != "" && st.buffer[0] == '[' && st.buffer[|st.buffer| - 1] == 'm'
    ensures
      Obey(st, screen) ==
        match LinuxTerminal.SelectAll(st.pen, Params(Stoi, st.buffer[1..], 0))
        case Ok(pen) => Ok(st.(buffer := st.buffer[1..], pen := pen))
        case Failed(f) => Failed(f)
  {
    assert "[?2004h"[6] == 'h' && "[?2004l"[6] == 'l';
  }

  /**
    The pen after `ESC [ ... m` with any numbers, and after `ESC [ m`, which is the single zero: each part
    as the last number that speaks of it says.  Nothing else changes.
  */
  lemma SelectionTakesPen(st: State, fields: seq<string>, values: seq<nat>, screen: Screen, decode: Decoder)
    requires st.buffer == "" && 0 <= st.pen.index < 8
    requires (fields == [] && values == [0]) || (values != [] && ArePrinted(fields, values))
    ensures
      var heeded := Heeded(values);
      Sent(st, "[" + (if fields == [] then "m" else FieldText(fields)), screen, decode)
      == if OnPalette(values) then
           Ok(st.(pen := Pen(Foreground(st.pen, heeded), Background(st.pen, heeded),
                             Light(st.pen, heeded), Swapped(st.pen, heeded), Chosen(st.pen, heeded))))
         else Failed(Undefined)
  {
    hide Sent, Params, LinuxTerminal.SelectAll, SafeParams, Foreground, Background, Light, Swapped, Chosen;
    var text := if fields == [] then "m" else FieldText(fields);
    var cmd := "[" + text;
    if fields == [] {
      ParamsReadBack([Decimal.Print(0)], [0]);
      Ends("", 'm');
      assert cmd == "[" + "" + ['m'];
    } else {
      ParamsReadBack(fields, values);
      BodyIsWordless(fields, values);
      Ends(Body(fields), 'm');
      assert cmd == "[" + Body(fields) + ['m'];
    }
    var params := Params(Stoi, text, 0);
    assert AreNumbers(params, values);
    CommandIsObeyed(st, cmd, screen, decode);
    ObeySelection(st.(buffer := cmd), screen);
    PenIsLastTold(st.pen, params, values);
    SafeIff(params, values);
  }
}
