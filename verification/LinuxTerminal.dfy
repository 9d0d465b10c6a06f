/**
  The Linux terminal: control sequences, colours and a cursor that can move over what is shown.

  `Feed` is the specification of `add_text`, byte by byte.  Where the source throws, or would index
  out of bounds, use an uninitialised bound or never stop, the specification says so instead of
  giving a state.  The class that follows does the work in place and is proved against it.
*/
module LinuxTerminal {
  import opened Decimal
  import opened Options
  import opened Terminal

  datatype Fault = Throws | Undefined

  datatype Result<+S> = Ok(state: S) | Failed(fault: Fault)

  // The conversion from UTF-8; None when it throws.
  type Decoder = string -> Option<seq<nat>>

  // What the terminal asks of its screen.
  datatype Screen = Screen(columns: int, rows: int)

  // The colours to write with; index is the foreground's place in the palette.
  datatype Pen = Pen(foreground: Color, background: Color, light: bool, swapped: bool, index: int)

  datatype State = State(
    data: Grid,
    line: int,
    col: int,
    buffer: string,
    pen: Pen,
    wrapCount: int,
    due: bool)        // lines_added: the wrapped lines are to be counted at the end of the text

  const ESC := '\U{1B}'

  const DEFAULT_PEN := Pen(Palette(7, true), Palette(0, false), true, false, 0)

  const FRESH := State([[]], 0, 0, "", DEFAULT_PEN, 0, false)

  predicate IsHigh(c: char) {
    c as int >= 128
  }

  predicate IsAlpha(c: char) {
    'a' <= c <= 'z' || 'A' <= c <= 'Z'
  }

  predicate IsInt(v: int) {
    -0x8000_0000 <= v < 0x8000_0000
  }

  // ----- writing -----

  function AddLetter(st: State, letter: nat): Result<State> {
    if st.line < 0 || st.line > |st.data| then Ok(st)
    else if st.line == |st.data| || st.col < 0 then Failed(Undefined)
    else
      var row := Put(st.data[st.line], st.col,
                     Plain(letter, st.pen.foreground, st.pen.background),
                     Plain(SPACE, st.pen.foreground, st.pen.background));
      Ok(st.(data := st.data[st.line := row], col := st.col + 1))
  }

  function AddLetters(st: State, letters: seq<nat>): Result<State>
    decreases |letters|
  {
    if letters == [] then Ok(st)
    else
      match AddLetters(st, letters[..|letters| - 1])
      case Ok(s) => AddLetter(s, letters[|letters| - 1])
      case Failed(f) => Failed(f)
  }

  // Blanks at columns start up to but not including end; the column is left where the last one put it.
  function Blank(st: State, start: int, end: int): Result<State>
    decreases end - start
  {
    if start >= end then Ok(st)
    else
      match Blank(st, start, end - 1)
      case Ok(s) => AddLetter(s.(col := end - 1), SPACE)
      case Failed(f) => Failed(f)
  }

  function Reset(pen: Pen, kind: int): Pen {
    var pen := if kind == 1 || kind == 3 then pen.(foreground := Palette(7, true), index := 0, light := true) else pen;
    var pen := if kind == 2 || kind == 3 then pen.(background := Palette(0, false)) else pen;
    if kind == 3 then pen.(swapped := false) else pen
  }

  // ----- select graphic rendition -----

  datatype Next = Continue(pen: Pen) | Break(pen: Pen) | Stop(fault: Fault)

  // C++'s remainder, which has the sign of its left operand.
  function Units(value: int): int {
    if value >= 0 then value % 10 else -((-value) % 10)
  }

  function Swap(pen: Pen): Pen {
    pen.(foreground := pen.background, background := pen.foreground)
  }

  function SetForeground(pen: Pen, color: int): Next {
    if color == 9 then Continue(Reset(pen, 1))
    else if color == 8 then Break(pen)
    else if 0 <= color < 8 then
      Continue(pen.(foreground := Palette(color, pen.light), index := color))
    else Stop(Undefined)
  }

  function SetBackground(pen: Pen, color: int): Next {
    if color == 9 then Continue(Reset(pen, 2))
    else if color == 8 then Break(pen)
    else if 0 <= color < 8 then Continue(pen.(background := Palette(color, false)))
    else Stop(Undefined)
  }

  function Select(pen: Pen, value: int): Next {
    var color := Units(value);
    var tens := value - color;
    var group := if pen.swapped && tens == 30 then 40 else if pen.swapped && tens == 40 then 30 else tens;
    if group == 0 then
      (if color == 1 then SetForeground(pen.(light := true), pen.index)
       else if color == 2 then SetForeground(pen.(light := false), pen.index)
       else if color == 7 then Continue(Swap(pen).(swapped := true))
       else if color == 0 then Continue(Reset(pen, 3))
       else Continue(pen))
    else if group == 20 then Continue(if color == 7 then Swap(pen).(swapped := false) else pen)
    else if group == 30 then SetForeground(pen, color)
    else if group == 40 then SetBackground(pen, color)
    else if group == 90 then
      (if 0 <= color < 8 then Continue(pen.(foreground := Palette(color, true))) else Stop(Undefined))
    else if group == 100 then
      (if 0 <= color < 8 then Continue(pen.(background := Palette(color, true))) else Stop(Undefined))
    else Continue(pen)
  }

  // std::stoi: the value and how much of the text it used, or an exception.
  function Stoi(s: string): (p: Parse)
    ensures p.Number? ==> 0 < p.used <= |s| && IsInt(p.value)
  {
    var p := ParseInt(s);
    if p.Number? && IsInt(p.value) then p else NoNumber
  }

  // How a parameter is read; std::stoi in the source.
  type Reader = string -> Parse

  // The parameter of an `m` sequence at position i: zero when the text is the `m` alone.
  function Param(read: Reader, text: string, i: nat): Parse
    requires i < |text|
  {
    if |text| > 1 then read(text[i..]) else Number(0, 0)
  }

  // The parameters from position i on, up to one that is no number; text ends in the `m`.
  function Params(read: Reader, text: string, i: nat): seq<Parse>
    decreases |text| - i
  {
    if i >= |text| then []
    else
      var p := Param(read, text, i);
      [p] + if p.NoNumber? then [] else Params(read, text, i + p.used + 1)
  }

  lemma NextParam(read: Reader, text: string, i: nat)
    requires i < |text|
    ensures
      var p := Param(read, text, i);
      && |Params(read, text, i)| >= 1
      && Params(read, text, i)[0] == p
      && Params(read, text, i)[1..] == if p.NoNumber? then [] else Params(read, text, i + p.used + 1)
  {
  }

  // The parameters in order, up to one that ends the sequence or throws.
  function SelectAll(pen: Pen, params: seq<Parse>): Result<Pen>
    decreases |params|
  {
    if params == [] then Ok(pen)
    else if params[0].NoNumber? then Failed(Throws)
    else
      match Select(pen, params[0].value)
      case Continue(p) => SelectAll(p, params[1..])
      case Break(p) => Ok(p)
      case Stop(f) => Failed(f)
  }

  // ----- commands -----

  // std::atoi, undefined out of range.
  function Atoi(s: string): Option<int> {
    match ParseInt(s)
    case NoNumber => Some(0)
    case Number(v, _) => if IsInt(v) then Some(v) else None
  }

  // The count of a cursor command: one unless given.
  function Count(cmd: string): Parse
    requires cmd != ""
  {
    if |cmd| > 2 then Stoi(cmd[1..]) else Number(1, 0)
  }

  function Find(s: string, c: char): (i: nat)
    ensures i <= |s| && (i < |s| ==> s[i] == c)
    ensures forall j :: 0 <= j < i ==> s[j] != c
  {
    if s == "" || s[0] == c then 0 else 1 + Find(s[1..], c)
  }

  // The line and column `H` names, counted from one; None where the source goes out of bounds.
  function CursorTarget(cmd: string): Option<(int, int)>
    requires cmd != ""
  {
    var offset := Find(cmd, ';');
    if offset == |cmd| || offset == 0 then None
    else
      var l, c := Atoi(cmd[1..]), Atoi(cmd[1 + offset..]);
      if l.None? || c.None? then None else Some((l.value, c.value))
  }

  function CursorTo(st: State, target: Option<(int, int)>): Result<State> {
    match target
    case None => Failed(Undefined)
    case Some((l, c)) => Ok(st.(line := if l == 0 then 0 else l - 1, col := if c == 0 then 0 else c - 1))
  }

  // Which columns `K` blanks.
  function EraseSpan(st: State, cmd: string, screen: Screen): Option<(int, int)>
    requires cmd != ""
  {
    var value := Atoi(cmd[1..]);
    if value == Some(0) then Some((st.col, screen.columns))
    else if value == Some(1) then Some((0, st.col))
    else if value == Some(2) then Some((0, screen.columns))
    else None
  }

  function Erase(st: State, cmd: string, screen: Screen): Result<State>
    requires cmd != ""
  {
    var span := EraseSpan(st, cmd, screen);
    if span.None? then Failed(Undefined)
    else
      var r := Blank(st, span.value.0, span.value.1);
      if r.Ok? then Ok(r.state.(col := st.col)) else r
  }

  // The lowest line `A` goes up to; the row count is compared as an unsigned number.
  function TopLine(lines: nat, rows: int): int {
    if 0 <= rows < lines then lines - rows else 0
  }

  function BottomLine(lines: nat, rows: int): int {
    if 0 <= rows < lines then lines else rows
  }

  function Least(a: int, b: int): int {
    if a > b then b else a
  }

  function Greatest(a: int, b: int): int {
    if a < b then b else a
  }

  function Move(st: State, last: char, v: int, screen: Screen): State {
    if last == 'D' then st.(col := Greatest(st.col - v, 0))
    else if last == 'C' then st.(col := Least(st.col + v, screen.columns))
    else if last == 'A' then st.(line := Greatest(st.line - v, TopLine(|st.data|, screen.rows)))
    else st.(line := Least(st.line + v, BottomLine(|st.data|, screen.rows)))
  }

  predicate IsMove(c: char) {
    c == 'D' || c == 'C' || c == 'A' || c == 'B'
  }

  // parse_buffer, once the ESC has been taken off the buffer.
  function Obey(st: State, screen: Screen): Result<State>
    requires st.buffer != ""
  {
    var cmd := st.buffer;
    var last := cmd[|cmd| - 1];
    if cmd[0] != '[' || cmd == "[?2004h" || cmd == "[?2004l" then Ok(st)
    else if last == 'H' then CursorTo(st, CursorTarget(cmd))
    else if last == 'J' then Ok(st.(data := [[]], wrapCount := LineCount([[]], screen.columns)))
    else if last == 'm' then
      match SelectAll(st.pen, Params(Stoi, cmd[1..], 0))
      case Ok(pen) => Ok(st.(buffer := cmd[1..], pen := pen))
      case Failed(f) => Failed(f)
    else if last == 'K' then Erase(st, cmd, screen)
    else if IsMove(last) then
      var p := Count(cmd);
      if p.NoNumber? then Failed(Throws) else Ok(Move(st, last, p.value, screen))
    else Ok(st)
  }

  // ----- bytes -----

  predicate InCommand(buffer: string) {
    buffer != "" && buffer[0] == ESC
  }

  function Backspace(st: State, screen: Screen): Result<State> {
    if st.line < 0 || st.line >= |st.data| then Failed(Undefined)
    else if st.col <= 0 then Ok(st)
    else if screen.columns == 0 then Failed(Undefined)
    else
      var row := st.data[st.line];
      var row' :=
        if st.col == |row| then row[..|row| - 1]
        else if st.col < |row| then row[st.col := row[st.col].(letter := SPACE)]
        else row;
      Ok(st.(data := st.data[st.line := row'], col := st.col - 1,
             due := st.due || (st.col - 1) % screen.columns == 0))
  }

  function Newline(st: State): State {
    if st.line + 1 == |st.data| then st.(line := st.line + 1, data := st.data + [[]], due := true)
    else st.(line := st.line + 1)
  }

  function Print(st: State, decode: Decoder): Result<State> {
    match decode(st.buffer)
    case None => Failed(Throws)
    case Some(letters) =>
      match AddLetters(st, letters)
      case Ok(s) => Ok(s.(buffer := ""))
      case Failed(f) => Failed(f)
  }

  function Step(st: State, c: char, screen: Screen, decode: Decoder): Result<State> {
    if InCommand(st.buffer) then
      if IsAlpha(c) then
        match Obey(st.(buffer := st.buffer[1..] + [c]), screen)
        case Ok(s) => Ok(s.(buffer := ""))
        case Failed(f) => Failed(f)
      else Ok(st.(buffer := st.buffer + [c]))
    else if IsHigh(c) || c == ESC then Ok(st.(buffer := st.buffer + [c]))
    else if c == '\n' then Ok(Newline(st))
    else if c == '\r' then Ok(st.(col := 0))
    else if c == '\U{8}' then Backspace(st, screen)
    else if c == '\U{7}' then Ok(st)
    else Print(st.(buffer := st.buffer + [c]), decode)
  }

  function Feed(st: State, input: string, screen: Screen, decode: Decoder): Result<State>
    decreases |input|
  {
    if input == "" then Ok(st)
    else
      match Feed(st, input[..|input| - 1], screen, decode)
      case Ok(s) => Step(s, input[|input| - 1], screen, decode)
      case Failed(f) => Failed(f)
  }

  function AddText(st: State, text: string, screen: Screen, decode: Decoder): Result<State> {
    match Feed(st.(due := false), Input(text), screen, decode)
    case Ok(s) => Ok(if s.due then s.(wrapCount := LineCount(s.data, screen.columns)) else s)
    case Failed(f) => Failed(f)
  }
}
