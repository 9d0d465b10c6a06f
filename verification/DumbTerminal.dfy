/**
  The dumb terminal.  `add_text` is proved against a byte-by-byte specification, and that against a
  description of the grid that keeps no grid: where each byte of the stream is written.
*/
module DumbTerminal {
  import opened Terminal

  const GREEN := Rgb(85, 255, 85)
  const BLACK := Rgb(0, 0, 0)

  // A char of the stream is one byte; (char32_t) of a signed char extends its sign.
  function Letter(c: char): nat {
    if c as int < 128 then c as int else 0xFFFFFF00 + c as int
  }

  function Glyph(letter: nat): Symbol {
    Plain(letter, GREEN, BLACK)
  }

  datatype State = State(data: Grid, line: nat, col: nat)

  const FRESH := State([[]], 0, 0)

  predicate Bounded(st: State) {
    st.line < |st.data|
  }

  function Step(st: State, c: char): State
    requires Bounded(st)
  {
    match c
    case '\n' => State(st.data + [[]], st.line + 1, st.col)
    case '\r' => st.(col := 0)
    case '\U{8}' => if st.col > 0 then st.(col := st.col - 1) else st
    case '\U{7}' => st
    case _ =>
      State(st.data[st.line := Put(st.data[st.line], st.col, Glyph(Letter(c)), Glyph(SPACE))], st.line, st.col + 1)
  }

  function Feed(st: State, input: string): (r: State)
    requires Bounded(st)
    ensures Bounded(r)
    decreases |input|
  {
    if input == "" then st else Step(Feed(st, input[..|input| - 1]), input[|input| - 1])
  }

  // A backspace that finds the cursor past column 0 takes a remainder by the column count.
  predicate DividesAt(st: State, c: char) {
    c == '\U{8}' && st.col > 0
  }

  // Whether a byte asks for the wrapped lines to be counted again.
  predicate RecountsAt(st: State, c: char, columns: int)
    requires columns == 0 ==> !DividesAt(st, c)
  {
    c == '\n' || (DividesAt(st, c) && (st.col - 1) % columns == 0)
  }

  // Whether some byte of the input does so.
  predicate Divides(st: State, input: string)
    requires Bounded(st)
    decreases |input|
  {
    input != "" &&
    var n := |input| - 1;
    Divides(st, input[..n]) || DividesAt(Feed(st, input[..n]), input[n])
  }

  predicate Recounts(st: State, input: string, columns: int)
    requires Bounded(st) && (columns == 0 ==> !Divides(st, input))
    decreases |input|
  {
    input != "" &&
    var n := |input| - 1;
    Recounts(st, input[..n], columns) || RecountsAt(Feed(st, input[..n]), input[n], columns)
  }

  class Dumb {
    var data: Grid
    var currentChar: int
    var currentLine: int
    var lineWrapCount: int

    ghost predicate Valid()
      reads this
    {
      0 <= currentLine < |data| && 0 <= currentChar
    }

    ghost function View(): State
      requires Valid()
      reads this
    {
      State(data, currentLine, currentChar)
    }

    constructor ()
      ensures Valid() && View() == FRESH
    {
      data, currentChar, currentLine, lineWrapCount := [[]], 0, 0, 0;
    }

    // The last branch of add_text: a byte that is shown.
    method AddLetter(letter: char)
      requires Valid()
      modifies this`data, this`currentChar
      ensures Valid()
      ensures currentChar == old(currentChar) + 1
      ensures data == old(data)[currentLine :=
                Put(old(data)[currentLine], old(currentChar), Glyph(Letter(letter)), Glyph(SPACE))]
    {
      var line := data[currentLine];
      if currentChar == |line| {
        line := line + [Glyph(Letter(letter))];
      } else if currentChar < |line| {
        line := line[currentChar := Glyph(Letter(letter))];
      } else if currentChar > |line| {
        while |line| != currentChar
          invariant |data[currentLine]| <= |line| <= currentChar
          invariant forall c :: 0 <= c < |line| ==>
            line[c] == if c < |data[currentLine]| then data[currentLine][c] else Glyph(SPACE)
          decreases currentChar - |line|
        {
          line := line + [Glyph(SPACE)];
        }
        line := line + [Glyph(Letter(letter))];
      }
      assert line == Put(data[currentLine], currentChar, Glyph(Letter(letter)), Glyph(SPACE));
      data := data[currentLine := line];
      currentChar := currentChar + 1;
    }

    // One turn of add_text's loop.
    method Take(letter: char, columns: int, due: bool) returns (undefined: bool, linesAdded: bool)
      requires Valid()
      modifies this`data, this`currentLine, this`currentChar
      ensures Valid()
      ensures undefined <==> columns == 0 && DividesAt(old(View()), letter)
      ensures !undefined ==> View() == Step(old(View()), letter)
      ensures !undefined ==> (linesAdded <==> due || RecountsAt(old(View()), letter, columns))
    {
      undefined, linesAdded := false, due;
      if letter == '\n' {
        data := data + [[]];
        linesAdded := true;
        currentLine := currentLine + 1;
      } else if letter == '\r' {
        currentChar := 0;
      } else if letter == '\U{8}' {
        if currentChar > 0 {
          currentChar := currentChar - 1;
          if columns == 0 {
            return true, due;
          }
          if currentChar % columns == 0 {
            linesAdded := true;
          }
        }
      } else if letter == '\U{7}' {
        // beep
      } else {
        AddLetter(letter);
      }
    }

    /**
      The remainder by the column count is taken only at a backspace past column 0, so a text is
      undefined exactly if it has one and the screen has no columns.
    */
    method AddText(text: string, columns: int) returns (undefined: bool)
      requires Valid()
      modifies this
      ensures Valid()
      ensures undefined <==> columns == 0 && Divides(old(View()), Input(text))
      ensures !undefined ==> View() == Feed(old(View()), Input(text))
      ensures !undefined ==>
        lineWrapCount
        == if Recounts(old(View()), Input(text), columns) then LineCount(data, columns) else old(lineWrapCount)
    {
      undefined := false;
      var input := Input(text);
      ghost var start := View();
      var linesAdded := false;
      for i := 0 to |input|
        invariant Valid() && View() == Feed(start, input[..i])
        invariant columns == 0 ==> !Divides(start, input[..i])
        invariant lineWrapCount == old(lineWrapCount)
        invariant linesAdded <==> Recounts(start, input[..i], columns)
      {
        assert input[..i + 1][..i] == input[..i];
        undefined, linesAdded := Take(input[i], columns, linesAdded);
        if undefined {
          StaysDivided(start, input[..i + 1], input);
          return;
        }
      }
      assert input[..|input|] == input;
      if linesAdded {
        lineWrapCount := LineRecount(data, columns);
      }
    }
  }

  lemma {:induction false} StaysDivided(st: State, some: string, all: string)
    requires Bounded(st) && some <= all && Divides(st, some)
    ensures Divides(st, all)
    decreases |all|
  {
    if |some| < |all| {
      StaysDivided(st, some, all[..|all| - 1]);
    } else {
      assert some == all;
    }
  }

  // ----- how the stream is split does not matter -----

  lemma {:induction false} FeedConcat(st: State, a: string, b: string)
    requires Bounded(st)
    ensures Feed(st, a + b) == Feed(Feed(st, a), b)
    decreases |b|
  {
    if b == "" {
      assert a + b == a;
    } else {
      var n := |b| - 1;
      assert (a + b)[..|a + b| - 1] == a + b[..n];
      FeedConcat(st, a, b[..n]);
    }
  }

  /**
    Two calls leave the grid one call with both texts would, if the first text has no NUL.
  */
  lemma SplitText(st: State, a: string, b: string)
    requires Bounded(st)
    requires forall i :: 0 <= i < |a| ==> a[i] != '\0'
    ensures Feed(Feed(st, Input(a)), Input(b)) == Feed(st, Input(a + b))
  {
    InputOfSplit(a, b);
    InputOfSplit(a, "");
    assert a + "" == a;
    FeedConcat(st, a, Input(b));
  }

  // ----- the grid described by the stream alone -----

  datatype Write = Write(row: nat, col: nat, letter: nat)

  // A byte as a signed char taken to 32 bits.
  function Extended(c: char): nat {
    if c as int >= 128 then 0x1_0000_0000 - 256 + c as int else c as int
  }

  // Every cell is plain green on black.
  predicate Shows(s: Symbol, letter: nat) {
    s == Symbol(letter, Rgb(85, 255, 85), Rgb(0, 0, 0), false, false, false)
  }

  predicate Shown(c: char) {
    c !in ['\n', '\r', '\U{8}', '\U{7}']
  }

  function Newlines(input: string): nat {
    if input == "" then 0
    else Newlines(input[..|input| - 1]) + (if input[|input| - 1] == '\n' then 1 else 0)
  }

  // The column after the stream: back to 0 at a return, back one at a backspace.
  function Column(input: string): nat {
    if input == "" then 0
    else
      var col := Column(input[..|input| - 1]);
      match input[|input| - 1]
      case '\n' => col
      case '\r' => 0
      case '\U{8}' => if col > 0 then col - 1 else 0
      case '\U{7}' => col
      case _ => col + 1
  }

  function Writes(input: string): seq<Write> {
    if input == "" then []
    else
      var before, c := input[..|input| - 1], input[|input| - 1];
      Writes(before) + (if Shown(c) then [Write(Newlines(before), Column(before), Extended(c))] else [])
  }

  // One more than the greatest column written in a row.
  function Extent(writes: seq<Write>, row: nat): nat {
    if writes == [] then 0
    else
      var n, w := Extent(writes[..|writes| - 1], row), writes[|writes| - 1];
      if w.row == row && w.col >= n then w.col + 1 else n
  }

  // What the last write at a cell left there, or a blank.
  function CellAt(writes: seq<Write>, row: nat, col: nat): nat {
    if writes == [] then SPACE
    else
      var w := writes[|writes| - 1];
      if w.row == row && w.col == col then w.letter else CellAt(writes[..|writes| - 1], row, col)
  }

  ghost predicate Describes(input: string, st: State) {
    var writes := Writes(input);
    && |st.data| == 1 + Newlines(input)
    && st.line == Newlines(input)
    && st.col == Column(input)
    && forall r :: 0 <= r < |st.data| ==>
      && |st.data[r]| == Extent(writes, r)
      && forall c :: 0 <= c < |st.data[r]| ==> Shows(st.data[r][c], CellAt(writes, r, c))
  }

  // A cell beyond a row's extent has never been written.
  lemma {:induction false} BeyondExtent(writes: seq<Write>, row: nat, col: nat)
    requires col >= Extent(writes, row)
    ensures CellAt(writes, row, col) == SPACE
  {
    if writes != [] {
      BeyondExtent(writes[..|writes| - 1], row, col);
    }
  }

  lemma {:induction false} NoWritesBelow(input: string, row: nat)
    requires row > Newlines(input)
    ensures Extent(Writes(input), row) == 0
  {
    if input != "" {
      var before, c := input[..|input| - 1], input[|input| - 1];
      NoWritesBelow(before, row);
      if Shown(c) {
        assert Writes(input)[..|Writes(before)|] == Writes(before);
      } else {
        assert Writes(input) == Writes(before);
      }
    }
  }

  // One more write changes one row.
  lemma WriteDescribes(writes: seq<Write>, w: Write, row: nat, symbols: seq<Symbol>)
    requires |symbols| == Extent(writes, row)
    requires forall k :: 0 <= k < |symbols| ==> symbols[k] == Glyph(CellAt(writes, row, k))
    ensures
      var written := if w.row == row then Put(symbols, w.col, Glyph(w.letter), Glyph(SPACE)) else symbols;
      && |written| == Extent(writes + [w], row)
      && forall k :: 0 <= k < |written| ==> written[k] == Glyph(CellAt(writes + [w], row, k))
  {
    assert (writes + [w])[..|writes|] == writes;
    var written := if w.row == row then Put(symbols, w.col, Glyph(w.letter), Glyph(SPACE)) else symbols;
    forall k | 0 <= k < |written| ensures written[k] == Glyph(CellAt(writes + [w], row, k)) {
      if k >= |symbols| {
        BeyondExtent(writes, row, k);
      }
    }
  }

  lemma ShownIsWritten(before: string, c: char)
    requires Shown(c)
    ensures Writes(before + [c]) == Writes(before) + [Write(Newlines(before), Column(before), Letter(c))]
    ensures Newlines(before + [c]) == Newlines(before) && Column(before + [c]) == Column(before) + 1
  {
    assert (before + [c])[..|before|] == before;
  }

  lemma ShownDescribes(before: string, c: char, st: State)
    requires Bounded(st) && Describes(before, st) && Shown(c)
    ensures Describes(before + [c], Step(st, c))
  {
    ShownIsWritten(before, c);
    var writes, w := Writes(before), Write(st.line, st.col, Letter(c));
    var row := Put(st.data[st.line], st.col, Glyph(w.letter), Glyph(SPACE));
    var next := State(st.data[st.line := row], st.line, st.col + 1);
    forall r | 0 <= r < |next.data|
      ensures |next.data[r]| == Extent(writes + [w], r)
      ensures forall k :: 0 <= k < |next.data[r]| ==> next.data[r][k] == Glyph(CellAt(writes + [w], r, k))
    {
      WriteDescribes(writes, w, r, st.data[r]);
    }
    assert Step(st, c) == next;
  }

  /**
    For every byte stream to a new terminal: there is one row more than there are newlines, the cursor
    is in the last row, a row is as long as the furthest write in it, and every cell holds the last
    byte written there, or a blank if it was only passed over.
  */
  lemma {:induction false} GridIsWhatWasWritten(input: string)
    ensures Describes(input, Feed(FRESH, input))
    decreases |input|
  {
    if input != "" {
      var before, c := input[..|input| - 1], input[|input| - 1];
      GridIsWhatWasWritten(before);
      assert input == before + [c];
      if Shown(c) {
        ShownDescribes(before, c, Feed(FRESH, before));
      } else {
        assert Writes(input) == Writes(before);
        if c == '\n' {
          NoWritesBelow(before, Newlines(before) + 1);
        }
      }
    }
  }

  // ----- when the wrapped lines are counted, told by the stream alone -----

  // A backspace in the text, behind the bytes before it, that finds the cursor past column 0.
  predicate StepsBack(before: string, text: string, k: nat)
    requires k < |text|
  {
    text[k] == '\U{8}' && Column(before + text[..k]) > 0
  }

  // A newline, or a step back to a column that the column count divides.
  predicate AsksToRecount(before: string, text: string, columns: int, k: nat)
    requires columns != 0 && k < |text|
  {
    || text[k] == '\n'
    || (StepsBack(before, text, k) && (Column(before + text[..k]) - 1) % columns == 0)
  }

  ghost predicate SomeStepsBack(before: string, text: string) {
    exists k :: 0 <= k < |text| && StepsBack(before, text, k)
  }

  ghost predicate SomeAsks(before: string, text: string, columns: int)
    requires columns != 0
  {
    exists k :: 0 <= k < |text| && AsksToRecount(before, text, columns, k)
  }

  lemma LastStepsBack(before: string, text: string)
    requires text != ""
    ensures
      var n := |text| - 1;
      SomeStepsBack(before, text) <==> SomeStepsBack(before, text[..n]) || StepsBack(before, text, n)
  {
    var n := |text| - 1;
    forall k | 0 <= k < n
      ensures StepsBack(before, text[..n], k) == StepsBack(before, text, k)
    {
      assert text[..n][..k] == text[..k];
    }
  }

  lemma LastAsks(before: string, text: string, columns: int)
    requires text != "" && columns != 0
    ensures
      var n := |text| - 1;
      SomeAsks(before, text, columns)
      <==> SomeAsks(before, text[..n], columns) || AsksToRecount(before, text, columns, n)
  {
    var n := |text| - 1;
    forall k | 0 <= k < n
      ensures AsksToRecount(before, text[..n], columns, k) == AsksToRecount(before, text, columns, k)
    {
      assert text[..n][..k] == text[..k];
    }
  }

  lemma ColumnIs(before: string, text: string)
    ensures Feed(Feed(FRESH, before), text).col == Column(before + text)
  {
    FeedConcat(FRESH, before, text);
    GridIsWhatWasWritten(before + text);
  }

  /**
    For every stream so far and every further text: the text is undefined on a screen of zero columns
    exactly if it has a backspace past column 0, and on any other screen it has the wrapped lines counted
    exactly if it has a newline or a backspace that lands on a multiple of the column count.
  */
  lemma {:induction false} RecountsIff(before: string, text: string, columns: int)
    ensures Divides(Feed(FRESH, before), text) <==> SomeStepsBack(before, text)
    ensures columns != 0 ==> (Recounts(Feed(FRESH, before), text, columns) <==> SomeAsks(before, text, columns))
    decreases |text|
  {
    if text != "" {
      hide Feed, SomeStepsBack, SomeAsks, Column;
      RecountsIff(before, text[..|text| - 1], columns);
      ColumnIs(before, text[..|text| - 1]);
      LastStepsBack(before, text);
      if columns != 0 {
        LastAsks(before, text, columns);
      }
    }
  }
}
