/**
  The Linux terminal as an object that `add_text` updates in place, proved against `LinuxTerminal`.
*/
module LinuxEmulator {
  import opened Decimal
  import opened Options
  import opened Terminal
  import L = LinuxTerminal

  class Linux {
    var data: Grid
    var currentChar: int
    var currentLine: int
    var lineWrapCount: int
    var commandBuffer: string
    var foreground: Color
    var background: Color
    var light: bool
    var swaped: bool
    var foregroundIndex: int

    ghost function View(linesAdded: bool): L.State
      reads this
    {
      L.State(data, currentLine, currentChar, commandBuffer, PenView(), lineWrapCount, linesAdded)
    }

    ghost function PenView(): L.Pen
      reads this
    {
      L.Pen(foreground, background, light, swaped, foregroundIndex)
    }

    // A call that meets no fault leaves the state the specification gives; otherwise it reports it.
    ghost predicate Meets(spec: L.Result<L.State>, fault: Option<L.Fault>, linesAdded: bool)
      reads this
    {
      match spec
      case Ok(s) => fault.None? && View(linesAdded) == s
      case Failed(f) => fault == Some(f)
    }

    constructor ()
      ensures View(false) == L.FRESH
    {
      data, currentChar, currentLine, lineWrapCount, commandBuffer := [[]], 0, 0, 0, "";
      foreground, foregroundIndex, light := Palette(7, true), 0, true;
      background := Palette(0, false);
      swaped := false;
    }

    method Reset(kind: int)
      modifies this`foreground, this`foregroundIndex, this`light, this`background, this`swaped
      ensures PenView() == L.Reset(old(PenView()), kind)
    {
      if kind == 1 || kind == 3 {
        foreground := Palette(7, true);
        foregroundIndex := 0;
        light := true;
      }
      if kind == 2 || kind == 3 {
        background := Palette(0, false);
      }
      if kind == 3 {
        swaped := false;
      }
    }

    method AddLetter(letter: nat, ghost due: bool) returns (fault: Option<L.Fault>)
      modifies this`data, this`currentChar
      ensures Meets(L.AddLetter(old(View(due)), letter), fault, due)
    {
      fault := None;
      if currentLine < 0 || currentLine > |data| {
        return;
      }
      if currentLine == |data| || currentChar < 0 {
        fault := Some(L.Undefined);
        return;
      }
      var line := data[currentLine];
      var symbol := Plain(letter, foreground, background);
      var blank := Plain(SPACE, foreground, background);
      if currentChar == |line| {
        line := line + [symbol];
      } else if currentChar < |line| {
        line := line[currentChar := symbol];
      } else if currentChar > |line| {
        while |line| != currentChar
          invariant |data[currentLine]| <= |line| <= currentChar
          invariant forall c :: 0 <= c < |line| ==>
            line[c] == if c < |data[currentLine]| then data[currentLine][c] else blank
          decreases currentChar - |line|
        {
          line := line + [blank];
        }
        line := line + [symbol];
      }
      assert line == Put(data[currentLine], currentChar, symbol, blank);
      data := data[currentLine := line];
      currentChar := currentChar + 1;
    }

    // The loop of `K`.
    method Blank(start: int, end: int, ghost due: bool) returns (fault: Option<L.Fault>)
      modifies this`data, this`currentChar
      ensures Meets(L.Blank(old(View(due)), start, end), fault, due)
    {
      fault := None;
      ghost var st := View(due);
      var a := start;
      while a < end
        invariant a >= start && (start < end ==> a <= end) && (start >= end ==> a == start)
        invariant fault.None? && L.Blank(st, start, a) == L.Ok(View(due))
      {
        currentChar := a;
        fault := AddLetter(SPACE, due);
        if fault.Some? {
          BlankFails(st, start, a + 1, end);
          return;
        }
        a := a + 1;
      }
    }

    // One parameter of `m`; done tells the loop to break.
    method Select(value: int) returns (done: bool, fault: Option<L.Fault>)
      modifies this`foreground, this`foregroundIndex, this`light, this`background, this`swaped
      ensures
        match L.Select(old(PenView()), value)
        case Continue(pen) => fault.None? && !done && PenView() == pen
        case Break(pen) => fault.None? && done && PenView() == pen
        case Stop(f) => fault == Some(f)
    {
      done, fault := false, None;
      var color := L.Units(value);
      var group := value - color;
      if swaped {
        if group == 30 {
          group := 40;
        } else if group == 40 {
          group := 30;
        }
      }
      if group == 0 {
        if color == 1 {
          light := true;
          group := 30;
          color := foregroundIndex;
        } else if color == 2 {
          light := false;
          group := 30;
          color := foregroundIndex;
        } else if color == 7 {
          foreground, background := background, foreground;
          swaped := true;
        } else if color == 0 {
          Reset(3);
        }
      }
      if group == 20 {
        if color == 7 {
          foreground, background := background, foreground;
          swaped := false;
        }
      }
      if group == 30 {
        if color == 9 {
          Reset(1);
        } else if color == 8 {
          done := true;
          return;
        } else if !(0 <= color < 8) {
          fault := Some(L.Undefined);
          return;
        } else {
          if !light {
            foreground := Palette(color, false);
          } else {
            foreground := Palette(color, true);
          }
          foregroundIndex := color;
        }
      }
      if group == 40 {
        if color == 9 {
          Reset(2);
        } else if color == 8 {
          done := true;
          return;
        } else if !(0 <= color < 8) {
          fault := Some(L.Undefined);
          return;
        } else {
          background := Palette(color, false);
        }
      }
      if group == 90 {
        if !(0 <= color < 8) {
          fault := Some(L.Undefined);
          return;
        }
        foreground := Palette(color, true);
      }
      if group == 100 {
        if !(0 <= color < 8) {
          fault := Some(L.Undefined);
          return;
        }
        background := Palette(color, true);
      }
    }

    // The branch of parse_buffer for `m`; the buffer is already without its bracket.
    method SelectAll(read: L.Reader) returns (fault: Option<L.Fault>)
      modifies this`foreground, this`foregroundIndex, this`light, this`background, this`swaped
      ensures
        match L.SelectAll(old(PenView()), L.Params(read, commandBuffer, 0))
        case Ok(pen) => fault.None? && PenView() == pen
        case Failed(f) => fault == Some(f)
    {
      fault := None;
      ghost var selected := L.SelectAll(PenView(), L.Params(read, commandBuffer, 0));
      var i := 0;
      while i < |commandBuffer|
        invariant fault.None?
        invariant L.SelectAll(PenView(), L.Params(read, commandBuffer, i)) == selected
      {
        var p := L.Param(read, commandBuffer, i);
        SelectNext(PenView(), read, commandBuffer, i);
        if p.NoNumber? {
          fault := Some(L.Throws);
          return;
        }
        var done;
        done, fault := Select(p.value);
        if fault.Some? || done {
          return;
        }
        i := i + p.used + 1;
      }
    }

    method Move(back: char, value: int, screen: L.Screen)
      requires L.IsMove(back)
      modifies this`currentLine, this`currentChar
      ensures forall due :: View(due) == L.Move(old(View(due)), back, value, screen)
    {
      if back == 'D' {
        currentChar := currentChar - value;
        if currentChar < 0 {
          currentChar := 0;
        }
      } else if back == 'C' {
        currentChar := currentChar + value;
        if currentChar > screen.columns {
          currentChar := screen.columns;
        }
      } else if back == 'A' {
        var cap := if 0 <= screen.rows < |data| then |data| - screen.rows else 0;
        currentLine := currentLine - value;
        if currentLine < cap {
          currentLine := cap;
        }
      } else if back == 'B' {
        var cap := if 0 <= screen.rows < |data| then |data| else screen.rows;
        currentLine := currentLine + value;
        if currentLine > cap {
          currentLine := cap;
        }
      }
    }

    method Erase(screen: L.Screen, ghost due: bool) returns (fault: Option<L.Fault>)
      requires commandBuffer != ""
      modifies this`data, this`currentChar
      ensures Meets(L.Erase(old(View(due)), commandBuffer, screen), fault, due)
    {
      var value := L.Atoi(commandBuffer[1..]);
      var start, end, backupChar := 0, 0, currentChar;
      if value == Some(0) {
        start, end := currentChar, screen.columns;
      } else if value == Some(1) {
        end := currentChar;
      } else if value == Some(2) {
        end := screen.columns;
      } else {
        fault := Some(L.Undefined);
        return;
      }
      fault := Blank(start, end, due);
      if fault.None? {
        currentChar := backupChar;
      }
    }

    method CursorTo(target: Option<(int, int)>, ghost due: bool) returns (fault: Option<L.Fault>)
      modifies this`currentLine, this`currentChar
      ensures Meets(L.CursorTo(old(View(due)), target), fault, due)
    {
      fault := None;
      if target.None? {
        fault := Some(L.Undefined);
        return;
      }
      currentLine := target.value.0 - 1;
      if currentLine == -1 {
        currentLine := 0;
      }
      currentChar := target.value.1 - 1;
      if currentChar == -1 {
        currentChar := 0;
      }
    }

    method ParseBuffer(screen: L.Screen, ghost due: bool) returns (fault: Option<L.Fault>)
      requires |commandBuffer| >= 2
      modifies this
      ensures Meets(L.Obey(old(View(due)).(buffer := old(commandBuffer)[1..]), screen), fault, due)
    {
      fault := None;
      commandBuffer := commandBuffer[1..];
      var back := commandBuffer[|commandBuffer| - 1];
      if commandBuffer[0] == '[' {
        if commandBuffer == "[?2004h" {
        } else if commandBuffer == "[?2004l" {
        } else if back == 'H' {
          fault := CursorTo(L.CursorTarget(commandBuffer), due);
        } else if back == 'J' {
          data := [[]];
          lineWrapCount := LineRecount(data, screen.columns);
        } else if back == 'm' {
          commandBuffer := commandBuffer[1..];
          fault := SelectAll(L.Stoi);
        } else if back == 'K' {
          fault := Erase(screen, due);
        } else if L.IsMove(back) {
          var value := 1;
          if |commandBuffer| > 2 {
            var p := L.Stoi(commandBuffer[1..]);
            if p.NoNumber? {
              fault := Some(L.Throws);
              return;
            }
            value := p.value;
          }
          Move(back, value, screen);
        }
      }
    }

    method Backspace(screen: L.Screen, due: bool) returns (fault: Option<L.Fault>, linesAdded: bool)
      modifies this`data, this`currentChar
      ensures Meets(L.Backspace(old(View(due)), screen), fault, linesAdded)
    {
      fault, linesAdded := None, due;
      if currentLine < 0 || currentLine >= |data| {
        fault := Some(L.Undefined);
        return;
      }
      if currentChar > 0 {
        if screen.columns == 0 {
          fault := Some(L.Undefined);
          return;
        }
        var line := data[currentLine];
        if currentChar == |line| {
          line := line[..|line| - 1];
        } else if currentChar < |line| {
          line := line[currentChar := line[currentChar].(letter := SPACE)];
        }
        data := data[currentLine := line];
        currentChar := currentChar - 1;
        if currentChar % screen.columns == 0 {
          linesAdded := true;
        }
      }
    }

    // The last branch of add_text: what has collected in the buffer is shown.
    method Print(decode: L.Decoder, ghost due: bool) returns (fault: Option<L.Fault>)
      modifies this`data, this`currentChar, this`commandBuffer
      ensures Meets(L.Print(old(View(due)), decode), fault, due)
    {
      fault := None;
      ghost var st := View(due);
      var letters := decode(commandBuffer);
      if letters.None? {
        fault := Some(L.Throws);
        return;
      }
      for l := 0 to |letters.value|
        invariant fault.None? && L.AddLetters(st, letters.value[..l]) == L.Ok(View(due))
      {
        ghost var done := letters.value[..l + 1];
        assert done[..l] == letters.value[..l];
        fault := AddLetter(letters.value[l], due);
        if fault.Some? {
          LettersFail(st, done, letters.value);
          return;
        }
      }
      assert letters.value[..|letters.value|] == letters.value;
      commandBuffer := "";
    }

    // One turn of add_text's loop.
    method Take(letter: char, screen: L.Screen, decode: L.Decoder, due: bool)
      returns (fault: Option<L.Fault>, linesAdded: bool)
      modifies this
      ensures Meets(L.Step(old(View(due)), letter, screen, decode), fault, linesAdded)
    {
      fault, linesAdded := None, due;
      if L.InCommand(commandBuffer) {
        assert (commandBuffer + [letter])[1..] == commandBuffer[1..] + [letter];
        commandBuffer := commandBuffer + [letter];
        if L.IsAlpha(letter) {
          fault := ParseBuffer(screen, due);
          if fault.None? {
            commandBuffer := "";
          }
        }
      } else if L.IsHigh(letter) {
        commandBuffer := commandBuffer + [letter];
      } else if letter == L.ESC {
        commandBuffer := commandBuffer + [letter];
      } else if letter == '\n' {
        currentLine := currentLine + 1;
        if currentLine == |data| {
          data := data + [[]];
          linesAdded := true;
        }
      } else if letter == '\r' {
        currentChar := 0;
      } else if letter == '\U{8}' {
        fault, linesAdded := Backspace(screen, due);
      } else if letter == '\U{7}' {
        // beep
      } else {
        commandBuffer := commandBuffer + [letter];
        fault := Print(decode, due);
      }
    }

    method AddText(text: string, screen: L.Screen, decode: L.Decoder)
      returns (fault: Option<L.Fault>, ghost linesAdded: bool)
      modifies this
      ensures Meets(L.AddText(old(View(false)), text, screen, decode), fault, linesAdded)
    {
      fault := None;
      ghost var st := View(false);
      var input := Input(text);
      var added := false;
      for i := 0 to |input|
        invariant fault.None? && L.Feed(st, input[..i], screen, decode) == L.Ok(View(added))
      {
        assert input[..i + 1][..i] == input[..i];
        fault, added := Take(input[i], screen, decode, added);
        if fault.Some? {
          linesAdded := added;
          FeedFails(st, input[..i + 1], input, screen, decode);
          return;
        }
      }
      assert input[..|input|] == input;
      linesAdded := added;
      if added {
        lineWrapCount := LineRecount(data, screen.columns);
      }
    }
  }

  // ----- a fault ends the run -----

  lemma {:induction false} BlankFails(st: L.State, start: int, stop: int, end: int)
    requires stop <= end && L.Blank(st, start, stop).Failed?
    ensures L.Blank(st, start, end) == L.Blank(st, start, stop)
    decreases end - stop
  {
    if stop < end {
      BlankFails(st, start, stop, end - 1);
    }
  }

  lemma {:induction false} LettersFail(st: L.State, some: seq<nat>, all: seq<nat>)
    requires some <= all && L.AddLetters(st, some).Failed?
    ensures L.AddLetters(st, all) == L.AddLetters(st, some)
    decreases |all|
  {
    if |some| < |all| {
      LettersFail(st, some, all[..|all| - 1]);
    } else {
      assert some == all;
    }
  }

  lemma {:induction false} FeedFails(st: L.State, some: string, all: string, screen: L.Screen, decode: L.Decoder)
    requires some <= all && L.Feed(st, some, screen, decode).Failed?
    ensures L.Feed(st, all, screen, decode) == L.Feed(st, some, screen, decode)
    decreases |all|
  {
    if |some| < |all| {
      FeedFails(st, some, all[..|all| - 1], screen, decode);
    } else {
      assert some == all;
    }
  }

  // ----- one parameter at a time -----

  lemma SelectNext(pen: L.Pen, read: L.Reader, text: string, i: nat)
    requires i < |text|
    ensures
      var p := L.Param(read, text, i);
      L.SelectAll(pen, L.Params(read, text, i))
      == if p.NoNumber? then L.Failed(L.Throws)
         else
           match L.Select(pen, p.value)
           case Continue(q) => L.SelectAll(q, L.Params(read, text, i + p.used + 1))
           case Break(q) => L.Ok(q)
           case Stop(f) => L.Failed(f)
  {
    L.NextParam(read, text, i);
    SelectFirst(pen, L.Params(read, text, i));
  }

  lemma SelectFirst(pen: L.Pen, params: seq<Parse>)
    requires params != []
    ensures
      L.SelectAll(pen, params)
      == if params[0].NoNumber? then L.Failed(L.Throws)
         else
           match L.Select(pen, params[0].value)
           case Continue(p) => L.SelectAll(p, params[1..])
           case Break(p) => L.Ok(p)
           case Stop(f) => L.Failed(f)
  {
  }
}
