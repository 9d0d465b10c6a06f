/**
  What the terminal emulators share: a ragged grid of symbols, writing one symbol at a column, and
  `line_recount`, which counts the lines the grid takes when wrapped.
*/
module Terminal {

  // A colour is given outright, or as a place in the palette of eight dim and eight bright ones.  No
  // colours are ever compared, so a place stands for the colour there.
  datatype Color = Rgb(red: nat, green: nat, blue: nat) | Palette(index: int, bright: bool)

  datatype Symbol = Symbol(
    letter: nat,
    foreground: Color,
    background: Color,
    bold: bool,
    italic: bool,
    underline: bool)

  type Grid = seq<seq<Symbol>>

  function Plain(letter: nat, foreground: Color, background: Color): Symbol {
    Symbol(letter, foreground, background, false, false, false)
  }

  const SPACE := ' ' as nat

  // A row after a write at column col: extended with blanks as far as needed.
  function Put(row: seq<Symbol>, col: nat, symbol: Symbol, blank: Symbol): (r: seq<Symbol>)
    ensures |r| == if col < |row| then |row| else col + 1
    ensures forall c :: 0 <= c < |r| ==>
      r[c] == if c == col then symbol else if c < |row| then row[c] else blank
  {
    if col < |row| then row[col := symbol] else row + seq(col - |row|, _ => blank) + [symbol]
  }

  // Text arrives as a C string, so it ends at its first NUL.
  function Input(text: string): (input: string)
    ensures input <= text && '\0' !in input
    ensures |input| < |text| ==> text[|input|] == '\0'
  {
    if text == "" || text[0] == '\0' then "" else [text[0]] + Input(text[1..])
  }

  lemma {:induction false} InputOfSplit(a: string, b: string)
    requires forall i :: 0 <= i < |a| ==> a[i] != '\0'
    ensures Input(a + b) == a + Input(b)
  {
    if a == "" {
      assert a + b == b;
    } else {
      assert (a + b)[1..] == a[1..] + b;
      InputOfSplit(a[1..], b);
    }
  }

  // ----- wrapping -----

  // How many lines a row of n symbols takes: each holds one more than the column count.
  function Lines(n: nat, columns: int): nat {
    if columns < 0 then 1 + n
    else if n == 0 then 1
    else (n + columns) / (columns + 1)
  }

  function LineCount(data: Grid, columns: int): nat {
    if data == [] then 0 else LineCount(data[..|data| - 1], columns) + Lines(|data[|data| - 1]|, columns)
  }

  lemma AtLeast(k: int, d: nat)
    requires k >= 1
    ensures k * d >= d
  {
  }

  lemma DivisionIs(a: nat, d: nat, q: nat, r: nat)
    requires r < d && a == q * d + r
    ensures a / d == q
  {
    var k := a / d - q;
    assert a == a / d * d + a % d;
    assert k * d == r - a % d;
    if k >= 1 {
      AtLeast(k, d);
    } else if k <= -1 {
      AtLeast(-k, d);
    }
  }

  lemma LinesOf(n: nat, columns: nat, wraps: nat, count: nat)
    requires n == wraps * (columns + 1) + count && 1 <= count <= columns + 1
    ensures Lines(n, columns) == wraps + 1
  {
    DivisionIs(n + columns, columns + 1, wraps + 1, count - 1);
  }

  // The inner loop: one row.
  method RowWraps(line: seq<Symbol>, columns: int) returns (wraps: nat)
    ensures 1 + wraps == Lines(|line|, columns)
  {
    wraps := 0;
    var count := 0;
    for s := 0 to |line|
      invariant columns < 0 ==> wraps == s
      invariant columns < 0 ==> count == if s == 0 then 0 else 1
      invariant columns >= 0 ==> s == wraps * (columns + 1) + count && 0 <= count <= columns + 1
      invariant columns >= 0 ==> (s > 0 ==> count >= 1)
    {
      if count > columns {
        wraps := wraps + 1;
        count := 0;
      }
      count := count + 1;
    }
    if columns >= 0 && |line| > 0 {
      LinesOf(|line|, columns, wraps, count);
    }
  }

  method LineRecount(data: Grid, columns: int) returns (lineWrapCount: nat)
    ensures lineWrapCount == LineCount(data, columns)
  {
    lineWrapCount := |data|;
    for l := 0 to |data|
      invariant lineWrapCount == LineCount(data[..l], columns) + (|data| - l)
    {
      var wraps := RowWraps(data[l], columns);
      lineWrapCount := lineWrapCount + wraps;
      assert data[..l + 1][..l] == data[..l];
    }
    assert data[..|data|] == data;
  }

  /**
    For a column count that is not negative, each line counts as the larger of one and its length
    divided by one more than the column count, rounded up.
  */
  lemma LinesIsCeiling(n: nat, columns: nat)
    ensures
      var lines := Lines(n, columns);
      && lines >= 1
      && lines * (columns + 1) >= n
      && (lines > 1 ==> (lines - 1) * (columns + 1) < n)
  {
    if n > 0 {
      var d := columns + 1;
      assert n + columns == (n + columns) / d * d + (n + columns) % d;
    }
  }
}
