/**
  Padding of a formatted field: `scoped_padder` writes spaces when it is constructed and when it is
  destroyed, or cuts the buffer back, around the text that a formatter appends in between.
*/
module Padding {

  datatype Side = Left | Right | Center

  datatype PadInfo = PadInfo(width: nat, side: Side, truncate: bool, enabled: bool)

  const NO_PAD := PadInfo(0, Left, false, false)

  // The padder's own string of spaces, and the cap handle_padspec_ puts on widths.
  const SPACES_SIZE: nat := 64
  const MAX_WIDTH: nat := 64

  function Spaces(n: nat): (s: string)
    ensures |s| == n && forall i :: 0 <= i < n ==> s[i] == ' '
  {
    seq(n, _ => ' ')
  }

  class MemoryBuf {
    var text: string

    constructor ()
      ensures text == ""
    {
      text := "";
    }

    method Append(s: string)
      modifies this
      ensures text == old(text) + s
    {
      text := text + s;
    }

    method Resize(size: nat)
      requires size <= |text|
      modifies this
      ensures text == old(text)[..size]
    {
      text := text[..size];
    }
  }

  // How many spaces go before the field and how many after it.
  function Before(pad: PadInfo, size: nat): nat {
    if pad.width <= size then 0
    else
      match pad.side
      case Left => pad.width - size
      case Center => (pad.width - size) / 2
      case Right => 0
  }

  function After(pad: PadInfo, size: nat): nat {
    if pad.width <= size then 0 else pad.width - size - Before(pad, size)
  }

  // The buffer after a field whose declared size is size and whose text is body.
  function Padded(dest: string, pad: PadInfo, size: nat, body: string): string
    requires pad.truncate ==> size <= |dest| + |body| + pad.width
  {
    if pad.truncate && size > pad.width then (dest + body)[..|dest| + |body| + pad.width - size]
    else dest + Spaces(Before(pad, size)) + body + Spaces(After(pad, size))
  }

  class ScopedPadder {
    const pad: PadInfo
    const dest: MemoryBuf
    var remaining: int

    constructor (size: nat, pad: PadInfo, dest: MemoryBuf)
      requires pad.width <= SPACES_SIZE
      modifies dest
      ensures this.pad == pad && this.dest == dest
      ensures dest.text == old(dest.text) + Spaces(Before(pad, size))
      ensures remaining == if pad.width < size then pad.width - size else After(pad, size)
    {
      this.pad := pad;
      this.dest := dest;
      remaining := pad.width - size;
      new;
      if remaining <= 0 {
        assert old(dest.text) + Spaces(0) == old(dest.text);
        return;
      }
      if pad.side == Left {
        PadIt(dest, remaining);
        remaining := 0;
      } else if pad.side == Center {
        var halfPad, reminder := remaining / 2, remaining % 2;
        PadIt(dest, halfPad);
        remaining := halfPad + reminder;
      } else {
        assert old(dest.text) + Spaces(0) == old(dest.text);
      }
    }

    // The destructor.
    method Destroy()
      requires remaining <= SPACES_SIZE
      requires remaining < 0 && pad.truncate ==> 0 <= |dest.text| + remaining
      modifies dest
      ensures dest.text
              == if remaining >= 0 then old(dest.text) + Spaces(remaining)
                 else if pad.truncate then old(dest.text)[..|old(dest.text)| + remaining]
                 else old(dest.text)
    {
      if remaining >= 0 {
        PadIt(dest, remaining);
      } else if pad.truncate {
        var newSize := |dest.text| + remaining;
        dest.Resize(newSize);
      }
    }
  }

  // A view of the first count of the padder's spaces, which must not be more than it has.
  method PadIt(dest: MemoryBuf, count: int)
    requires 0 <= count <= SPACES_SIZE
    modifies dest
    ensures dest.text == old(dest.text) + Spaces(count)
  {
    var spaces := Spaces(SPACES_SIZE);
    assert spaces[..count] == Spaces(count);
    dest.Append(spaces[..count]);
  }

  // What every padded formatter does with its text.
  method FormatField(dest: MemoryBuf, pad: PadInfo, size: nat, body: string)
    requires pad.width <= MAX_WIDTH
    requires pad.truncate ==> size <= |dest.text| + |body| + pad.width
    modifies dest
    ensures dest.text == Padded(old(dest.text), pad, size, body)
  {
    var p := new ScopedPadder(size, pad, dest);
    dest.Append(body);
    p.Destroy();
    assert old(dest.text) + Spaces(0) == old(dest.text);
    assert old(dest.text) + body + Spaces(0) == old(dest.text) + body;
  }

  /**
    A field whose declared size is its length takes max(width, length) characters, or exactly width
    when truncating; everything before it is untouched; and it is its text, at the left, the right or
    the centre with the odd space behind, or the first width characters of its text.
  */
  lemma PaddingLaw(dest: string, pad: PadInfo, body: string)
    ensures
      var r := Padded(dest, pad, |body|, body);
      var taken := |r| - |dest|;
      && dest <= r
      && taken == (if pad.truncate || |body| < pad.width then pad.width else |body|)
      && (if |body| > pad.width && pad.truncate then r[|dest|..] == body[..pad.width]
          else
            var start := match pad.side
              case Left => taken - |body|
              case Center => (taken - |body|) / 2
              case Right => 0;
            && r[|dest| + start..|dest| + start + |body|] == body
            && r[|dest|..|dest| + start] == Spaces(start)
            && r[|dest| + start + |body|..] == Spaces(taken - start - |body|))
  {
    var n, w := |body|, pad.width;
    if n > w && pad.truncate {
      assert Padded(dest, pad, n, body) == dest + body[..w];
    } else {
      assert Padded(dest, pad, n, body)
          == dest + (Spaces(Before(pad, n)) + body + Spaces(After(pad, n)));
    }
  }

  /**
    When the declared size is wrong, truncation can cut into what was there before the field: it keeps
    it exactly when the size exceeds the text by no more than the width.
  */
  lemma TruncationSparesIff(dest: string, pad: PadInfo, size: nat, body: string)
    requires pad.truncate && size <= |dest| + |body| + pad.width
    ensures dest <= Padded(dest, pad, size, body) <==> size <= |body| + pad.width
  {
    if size > pad.width {
      var kept := |dest| + |body| + pad.width - size;
      if kept >= |dest| {
        assert (dest + body)[..kept] == dest + body[..kept - |dest|];
      }
    } else {
      assert Padded(dest, pad, size, body)
          == dest + (Spaces(Before(pad, size)) + body + Spaces(After(pad, size)));
    }
  }
}
