/**
  What an `m` sequence does to the pen, read off its parameters: each part of the pen is told by the
  last parameter that speaks of it.
*/
module LinuxPen {
  import opened Decimal
  import opened Terminal
  import opened LinuxTerminal
  import opened LinuxTheorems

  // The parameters up to the first 38 or 48, at which the loop is left.
  function Heeded(values: seq<int>): seq<int> {
    if values == [] || values[0] == 38 || values[0] == 48 then [] else [values[0]] + Heeded(values[1..])
  }

  // Reversed video: on after 7, off after 27 or 0.
  function Swapped(pen: Pen, values: seq<int>): bool {
    if values == [] then pen.swapped
    else
      var v := values[|values| - 1];
      if v == 7 then true else if v == 27 || v == 0 then false else Swapped(pen, values[..|values| - 1])
  }

  // Under reversed video the thirties speak of the background and the forties of the foreground.
  function ForegroundBase(pen: Pen, before: seq<int>): int {
    if Swapped(pen, before) then 40 else 30
  }

  function BackgroundBase(pen: Pen, before: seq<int>): int {
    if Swapped(pen, before) then 30 else 40
  }

  // Bright colours: on after 1, 0 or a default foreground, off after 2.
  function Light(pen: Pen, values: seq<int>): bool {
    if values == [] then pen.light
    else
      var before, v := values[..|values| - 1], values[|values| - 1];
      if v == 1 || v == 0 || v == ForegroundBase(pen, before) + 9 then true
      else if v == 2 then false
      else Light(pen, before)
  }

  // The last of the eight colours chosen for the foreground; a reset chooses the first.
  function Chosen(pen: Pen, values: seq<int>): int {
    if values == [] then pen.index
    else
      var before, v := values[..|values| - 1], values[|values| - 1];
      var base := ForegroundBase(pen, before);
      if v == 0 || v == base + 9 then 0
      else if base <= v < base + 8 then v - base
      else Chosen(pen, before)
  }

  function Foreground(pen: Pen, values: seq<int>): Color
    decreases |values|
  {
    if values == [] then pen.foreground
    else
      var before, v := values[..|values| - 1], values[|values| - 1];
      var base := ForegroundBase(pen, before);
      if v == 7 || v == 27 then Background(pen, before)
      else if v == 0 || v == base + 9 then Palette(7, true)
      else if v == 1 || v == 2 then Palette(Chosen(pen, before), v == 1)
      else if base <= v < base + 8 then Palette(v - base, Light(pen, before))
      else if 90 <= v < 98 then Palette(v - 90, true)
      else Foreground(pen, before)
  }

  function Background(pen: Pen, values: seq<int>): Color
    decreases |values|
  {
    if values == [] then pen.background
    else
      var before, v := values[..|values| - 1], values[|values| - 1];
      var base := BackgroundBase(pen, before);
      if v == 7 || v == 27 then Foreground(pen, before)
      else if v == 0 || v == base + 9 then Palette(0, false)
      else if base <= v < base + 8 then Palette(v - base, false)
      else if 100 <= v < 108 then Palette(v - 100, true)
      else Background(pen, before)
  }

  // The pen told by the values.
  ghost predicate Told(pen: Pen, values: seq<int>, p: Pen) {
    && p.foreground == Foreground(pen, values)
    && p.background == Background(pen, values)
    && p.light == Light(pen, values)
    && p.swapped == Swapped(pen, values)
    && p.index == Chosen(pen, values)
  }

  // What one parameter makes of each part of the pen.
  lemma SelectIs(p: Pen, v: int)
    requires 0 <= p.index < 8 && !EndsSelection(v) && !OffPalette(v)
    ensures Select(p, v).Continue?
    ensures
      var p', ink, paper := Select(p, v).pen, if p.swapped then 40 else 30, if p.swapped then 30 else 40;
      && p'.swapped == (if v == 7 then true else if v == 27 || v == 0 then false else p.swapped)
      && p'.light == (if v == 1 || v == 0 || v == ink + 9 then true else if v == 2 then false else p.light)
      && p'.index == (if v == 0 || v == ink + 9 then 0 else if ink <= v < ink + 8 then v - ink else p.index)
      && p'.foreground == (
        if v == 7 || v == 27 then p.background
        else if v == 0 || v == ink + 9 then Palette(7, true)
        else if v == 1 || v == 2 then Palette(p.index, v == 1)
        else if ink <= v < ink + 8 then Palette(v - ink, p.light)
        else if 90 <= v < 98 then Palette(v - 90, true)
        else p.foreground)
      && p'.background == (
        if v == 7 || v == 27 then p.foreground
        else if v == 0 || v == paper + 9 then Palette(0, false)
        else if paper <= v < paper + 8 then Palette(v - paper, false)
        else if 100 <= v < 108 then Palette(v - 100, true)
        else p.background)
  {
    SelectIsSafeIff(p, v);
  }

  lemma SelectEnds(p: Pen, v: int)
    requires 0 <= p.index < 8
    ensures Select(p, v).Continue? <==> !EndsSelection(v) && !OffPalette(v)
    ensures EndsSelection(v) ==> Select(p, v) == Break(p)
    ensures OffPalette(v) ==> Select(p, v) == Stop(Undefined)
    ensures Select(p, v).Continue? ==> 0 <= Select(p, v).pen.index < 8
  {
  }

  lemma SelectTells(pen: Pen, before: seq<int>, p: Pen, v: int)
    requires Told(pen, before, p) && 0 <= p.index < 8 && !EndsSelection(v) && !OffPalette(v)
    ensures Select(p, v).Continue?
    ensures Told(pen, before + [v], Select(p, v).pen)
  {
    hide Select;
    assert (before + [v])[..|before|] == before;
    SelectIs(p, v);
  }

  predicate AreNumbers(params: seq<Parse>, values: seq<int>) {
    |params| == |values| && forall k :: 0 <= k < |values| ==> params[k].Number? && params[k].value == values[k]
  }

  lemma NumbersRest(params: seq<Parse>, values: seq<int>)
    requires AreNumbers(params, values) && values != []
    ensures params[0].Number? && params[0].value == values[0] && AreNumbers(params[1..], values[1..])
  {
  }

  lemma {:induction false} SelectAllTells(pen: Pen, before: seq<int>, p: Pen, params: seq<Parse>, values: seq<int>)
    requires AreNumbers(params, values) && SafeParams(params)
    requires Told(pen, before, p) && 0 <= p.index < 8
    ensures
      var r := SelectAll(p, params);
      r.Ok? && 0 <= r.state.index < 8 && Told(pen, before + Heeded(values), r.state)
    decreases |params|
  {
    hide Told, Select;
    if values == [] {
      assert before + [] == before;
    } else {
      var v := values[0];
      NumbersRest(params, values);
      SelectEnds(p, v);
      if EndsSelection(v) {
        assert before + [] == before;
      } else {
        SelectTells(pen, before, p, v);
        SelectAllTells(pen, before + [v], Select(p, v).pen, params[1..], values[1..]);
        assert before + ([v] + Heeded(values[1..])) == (before + [v]) + Heeded(values[1..]);
      }
    }
  }

  /**
    The pen after every parameter list that is safe, and the fault of every other: each part is told by
    the last parameter that speaks of it, up to the first 38 or 48.
  */
  lemma PenIsLastTold(pen: Pen, params: seq<Parse>, values: seq<int>)
    requires AreNumbers(params, values) && 0 <= pen.index < 8
    ensures
      SelectAll(pen, params) ==
        if SafeParams(params) then
          var heeded := Heeded(values);
          Ok(Pen(Foreground(pen, heeded), Background(pen, heeded),
                 Light(pen, heeded), Swapped(pen, heeded), Chosen(pen, heeded)))
        else Failed(Undefined)
  {
    if SafeParams(params) {
      SelectAllTells(pen, [], pen, params, values);
      assert [] + Heeded(values) == Heeded(values);
    } else {
      UnsafeFails(pen, params, values);
    }
  }

  lemma {:induction false} UnsafeFails(pen: Pen, params: seq<Parse>, values: seq<int>)
    requires AreNumbers(params, values) && 0 <= pen.index < 8 && !SafeParams(params)
    ensures SelectAll(pen, params) == Failed(Undefined)
    decreases |params|
  {
    hide Select;
    NumbersRest(params, values);
    SelectEnds(pen, values[0]);
    if Select(pen, values[0]).Continue? {
      UnsafeFails(Select(pen, values[0]).pen, params[1..], values[1..]);
    }
  }
}
