/**
  The INI table: sections found or inserted by name, items found or inserted by key, and the loader
  that fills them line by line.  Sections and items are values in vectors, as in the source; the
  loader's pointer to the current section is an index.
*/
module Ini {
  import opened Decimal
  import opened Options
  import opened Split

  // An item may have no value.
  datatype Item = Item(key: string, value: Option<string>)

  datatype Section = Section(name: string, items: seq<Item>)

  // How loading ends; NullSection is an assignment through a null pointer.
  datatype Outcome = Loaded | InvalidArgument | OutOfRange | NullSection

  // ----- one line -----

  datatype Line = Blank | Header(name: string) | Assignment(key: string, value: string) | Malformed

  // Up to the first c, if there is one.
  function Before(s: string, c: char): string {
    var i := Find(s, [c], 0);
    if i == NOT_FOUND then s else s[..i]
  }

  function ParseLine(line: string): Line {
    var data := RTrim(Before(line, ';'));
    if data == "" then Blank
    else if data[0] == '[' then
      var end := Find(data, "]", 0);
      NotThere(data, ']', "]");
      if end == NOT_FOUND then Malformed else Header(data[1..end])
    else
      var eq := Find(data, "=", 0);
      if eq == NOT_FOUND then Malformed else Assignment(data[..eq], data[eq + 1..])
  }

  // The body of the loop up to what the line is for.
  method ReadLine(line: string) returns (l: Line)
    ensures l == ParseLine(line)
  {
    var comment := Split.Split(line, ";", 2);
    SplitInTwo(line, ';', ";");
    var data := comment[0];
    data := RTrim(data);
    if |data| == 0 {
      return Blank;
    }
    if data[0] == '[' {
      var end := Find(data, "]", 0);
      if end != NOT_FOUND {
        NotThere(data, ']', "]");
        return Header(data[1..end]);
      }
    } else {
      var prop := Split.Split(data, "=", 2);
      SplitInTwo(data, '=', "=");
      if |prop| == 2 {
        return Assignment(prop[0], prop[1]);
      }
    }
    return Malformed;
  }

  // A limit of two cuts the text at the first separator.
  lemma SplitInTwo(s: string, c: char, sep: string)
    requires sep == [c]
    ensures
      var i := Find(s, sep, 0);
      Pieces(s, sep, 0, Cuts(2)) == if i == NOT_FOUND then [s] else [s[..i], s[i + 1..]]
  {
  }

  // A text that starts with something else does not have c first.
  lemma NotThere(s: string, c: char, sep: string)
    requires sep == [c] && s != "" && s[0] != c
    ensures Find(s, sep, 0) != 0
  {
    AtChar(s, c, 0);
  }

  // ----- what a text does to the table -----

  datatype Event = Open(section: string) | Set(section: string, key: string, value: string)

  // The events of these lines, up to the first that throws, and how they end.
  function Events(lines: seq<string>, current: Option<string>): (seq<Event>, Outcome) {
    if lines == [] then ([], Loaded)
    else
      match ParseLine(lines[0])
      case Blank => Events(lines[1..], current)
      case Header(n) =>
        var (es, o) := Events(lines[1..], Some(n));
        ([Open(n)] + es, o)
      case Assignment(k, v) =>
        if current.None? then ([], NullSection)
        else if k == "" then ([], OutOfRange)
        else
          var (es, o) := Events(lines[1..], current);
          ([Set(current.value, k, v)] + es, o)
      case Malformed => ([], InvalidArgument)
  }

  function TextEvents(text: string): (seq<Event>, Outcome) {
    Events(Pieces(text, "\n", 0, Cuts(0)), None)
  }

  function SetItem(items: seq<Item>, key: string, value: Option<string>): seq<Item> {
    if items == [] then [Item(key, value)]
    else if items[0].key == key then [Item(key, value)] + items[1..]
    else [items[0]] + SetItem(items[1..], key, value)
  }

  // The first section of that name, or a new one at the end, is opened or has an item set.
  function Apply(sections: seq<Section>, e: Event): seq<Section> {
    if sections == [] then
      [Section(e.section, if e.Open? then [] else [Item(e.key, Some(e.value))])]
    else if sections[0].name == e.section then
      [if e.Open? then sections[0] else Section(e.section, SetItem(sections[0].items, e.key, Some(e.value)))]
      + sections[1..]
    else [sections[0]] + Apply(sections[1..], e)
  }

  function ApplyAll(sections: seq<Section>, es: seq<Event>): seq<Section>
    decreases |es|
  {
    if es == [] then sections else Apply(ApplyAll(sections, es[..|es| - 1]), es[|es| - 1])
  }

  // ----- reading the table -----

  // Where the first item of that key is; the number of items when there is none.
  function ItemIndex(items: seq<Item>, key: string): (i: nat)
    ensures i <= |items|
    ensures i < |items| ==> items[i].key == key
    ensures forall k :: 0 <= k < i ==> items[k].key != key
  {
    if items == [] || items[0].key == key then 0 else 1 + ItemIndex(items[1..], key)
  }

  // The same for sections.
  function SectionIndex(sections: seq<Section>, name: string): (i: nat)
    ensures i <= |sections|
    ensures i < |sections| ==> sections[i].name == name
    ensures forall k :: 0 <= k < i ==> sections[k].name != name
  {
    if sections == [] || sections[0].name == name then 0 else 1 + SectionIndex(sections[1..], name)
  }

  predicate Has(sections: seq<Section>, name: string) {
    SectionIndex(sections, name) < |sections|
  }

  // The value of an item, None when there is no such section or item, or it has no value.
  function ValueIn(items: seq<Item>, key: string): Option<string> {
    if items == [] then None else if items[0].key == key then items[0].value else ValueIn(items[1..], key)
  }

  function Lookup(sections: seq<Section>, name: string, key: string): Option<string> {
    if sections == [] then None
    else if sections[0].name == name then ValueIn(sections[0].items, key)
    else Lookup(sections[1..], name, key)
  }

  // ----- the class -----

  class Ini {
    var sections: seq<Section>

    constructor ()
      ensures sections == []
    {
      sections := [];
    }

    // operator[]: the first section of that name, or a new one at the end.
    method FindOrInsert(name: string) returns (i: nat)
      modifies this
      ensures i == SectionIndex(old(sections), name) < |sections|
      ensures sections == Apply(old(sections), Open(name))
      ensures sections[i].name == name
    {
      ApplyAtIndex(sections, Open(name));
      i := 0;
      while i < |sections|
        invariant i <= SectionIndex(sections, name)
      {
        if sections[i].name == name {
          return;
        }
        i := i + 1;
      }
      sections := sections + [Section(name, [])];
    }

    // section::operator[] and item::operator=: the first item of that key, or a new one at the end, is set.
    method Assign(current: nat, key: string, value: string) returns (ok: bool)
      requires current < |sections|
      modifies this
      ensures ok <==> key != ""
      ensures !ok ==> sections == old(sections)
      ensures ok ==>
        sections == old(sections)[current :=
          Section(old(sections)[current].name, SetItem(old(sections)[current].items, key, Some(value)))]
    {
      if |key| == 0 {
        return false;
      }
      var items := sections[current].items;
      SetAtIndex(items, key, Some(value));
      var i := 0;
      while i < |items|
        invariant i <= |items| && i <= ItemIndex(items, key)
      {
        if items[i].key == key {
          break;
        }
        i := i + 1;
      }
      if i == |items| {
        assert (items + [Item(key, None)])[i := Item(key, Some(value))] == items + [Item(key, Some(value))];
        items := items + [Item(key, None)];
      }
      items := items[i := Item(key, Some(value))];
      sections := sections[current := Section(sections[current].name, items)];
      return true;
    }

    // Where the loader stands after some events.
    ghost predicate Standing(before: seq<Section>, done: seq<Event>, name: Option<string>, current: int)
      reads this
    {
      && sections == ApplyAll(before, done)
      && (if name.None? then current == -1 else 0 <= current == SectionIndex(sections, name.value) < |sections|)
    }

    // The part of the loop body after the line is read.
    method LoadLine(line: Line, current: int,
                    ghost before: seq<Section>, ghost done: seq<Event>, ghost name: Option<string>)
      returns (current': int, outcome: Outcome)
      requires Standing(before, done, name, current)
      modifies this
      ensures
        var (done', name', end) := Step(line, done, name);
        outcome == end && Standing(before, done', name', current')
    {
      current' := current;
      outcome := Loaded;
      match line {
        case Blank =>
        case Header(n) =>
          AppliedNext(before, done, Open(n));
          IndexAfterOpen(sections, n);
          current' := FindOrInsert(n);
        case Assignment(key, value) =>
          if current == -1 {
            outcome := NullSection;
          } else {
            ghost var was, e := sections, Set(name.value, key, value);
            var ok := Assign(current, key, value);
            if ok {
              AppliedNext(before, done, e);
              ApplyAtIndex(was, e);
              IndexAfterSet(was, name.value, current, sections[current].items);
            } else {
              outcome := OutOfRange;
            }
          }
        case Malformed =>
          outcome := InvalidArgument;
      }
    }

    // What is loaded before a line throws stays.
    method LoadFile(text: string) returns (outcome: Outcome)
      modifies this
      ensures sections == ApplyAll(old(sections), TextEvents(text).0)
      ensures outcome == TextEvents(text).1
    {
      var lines := Split.Split(text, "\n", 0);
      var current := -1;
      ghost var before := sections;
      ghost var name: Option<string>, done: seq<Event> := None, [];
      assert lines[0..] == lines && [] + Events(lines, None).0 == Events(lines, None).0;
      for i := 0 to |lines|
        invariant Standing(before, done, name, current)
        invariant Ahead(done, lines[i..], name) == TextEvents(text)
      {
        AheadNext(done, lines, i, name);
        var line := ReadLine(lines[i]);
        current, outcome := LoadLine(line, current, before, done, name);
        ghost var (done', name', end) := Step(line, done, name);
        done, name := done', name';
        if outcome != Loaded {
          return;
        }
      }
      assert done + [] == done;
      return Loaded;
    }

    // The const operators, one after the other; None stands for out_of_range.
    method Get(name: string, key: string) returns (item: Option<Item>)
      ensures item.Some? <==>
        Has(sections, name) && ItemIndex(sections[SectionIndex(sections, name)].items, key)
                               < |sections[SectionIndex(sections, name)].items|
      ensures Lookup(sections, name, key) == if item.Some? then item.value.value else None
    {
      LookupAtIndex(sections, name, key);
      var i := 0;
      while i < |sections|
        invariant i <= SectionIndex(sections, name)
      {
        if sections[i].name == name {
          var items := sections[i].items;
          ValueAtIndex(items, key);
          var j := 0;
          while j < |items|
            invariant j <= ItemIndex(items, key)
          {
            if items[j].key == key {
              return Some(items[j]);
            }
            j := j + 1;
          }
          return None;
        }
        i := i + 1;
      }
      return None;
    }
  }

  // Events done, and those of the lines ahead.
  function Ahead(done: seq<Event>, lines: seq<string>, current: Option<string>): (seq<Event>, Outcome) {
    var (es, o) := Events(lines, current);
    (done + es, o)
  }

  // One line: the events so far, the current section, and whether loading goes on.
  function Step(line: Line, done: seq<Event>, current: Option<string>): (seq<Event>, Option<string>, Outcome) {
    match line
    case Blank => (done, current, Loaded)
    case Header(n) => (done + [Open(n)], Some(n), Loaded)
    case Assignment(k, v) =>
      if current.None? then (done, current, NullSection)
      else if k == "" then (done, current, OutOfRange)
      else (done + [Set(current.value, k, v)], current, Loaded)
    case Malformed => (done, current, InvalidArgument)
  }

  lemma AheadNext(done: seq<Event>, lines: seq<string>, i: nat, current: Option<string>)
    requires i < |lines|
    ensures
      var (done', current', end) := Step(ParseLine(lines[i]), done, current);
      Ahead(done, lines[i..], current) == if end == Loaded then Ahead(done', lines[i + 1..], current') else (done', end)
  {
    assert lines[i..][0] == lines[i] && lines[i..][1..] == lines[i + 1..];
    assert done + [] == done;
    match ParseLine(lines[i])
    case Blank =>
    case Header(n) =>
      var es := Events(lines[i + 1..], Some(n)).0;
      assert done + ([Open(n)] + es) == done + [Open(n)] + es;
    case Assignment(k, v) =>
      if current.Some? && k != "" {
        var es, e := Events(lines[i + 1..], current).0, Set(current.value, k, v);
        assert done + ([e] + es) == done + [e] + es;
      }
    case Malformed =>
  }

  lemma AppliedNext(sections: seq<Section>, done: seq<Event>, e: Event)
    ensures ApplyAll(sections, done + [e]) == Apply(ApplyAll(sections, done), e)
  {
    assert (done + [e])[..|done|] == done;
  }

  // ----- first matches -----

  lemma PutFirst<T>(s: seq<T>, x: T)
    requires s != []
    ensures s[0 := x] == [x] + s[1..]
  {
  }

  lemma PutBehind<T>(s: seq<T>, i: nat, x: T)
    requires i < |s|
    ensures
      var rest := s[1..];
      if i < |rest| then s[i + 1 := x] == [s[0]] + rest[i := x] else s + [x] == [s[0]] + (rest + [x])
  {
  }

  lemma {:induction false} SetAtIndex(items: seq<Item>, key: string, value: Option<string>)
    ensures
      var i := ItemIndex(items, key);
      SetItem(items, key, value)
      == if i < |items| then items[i := Item(key, value)] else items + [Item(key, value)]
  {
    if items != [] {
      if items[0].key == key {
        PutFirst(items, Item(key, value));
      } else {
        SetAtIndex(items[1..], key, value);
        PutBehind(items, ItemIndex(items[1..], key), Item(key, value));
      }
    }
  }

  function Touched(s: Section, e: Event): Section {
    if e.Open? then s else Section(s.name, SetItem(s.items, e.key, Some(e.value)))
  }

  function NewSection(e: Event): Section {
    Section(e.section, if e.Open? then [] else [Item(e.key, Some(e.value))])
  }

  lemma {:induction false} ApplyAtIndex(sections: seq<Section>, e: Event)
    ensures
      var i := SectionIndex(sections, e.section);
      Apply(sections, e)
      == if i < |sections| then sections[i := Touched(sections[i], e)] else sections + [NewSection(e)]
  {
    if sections != [] {
      if sections[0].name == e.section {
        PutFirst(sections, Touched(sections[0], e));
      } else {
        var rest := sections[1..];
        ApplyAtIndex(rest, e);
        var i := SectionIndex(rest, e.section);
        PutBehind(sections, i, if i < |rest| then Touched(rest[i], e) else NewSection(e));
      }
    }
  }

  lemma {:induction false} IndexIs(sections: seq<Section>, name: string, i: nat)
    requires i < |sections| && sections[i].name == name
    requires forall k :: 0 <= k < i ==> sections[k].name != name
    ensures SectionIndex(sections, name) == i
  {
  }

  lemma IndexAfterOpen(sections: seq<Section>, name: string)
    ensures
      var next := Apply(sections, Open(name));
      SectionIndex(next, name) == SectionIndex(sections, name) < |next|
  {
    ApplyAtIndex(sections, Open(name));
    IndexIs(Apply(sections, Open(name)), name, SectionIndex(sections, name));
  }

  lemma IndexAfterSet(sections: seq<Section>, name: string, i: nat, items: seq<Item>)
    requires i == SectionIndex(sections, name) < |sections|
    ensures SectionIndex(sections[i := Section(name, items)], name) == i
  {
    IndexIs(sections[i := Section(name, items)], name, i);
  }

  lemma {:induction false} ValueAtIndex(items: seq<Item>, key: string)
    ensures
      var i := ItemIndex(items, key);
      ValueIn(items, key) == if i < |items| then items[i].value else None
  {
    if items != [] && items[0].key != key {
      ValueAtIndex(items[1..], key);
    }
  }

  lemma {:induction false} LookupAtIndex(sections: seq<Section>, name: string, key: string)
    ensures
      var i := SectionIndex(sections, name);
      Lookup(sections, name, key) == if i < |sections| then ValueIn(sections[i].items, key) else None
  {
    if sections != [] && sections[0].name != name {
      LookupAtIndex(sections[1..], name, key);
    }
  }

  // ----- last write wins -----

  // The last value assigned to that key of that section.
  function LastValue(es: seq<Event>, name: string, key: string): Option<string>
    decreases |es|
  {
    if es == [] then None
    else
      var e := es[|es| - 1];
      if e.Set? && e.section == name && e.key == key then Some(e.value) else LastValue(es[..|es| - 1], name, key)
  }

  lemma {:induction false} ValueAfterSet(items: seq<Item>, key: string, value: Option<string>, k: string)
    ensures ValueIn(SetItem(items, key, value), k) == if k == key then value else ValueIn(items, k)
  {
    if items != [] && items[0].key != key {
      ValueAfterSet(items[1..], key, value, k);
    }
  }

  lemma {:induction false} LookupAfterEvent(sections: seq<Section>, e: Event, name: string, key: string)
    ensures
      Lookup(Apply(sections, e), name, key)
      == if e.Set? && e.section == name && e.key == key then Some(e.value) else Lookup(sections, name, key)
  {
    if sections != [] {
      if sections[0].name == e.section {
        if e.Set? {
          ValueAfterSet(sections[0].items, e.key, Some(e.value), key);
        }
      } else {
        LookupAfterEvent(sections[1..], e, name, key);
      }
    } else {
      var s := NewSection(e);
      assert Apply([], e) == [s];
      assert s.name == name ==> Lookup([s], name, key) == ValueIn(s.items, key);
      assert s.name != name ==> Lookup([s], name, key) == Lookup([s][1..], name, key) == None;
      if e.Set? {
        assert e.key != key ==> ValueIn(s.items, key) == ValueIn(s.items[1..], key) == None;
      }
    }
  }

  lemma {:induction false} LookupAfterAll(sections: seq<Section>, es: seq<Event>, name: string, key: string)
    ensures
      Lookup(ApplyAll(sections, es), name, key)
      == match LastValue(es, name, key) case Some(v) => Some(v) case None => Lookup(sections, name, key)
    decreases |es|
  {
    if es != [] {
      var n := |es| - 1;
      LookupAfterAll(sections, es[..n], name, key);
      LookupAfterEvent(ApplyAll(sections, es[..n]), es[n], name, key);
    }
  }

  /**
    After loading, every item has the last value that the text assigns to it, and if the text assigns
    none, the value it had before; also when a line of the text throws, for the lines before it.
  */
  lemma LastWriteWins(sections: seq<Section>, text: string, name: string, key: string)
    ensures
      var es := TextEvents(text).0;
      Lookup(ApplyAll(sections, es), name, key)
      == match LastValue(es, name, key) case Some(v) => Some(v) case None => Lookup(sections, name, key)
  {
    LookupAfterAll(sections, TextEvents(text).0, name, key);
  }

  // ----- find or insert keeps names unique -----

  predicate KeysUnique(items: seq<Item>) {
    forall i, j :: 0 <= i < j < |items| ==> items[i].key != items[j].key
  }

  predicate Unique(sections: seq<Section>) {
    && (forall i, j :: 0 <= i < j < |sections| ==> sections[i].name != sections[j].name)
    && (forall i :: 0 <= i < |sections| ==> KeysUnique(sections[i].items))
  }

  lemma SetKeepsUnique(items: seq<Item>, key: string, value: Option<string>)
    requires KeysUnique(items)
    ensures KeysUnique(SetItem(items, key, value))
  {
    SetAtIndex(items, key, value);
  }

  lemma EventKeepsUnique(sections: seq<Section>, e: Event)
    requires Unique(sections)
    ensures Unique(Apply(sections, e))
    ensures |Apply(sections, e)| >= |sections|
    ensures forall i :: 0 <= i < |sections| ==> Apply(sections, e)[i].name == sections[i].name
  {
    ApplyAtIndex(sections, e);
    var i := SectionIndex(sections, e.section);
    if i < |sections| && e.Set? {
      SetKeepsUnique(sections[i].items, e.key, Some(e.value));
    }
  }

  /**
    Loading keeps section names and item keys unique, and the sections there were keep their places.
  */
  lemma {:induction false} LoadKeepsUnique(sections: seq<Section>, es: seq<Event>)
    requires Unique(sections)
    ensures Unique(ApplyAll(sections, es))
    ensures |ApplyAll(sections, es)| >= |sections|
    ensures forall i :: 0 <= i < |sections| ==> ApplyAll(sections, es)[i].name == sections[i].name
    decreases |es|
  {
    if es != [] {
      LoadKeepsUnique(sections, es[..|es| - 1]);
      EventKeepsUnique(ApplyAll(sections, es[..|es| - 1]), es[|es| - 1]);
    }
  }

  // ----- when loading succeeds -----

  predicate Acceptable(lines: seq<string>, i: nat, inSection: bool)
    requires i < |lines|
  {
    var l := ParseLine(lines[i]);
    && !l.Malformed?
    && (l.Assignment? ==> l.key != "" && (inSection || HeaderBefore(lines, i)))
  }

  predicate AllAcceptable(lines: seq<string>, inSection: bool) {
    forall i :: 0 <= i < |lines| ==> Acceptable(lines, i, inSection)
  }

  // Whether one of the first i lines is a header.
  predicate HeaderBefore(lines: seq<string>, i: nat)
    requires i <= |lines|
  {
    exists j :: 0 <= j < i && ParseLine(lines[j]).Header?
  }

  lemma HeaderBeforeNext(lines: seq<string>, i: nat)
    requires i < |lines|
    ensures HeaderBefore(lines, i + 1) <==> ParseLine(lines[0]).Header? || HeaderBefore(lines[1..], i)
  {
    var rest := lines[1..];
    if HeaderBefore(lines, i + 1) {
      var j :| 0 <= j < i + 1 && ParseLine(lines[j]).Header?;
      assert j > 0 ==> ParseLine(rest[j - 1]).Header?;
    }
    if HeaderBefore(rest, i) {
      var j :| 0 <= j < i && ParseLine(rest[j]).Header?;
      assert ParseLine(lines[j + 1]).Header?;
    }
  }

  lemma AcceptableNext(lines: seq<string>, inSection: bool)
    requires lines != []
    ensures
      AllAcceptable(lines, inSection)
      <==> Acceptable(lines, 0, inSection) && AllAcceptable(lines[1..], inSection || ParseLine(lines[0]).Header?)
  {
    var rest, next := lines[1..], inSection || ParseLine(lines[0]).Header?;
    forall i | 0 <= i < |rest|
      ensures Acceptable(lines, i + 1, inSection) <==> Acceptable(rest, i, next)
    {
      HeaderBeforeNext(lines, i);
      assert rest[i] == lines[i + 1];
    }
    if AllAcceptable(rest, next) && Acceptable(lines, 0, inSection) {
      forall i | 0 <= i < |lines|
        ensures Acceptable(lines, i, inSection)
      {
        assert i > 0 ==> Acceptable(rest, i - 1, next);
      }
    }
  }

  lemma {:induction false} LoadsFromIff(lines: seq<string>, current: Option<string>)
    ensures Events(lines, current).1 == Loaded <==> AllAcceptable(lines, current.Some?)
  {
    if lines != [] {
      var l := ParseLine(lines[0]);
      LoadsFromIff(lines[1..], if l.Header? then Some(l.name) else current);
      AcceptableNext(lines, current.Some?);
    }
  }

  /**
    A text loads to its end exactly when no line is malformed, no key is empty, and every assignment
    has a section header on a line before it.
  */
  lemma LoadsIff(text: string)
    ensures TextEvents(text).1 == Loaded <==> AllAcceptable(Pieces(text, "\n", 0, Cuts(0)), false)
  {
    LoadsFromIff(Pieces(text, "\n", 0, Cuts(0)), None);
  }

  // ----- text that says what is to be loaded -----

  function LineOf(e: Event): string {
    match e
    case Open(n) => "[" + n + "]"
    case Set(_, k, v) => k + "=" + v
  }

  // Nothing in the event can be taken for something else.
  predicate Writable(e: Event) {
    match e
    case Open(n) => ']' !in n && ';' !in n && '\n' !in n
    case Set(_, k, v) =>
      && k != "" && k[0] != '[' && '=' !in k && ';' !in k && '\n' !in k
      && ';' !in v && '\n' !in v && (v == "" || !IsSpace(v[|v| - 1]))
  }

  // Every assignment is to the section opened last.
  predicate InOrder(es: seq<Event>, current: Option<string>) {
    es != [] ==>
      match es[0]
      case Open(n) => InOrder(es[1..], Some(n))
      case Set(s, _, _) => current == Some(s) && InOrder(es[1..], current)
  }

  function LinesOf(es: seq<Event>): (lines: seq<string>)
    ensures |lines| == |es| && forall k :: 0 <= k < |es| ==> lines[k] == LineOf(es[k])
  {
    seq(|es|, k requires 0 <= k < |es| => LineOf(es[k]))
  }

  lemma {:induction false} SpacesTrimmed(body: string, spaces: string)
    requires body == "" || !IsSpace(body[|body| - 1])
    requires forall i :: 0 <= i < |spaces| ==> IsSpace(spaces[i])
    ensures RTrim(body + spaces) == body
    decreases |spaces|
  {
    if spaces == "" {
      assert body + spaces == body;
    } else {
      var n := |spaces| - 1;
      SpacesTrimmed(body, spaces[..n]);
      assert (body + spaces)[..|body + spaces| - 1] == body + spaces[..n];
    }
  }

  lemma CommentDropped(body: string, spaces: string, comment: string)
    requires ';' !in body + spaces && (comment == "" || comment[0] == ';')
    ensures Before(body + spaces + comment, ';') == body + spaces
  {
    var line, n := body + spaces + comment, |body + spaces|;
    assert line[0..n] == body + spaces && line[..n] == body + spaces;
    FindChar(line, 0, n, ';');
  }

  // The first place of a character that is there.
  lemma FirstPlace(body: string, c: char, sep: string)
    requires sep == [c]
    ensures
      var i := Find(body, sep, 0);
      if i == NOT_FOUND then c !in body else 0 <= i < |body| && c !in body[..i] && body[i] == c
  {
    forall i | 0 <= i < |body|
      ensures At(body, sep, i) <==> body[i] == c
    {
      AtChar(body, c, i);
    }
  }

  lemma HeaderMeans(line: string, body: string)
    requires RTrim(Before(line, ';')) == body && body != "" && body[0] == '['
    ensures
      var l := ParseLine(line);
      if ']' in body then l.Header? && "[" + l.name + "]" <= body && ']' !in l.name else l == Malformed
  {
    hide RTrim, Before, Find;
    var end := Find(body, "]", 0);
    FirstPlace(body, ']', "]");
    if end != NOT_FOUND {
      assert "[" + body[1..end] + "]" == body[..end + 1];
      assert forall i :: 0 <= i < |body[1..end]| ==> body[1..end][i] == body[..end][i + 1];
    }
  }

  lemma AssignmentMeans(line: string, body: string)
    requires RTrim(Before(line, ';')) == body && body != "" && body[0] != '['
    ensures
      var l := ParseLine(line);
      if '=' in body then l.Assignment? && body == l.key + "=" + l.value && '=' !in l.key else l == Malformed
  {
    hide RTrim, Before, Find;
    FirstPlace(body, '=', "=");
  }

  /**
    What every line means.  A comment and the space before it are dropped; what is left, if anything, is a
    header up to its first closing bracket, or else a key and a value about its first equals sign.
  */
  lemma LineMeans(body: string, spaces: string, comment: string)
    requires ';' !in body && (body == "" || !IsSpace(body[|body| - 1]))
    requires forall i :: 0 <= i < |spaces| ==> IsSpace(spaces[i])
    requires comment == "" || comment[0] == ';'
    ensures
      var l := ParseLine(body + spaces + comment);
      if body == "" then l == Blank
      else if body[0] == '[' then
        if ']' in body then l.Header? && "[" + l.name + "]" <= body && ']' !in l.name else l == Malformed
      else
        if '=' in body then l.Assignment? && body == l.key + "=" + l.value && '=' !in l.key else l == Malformed
  {
    SpacesTrimmed(body, spaces);
    CommentDropped(body, spaces, comment);
    hide RTrim, Before, Find;
    var line := body + spaces + comment;
    if body != "" && body[0] == '[' {
      HeaderMeans(line, body);
    } else if body != "" {
      AssignmentMeans(line, body);
    }
  }

  lemma NoComment(data: string)
    requires ';' !in data && data != "" && !IsSpace(data[|data| - 1])
    ensures RTrim(Before(data, ';')) == data
  {
    assert data[0..|data|] == data;
    FindChar(data, 0, |data|, ';');
  }

  lemma HeaderReads(n: string)
    requires ']' !in n && ';' !in n
    ensures ParseLine("[" + n + "]") == Header(n)
  {
    var data := "[" + n + "]";
    NoComment(data);
    assert data[0..|n| + 1] == "[" + n;
    FindChar(data, 0, |n| + 1, ']');
    assert data[1..|n| + 1] == n;
  }

  lemma AssignmentReads(k: string, v: string)
    requires k != "" && k[0] != '[' && '=' !in k && ';' !in k && ';' !in v
    requires v == "" || !IsSpace(v[|v| - 1])
    ensures ParseLine(k + "=" + v) == Assignment(k, v)
  {
    var data := k + "=" + v;
    assert data[|data| - 1] == if v == "" then '=' else v[|v| - 1];
    NoComment(data);
    assert data[0..|k|] == k && data[0] == k[0];
    FindChar(data, 0, |k|, '=');
    assert data[|k| + 1..] == v;
  }

  lemma {:induction false} LinesRead(es: seq<Event>, current: Option<string>)
    requires InOrder(es, current) && forall k :: 0 <= k < |es| ==> Writable(es[k])
    ensures Events(LinesOf(es), current) == (es, Loaded)
  {
    if es != [] {
      assert LinesOf(es)[1..] == LinesOf(es[1..]);
      assert es == [es[0]] + es[1..];
      match es[0]
      case Open(n) =>
        HeaderReads(n);
        LinesRead(es[1..], Some(n));
      case Set(_, k, v) =>
        AssignmentReads(k, v);
        LinesRead(es[1..], current);
    }
  }

  /**
    Headers and assignments written line by line are read back as they were written, in order.
  */
  lemma WrittenTextReadsBack(es: seq<Event>)
    requires es != [] && InOrder(es, None) && forall k :: 0 <= k < |es| ==> Writable(es[k])
    ensures TextEvents(Join(LinesOf(es), "\n")) == (es, Loaded)
  {
    forall k | 0 <= k < |es|
      ensures '\n' !in LinesOf(es)[k]
    {
      assert Writable(es[k]);
    }
    SplitUndoesJoin(LinesOf(es), '\n');
    LinesRead(es, None);
  }
}
