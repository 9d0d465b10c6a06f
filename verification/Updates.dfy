/**
  The updates page: `UpdateModel` and `handle_updates`, which matches rows to the message by
  position and writes only what it finds changed.
*/
module Updates {

  datatype Update = Update(source: string, name: string, oldVersion: string, newVersion: string)

  const BLANK := Update("", "", "", "")

  class UpdateModel {
    var updates: seq<Update>

    constructor ()
      ensures updates == []
    {
      updates := [];
    }

    method InsertRows(row: nat, count: nat)
      requires row <= |updates|
      modifies this
      ensures updates == old(updates)[..row] + seq(count, _ => BLANK) + old(updates)[row..]
    {
      updates := updates[..row] + seq(count, _ => BLANK) + updates[row..];
    }

    method RemoveRows(row: nat, count: nat)
      requires row + count <= |updates|
      modifies this
      ensures updates == old(updates)[..row] + old(updates)[row + count..]
    {
      updates := updates[..row] + updates[row + count..];
    }
  }

  // The row at a position before the handler writes to it.
  function Before(rows: seq<Update>, a: nat): Update {
    if a < |rows| then rows[a] else BLANK
  }

  function Written(r: Update, m: Update): Update {
    if r.name != m.name then r.(name := m.name, oldVersion := m.oldVersion, newVersion := m.newVersion)
    else r.(newVersion := m.newVersion)
  }

  function Handle(rows: seq<Update>, info: seq<Update>): seq<Update> {
    seq(|info|, a requires 0 <= a < |info| => Written(Before(rows, a), info[a]))
  }

  method HandleUpdates(model: UpdateModel, info: seq<Update>)
    modifies model
    ensures model.updates == Handle(old(model.updates), info)
  {
    ghost var rows := model.updates;
    if |model.updates| < |info| {
      model.InsertRows(|model.updates|, |info| - |model.updates|);
    }
    if |model.updates| > |info| {
      model.RemoveRows(|info|, |model.updates| - |info|);
    }
    for a := 0 to |info|
      invariant |model.updates| == |info|
      invariant forall b :: 0 <= b < |info| ==>
        model.updates[b] == if b < a then Written(Before(rows, b), info[b]) else Before(rows, b)
    {
      var row := model.updates[a];
      if row.name != info[a].name {
        row := row.(name := info[a].name);
        row := row.(oldVersion := info[a].oldVersion);
        row := row.(newVersion := info[a].newVersion);
      } else if row.newVersion != info[a].newVersion {
        row := row.(newVersion := info[a].newVersion);
      }
      model.updates := model.updates[a := row];
    }
  }

  function Run(messages: seq<seq<Update>>): seq<Update>
    decreases |messages|
  {
    if messages == [] then [] else Handle(Run(messages[..|messages| - 1]), messages[|messages| - 1])
  }

  /**
    After any run that ends in message m, the names and new versions shown are m's, position by
    position, and the source is never filled in.
  */
  lemma {:induction false} RowsShowLastMessage(messages: seq<seq<Update>>, m: seq<Update>)
    ensures
      var rows := Run(messages + [m]);
      && |rows| == |m|
      && forall a :: 0 <= a < |m| ==>
        rows[a].name == m[a].name && rows[a].newVersion == m[a].newVersion && rows[a].source == ""
    decreases |messages|
  {
    assert (messages + [m])[..|messages|] == messages;
    if messages != [] {
      var n := |messages| - 1;
      RowsShowLastMessage(messages[..n], messages[n]);
      assert messages[..n] + [messages[n]] == messages;
    }
  }

  // From message s to the last, position a has carried one name without a break, and no longer.
  ghost predicate Stretch(messages: seq<seq<Update>>, a: nat, s: nat) {
    s < |messages| && a < |messages[|messages| - 1]| &&
    var name := messages[|messages| - 1][a].name;
    && (forall j :: s <= j < |messages| ==> a < |messages[j]| && messages[j][a].name == name)
    && (s > 0 && a < |messages[s - 1]| ==> messages[s - 1][a].name != name)
  }

  // Every row of the last message is in one.
  lemma {:induction false} StretchExists(messages: seq<seq<Update>>, a: nat) returns (s: nat)
    requires messages != [] && a < |messages[|messages| - 1]|
    ensures Stretch(messages, a, s)
    decreases |messages|
  {
    s := |messages| - 1;
    if s > 0 && a < |messages[s - 1]| && messages[s - 1][a].name == messages[s][a].name {
      s := StretchExists(messages[..s], a);
    }
  }

  // The stretch began in a row that was not there before, for an update without a name.
  predicate BeganBlank(messages: seq<seq<Update>>, a: nat, s: nat)
    requires s < |messages| && a < |messages[s]|
  {
    messages[s][a].name == "" && (s == 0 || |messages[s - 1]| <= a)
  }

  /**
    Over any run, the installed version shown at a position is the one that the first message of the
    position's unbroken stretch gave, whatever the later ones say; a nameless update in a new row never
    gets one.
  */
  lemma {:induction false} OldVersionIsFromStretch(messages: seq<seq<Update>>, a: nat, s: nat)
    requires Stretch(messages, a, s)
    ensures
      var rows := Run(messages);
      && a < |rows|
      && rows[a].oldVersion == if BeganBlank(messages, a, s) then "" else messages[s][a].oldVersion
    decreases |messages|
  {
    var n := |messages| - 1;
    var before := messages[..n];
    assert messages == before + [messages[n]];
    if n > 0 {
      assert before == before[..n - 1] + [messages[n - 1]];
      RowsShowLastMessage(before[..n - 1], messages[n - 1]);
      if s < n {
        assert messages[n - 1][a].name == messages[n][a].name;
        OldVersionIsFromStretch(before, a, s);
      }
    }
  }
}
