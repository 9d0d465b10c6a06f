/**
  The network adapters page: `AdapterModel` holds, for each adapter, what the server last reported
  and the counters reported before that, and `handle_adapters` brings it up to date in place.
*/
module Adapters {
  import opened Options
  import opened Reconcile

  type U64 = n: nat | n < 0x1_0000_0000_0000_0000

  datatype LinkState = Down | Up

  datatype Adapter = Adapter(
    name: string,
    state: LinkState,
    linkSpeed: U64,
    mtu: U64,
    macAddress: string,
    ipAddress: string,
    bytesRx: U64,
    bytesTx: U64,
    time: U64)

  const BLANK := Adapter("", Down, 0, 0, "", "", 0, 0, 0)

  class AdapterModel {
    var updates: seq<Adapter>
    var prevous: seq<Adapter>

    ghost predicate Valid()
      reads this
    {
      |updates| == |prevous|
    }

    ghost function Rows(): seq<AdapterRow>
      requires Valid()
      reads this
    {
      seq(|updates|, i requires 0 <= i < |updates| reads this requires Valid() => AdapterRow(updates[i], prevous[i]))
    }

    constructor ()
      ensures Valid() && Rows() == []
    {
      updates, prevous := [], [];
    }

    method InsertRows(row: nat, count: nat)
      requires Valid() && row <= |updates|
      modifies this
      ensures Valid()
      ensures Rows() == old(Rows())[..row] + seq(count, _ => AdapterRow(BLANK, BLANK)) + old(Rows())[row..]
    {
      updates := updates[..row] + seq(count, _ => BLANK) + updates[row..];
      prevous := prevous[..row] + seq(count, _ => BLANK) + prevous[row..];
    }

    method RemoveRows(row: nat, count: nat)
      requires Valid() && row + count <= |updates|
      modifies this
      ensures Valid()
      ensures Rows() == old(Rows())[..row] + old(Rows())[row + count..]
    {
      updates := updates[..row] + updates[row + count..];
      prevous := prevous[..row] + prevous[row + count..];
    }
  }

  // One adapter's row: the last report, and the counters and time of the one before it.
  datatype AdapterRow = AdapterRow(cur: Adapter, pre: Adapter)

  function Update(r: AdapterRow, din: Adapter): AdapterRow {
    AdapterRow(
      r.cur.(bytesRx := din.bytesRx, bytesTx := din.bytesTx, time := din.time,
             state := din.state, linkSpeed := din.linkSpeed),
      r.pre.(bytesRx := r.cur.bytesRx, bytesTx := r.cur.bytesTx, time := r.cur.time))
  }

  function Create(din: Adapter): AdapterRow {
    AdapterRow(din, BLANK.(bytesRx := din.bytesRx, bytesTx := din.bytesTx, time := din.time))
  }

  const ADAPTERS: Schema<AdapterRow, Adapter> := Schema(
    (r: AdapterRow) => r.cur.name,
    (m: Adapter) => m.name,
    (r: AdapterRow, m: Adapter) => Update(r, m),
    (m: Adapter) => Create(m))

  lemma SchemaIsValid()
    ensures ADAPTERS.Valid()
  {
  }

  lemma Names(rows: seq<AdapterRow>, info: seq<Adapter>)
    ensures |ADAPTERS.Keys(rows)| == |rows| && |ADAPTERS.Ids(info)| == |info|
    ensures forall i :: 0 <= i < |rows| ==> ADAPTERS.Keys(rows)[i] == rows[i].cur.name == ADAPTERS.key(rows[i])
    ensures forall i :: 0 <= i < |info| ==> ADAPTERS.Ids(info)[i] == info[i].name
  {
  }

  // The inner loop of the first half: does the message list this name?
  method Listed(name: string, info: seq<Adapter>) returns (found: bool)
    ensures found <==> name in ADAPTERS.Ids(info)
  {
    found := false;
    ghost var ids := ADAPTERS.Ids(info);
    Names([], info);
    for d := 0 to |info|
      invariant found <==> exists e :: 0 <= e < d && ids[e] == name
    {
      if name == info[d].name {
        found := true;
      }
    }
  }

  method DropIfUnlisted(adapters: AdapterModel, a: nat, info: seq<Adapter>) returns (found: bool)
    requires adapters.Valid() && a < |adapters.updates|
    modifies adapters
    ensures adapters.Valid()
    ensures found <==> ADAPTERS.key(old(adapters.Rows())[a]) in ADAPTERS.Ids(info)
    ensures adapters.Rows()
            == if found then old(adapters.Rows()) else old(adapters.Rows())[..a] + old(adapters.Rows())[a + 1..]
  {
    assert adapters.Rows()[a].cur == adapters.updates[a];
    found := Listed(adapters.updates[a].name, info);
    if !found {
      adapters.RemoveRows(a, 1);
    }
  }

  // One turn of the loop, with what it means for where the loop stands.
  method DropTurn(adapters: AdapterModel, a: nat, info: seq<Adapter>,
                  ghost rows: seq<AdapterRow>, ghost kept: seq<AdapterRow>, ghost seen: nat, ghost ids: seq<string>)
    returns (found: bool)
    requires adapters.Valid() && a == |kept| < |adapters.updates| && ids == ADAPTERS.Ids(info)
    requires Dropping(ADAPTERS, adapters.Rows(), rows, kept, seen, ids)
    modifies adapters
    ensures adapters.Valid()
    ensures seen < |rows|
    ensures Dropping(ADAPTERS, adapters.Rows(), rows, if found then kept + [rows[seen]] else kept, seen + 1, ids)
  {
    DroppingNext(ADAPTERS, adapters.Rows(), rows, kept, seen, ids);
    found := DropIfUnlisted(adapters, a, info);
  }

  // The first half of handle_adapters: rows the message does not list are removed while iterating.
  method DropUnlisted(adapters: AdapterModel, info: seq<Adapter>)
    requires adapters.Valid()
    modifies adapters
    ensures adapters.Valid()
    ensures adapters.Rows() == ADAPTERS.Retain(old(adapters.Rows()), ADAPTERS.Ids(info))
  {
    ghost var rows, ids := adapters.Rows(), ADAPTERS.Ids(info);
    ghost var seen := 0;
    ghost var kept: seq<AdapterRow> := [];
    var a: int := 0;
    while a < |adapters.updates|
      invariant adapters.Valid() && a == |kept|
      invariant Dropping(ADAPTERS, adapters.Rows(), rows, kept, seen, ids)
      decreases |adapters.updates| - a
    {
      var found := DropTurn(adapters, a, info, rows, kept, seen, ids);
      if !found {
        a := a - 1;
      } else {
        kept := kept + [rows[seen]];
      }
      a := a + 1;
      seen := seen + 1;
    }
    assert rows[..|rows|] == rows;
  }

  // The body of the second half for a row that carries din.name.
  method Touch(adapters: AdapterModel, a: nat, din: Adapter)
    requires adapters.Valid() && a < |adapters.updates|
    modifies adapters
    ensures adapters.Valid()
    ensures adapters.Rows() == old(adapters.Rows())[a := Update(old(adapters.Rows())[a], din)]
  {
    var cur, pre := adapters.updates[a], adapters.prevous[a];
    pre := pre.(bytesRx := cur.bytesRx);
    pre := pre.(bytesTx := cur.bytesTx);
    pre := pre.(time := cur.time);
    cur := cur.(bytesRx := din.bytesRx);
    cur := cur.(bytesTx := din.bytesTx);
    cur := cur.(time := din.time);
    cur := cur.(state := din.state);
    cur := cur.(linkSpeed := din.linkSpeed);
    adapters.updates := adapters.updates[a := cur];
    adapters.prevous := adapters.prevous[a := pre];
  }

  // The body of the second half for a name that has no row yet.
  method Append(adapters: AdapterModel, din: Adapter)
    requires adapters.Valid()
    modifies adapters
    ensures adapters.Valid()
    ensures adapters.Rows() == old(adapters.Rows()) + [Create(din)]
  {
    var last := |adapters.updates|;
    adapters.InsertRows(last, 1);
    ghost var rows := adapters.Rows();
    assert rows[last] == AdapterRow(BLANK, BLANK) && rows[..last] == old(adapters.Rows());
    adapters.updates := adapters.updates[last := din];
    var pre := adapters.prevous[last];
    pre := pre.(bytesRx := din.bytesRx);
    pre := pre.(bytesTx := din.bytesTx);
    pre := pre.(time := din.time);
    adapters.prevous := adapters.prevous[last := pre];
    assert adapters.Rows() == rows[last := Create(din)];
  }

  // One turn of the second half: the row of din.name is updated, or appended if there is none.
  method Take(adapters: AdapterModel, din: Adapter)
    requires adapters.Valid()
    modifies adapters
    ensures adapters.Valid()
    ensures adapters.Rows() == ADAPTERS.Upsert(old(adapters.Rows()), din)
  {
    ghost var rows := adapters.Rows();
    ghost var updated := ADAPTERS.UpdateAll(rows, din);
    Names(rows, [din]);
    var done := false;
    for a := 0 to |adapters.updates|
      invariant adapters.Valid() && |adapters.Rows()| == |rows|
      invariant forall b :: 0 <= b < |rows| ==> adapters.Rows()[b] == if b < a then updated[b] else rows[b]
      invariant done <==> exists b :: 0 <= b < a && ADAPTERS.Keys(rows)[b] == din.name
    {
      assert adapters.Rows()[a] == rows[a];
      if adapters.updates[a].name == din.name {
        Touch(adapters, a, din);
        done := true;
      }
    }
    if !done {
      assert adapters.Rows() == rows;
      Append(adapters, din);
    }
  }

  method HandleAdapters(adapters: AdapterModel, info: seq<Adapter>)
    requires adapters.Valid()
    modifies adapters
    ensures adapters.Valid()
    ensures adapters.Rows() == ADAPTERS.Reconcile(old(adapters.Rows()), info)
  {
    DropUnlisted(adapters, info);
    ghost var kept := adapters.Rows();
    for d := 0 to |info|
      invariant adapters.Valid()
      invariant adapters.Rows() == ADAPTERS.Merge(kept, info[..d])
    {
      Take(adapters, info[d]);
      assert info[..d + 1][..d] == info[..d];
    }
    assert info[..|info|] == info;
  }

  // ----- an adapter over a run -----

  // The row made of some reports, field by field: the first one's identity, the last one's news, and the
  // counters and time of the one just before it.
  predicate ShowsReports(row: Option<AdapterRow>, reports: seq<Adapter>) {
    if row.None? then reports == []
    else
      && reports != []
      && var cur, pre, first, last := row.value.cur, row.value.pre, reports[0], reports[|reports| - 1];
      && var before := reports[if |reports| >= 2 then |reports| - 2 else 0];
      && cur.name == first.name && cur.mtu == first.mtu
      && cur.macAddress == first.macAddress && cur.ipAddress == first.ipAddress
      && cur.state == last.state && cur.linkSpeed == last.linkSpeed
      && cur.bytesRx == last.bytesRx && cur.bytesTx == last.bytesTx && cur.time == last.time
      && pre.bytesRx == before.bytesRx && pre.bytesTx == before.bytesTx && pre.time == before.time
  }

  lemma {:induction false} FollowShowsReports(reports: seq<Adapter>)
    ensures ShowsReports(ADAPTERS.Follow(None, reports), reports)
    decreases |reports|
  {
    if reports != [] {
      FollowShowsReports(reports[..|reports| - 1]);
    }
  }

  // The last message lists no adapter of that name.
  predicate Unlisted(messages: seq<seq<Adapter>>, name: string) {
    messages == [] || forall m :: m in messages[|messages| - 1] ==> m.name != name
  }

  /**
    Over any run of messages, an adapter has a row exactly while the last message lists it.  The row shows
    the name, MTU and addresses as first reported since the adapter last appeared, the state, speed and
    counters as last reported, and as previous counters those reported just before, or the same ones when
    there was only one report.
  */
  lemma RowShowsLastTwo(messages: seq<seq<Adapter>>, name: string)
    ensures
      var row, reports := ADAPTERS.Find(ADAPTERS.Run(messages), name), ADAPTERS.Reports(messages, name);
      && (reports == [] <==> Unlisted(messages, name))
      && (forall i :: 0 <= i < |reports| ==> reports[i].name == name)
      && ShowsReports(row, reports)
  {
    SchemaIsValid();
    RowIsFromReports(ADAPTERS, messages, name);
    ReportsAreListed(ADAPTERS, messages, name);
    assert forall m: Adapter :: ADAPTERS.id(m) == m.name;
    FollowShowsReports(ADAPTERS.Reports(messages, name));
  }

  // The rate roles: unsigned 64-bit subtraction, and the scaling from bytes to bits.
  function Sub64(a: U64, b: U64): U64 {
    (a - b) % 0x1_0000_0000_0000_0000
  }

  function DeltaBits(cur: U64, pre: U64): U64 {
    Sub64(cur, pre) * 8 % 0x1_0000_0000_0000_0000
  }

  lemma DeltaBitsExactIff(cur: U64, pre: U64)
    ensures Sub64(cur, pre) == cur - pre <==> pre <= cur
    ensures DeltaBits(cur, pre) == 8 * (cur - pre) <==> pre <= cur < pre + 0x2000_0000_0000_0000
  {
  }

  predicate NonDecreasing(h: seq<Adapter>) {
    forall i :: 0 <= i < |h| - 1 ==>
      h[i].bytesRx <= h[i + 1].bytesRx && h[i].bytesTx <= h[i + 1].bytesTx && h[i].time <= h[i + 1].time
  }

  /**
    If the counters and times reported for an adapter never decrease, no subtraction behind its rates
    and its time span wraps.
  */
  lemma RatesNeverWrap(messages: seq<seq<Adapter>>, i: nat)
    requires i < |ADAPTERS.Run(messages)|
    requires NonDecreasing(ADAPTERS.Reports(messages, ADAPTERS.Run(messages)[i].cur.name))
    ensures
      var row := ADAPTERS.Run(messages)[i];
      && Sub64(row.cur.bytesRx, row.pre.bytesRx) == row.cur.bytesRx - row.pre.bytesRx
      && Sub64(row.cur.bytesTx, row.pre.bytesTx) == row.cur.bytesTx - row.pre.bytesTx
      && Sub64(row.cur.time, row.pre.time) == row.cur.time - row.pre.time
  {
    var rows := ADAPTERS.Run(messages);
    SchemaIsValid();
    KeysStayDistinct(ADAPTERS, messages);
    FindAt(ADAPTERS, rows, i);
    Names(rows, []);
    RowShowsLastTwo(messages, rows[i].cur.name);
    DeltaBitsExactIff(rows[i].cur.bytesRx, rows[i].pre.bytesRx);
    DeltaBitsExactIff(rows[i].cur.bytesTx, rows[i].pre.bytesTx);
    DeltaBitsExactIff(rows[i].cur.time, rows[i].pre.time);
  }
}
