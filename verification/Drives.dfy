/**
  The drives page: `DrivesModel` holds the drives and, in a parallel vector, one `PartitionModel`
  object per drive; `handle_drives` adds and removes rows and updates the partition models in place.
*/
module Drives {
  import opened Options
  import opened Reconcile

  datatype Partition = Partition(
    devNode: string,
    size: nat,
    used: nat,
    mountpoint: string,
    filesystem: string)

  datatype Drive = Drive(
    devNode: string,
    size: nat,
    model: string,
    manufacturer: string,
    iface: string,
    partitions: seq<Partition>)

  const BLANK_PARTITION := Partition("", 0, 0, "", "")
  const BLANK_DRIVE := Drive("", 0, "", "", "", [])

  class PartitionModel {
    var updates: seq<Partition>

    constructor ()
      ensures updates == []
    {
      updates := [];
    }

    method InsertRows(row: nat, count: nat)
      requires row <= |updates|
      modifies this
      ensures updates == old(updates)[..row] + seq(count, _ => BLANK_PARTITION) + old(updates)[row..]
    {
      updates := updates[..row] + seq(count, _ => BLANK_PARTITION) + updates[row..];
    }

    method RemoveRows(row: nat, count: nat)
      requires row + count <= |updates|
      modifies this
      ensures updates == old(updates)[..row] + old(updates)[row + count..]
    {
      updates := updates[..row] + updates[row + count..];
    }
  }

  // A drive as shown, with the partitions its model holds.
  datatype DriveRow = DriveRow(drive: Drive, parts: seq<Partition>)

  class DrivesModel {
    var updates: seq<Drive>
    var partitions: seq<PartitionModel>

    // Every drive has a partition model of its own.
    ghost predicate Valid()
      reads this
    {
      && |updates| == |partitions|
      && forall i, j :: 0 <= i < j < |partitions| ==> partitions[i] != partitions[j]
    }

    ghost function Rows(): (rows: seq<DriveRow>)
      requires Valid()
      reads this, partitions
      ensures |rows| == |updates|
      ensures forall i :: 0 <= i < |rows| ==> rows[i] == DriveRow(updates[i], partitions[i].updates)
    {
      seq(|updates|, i requires 0 <= i < |updates| reads this, partitions requires Valid() =>
        DriveRow(updates[i], partitions[i].updates))
    }

    constructor ()
      ensures Valid() && Rows() == []
    {
      updates, partitions := [], [];
    }

    // insertRow: one blank drive with a new, empty partition model.
    method InsertRow(row: nat)
      requires Valid() && row <= |updates|
      modifies this
      ensures Valid()
      ensures |partitions| == |old(partitions)| + 1 && fresh(partitions[row])
      ensures partitions == old(partitions)[..row] + [partitions[row]] + old(partitions)[row..]
      ensures updates == old(updates)[..row] + [BLANK_DRIVE] + old(updates)[row..]
      ensures partitions[row].updates == []
    {
      var model := new PartitionModel();
      updates := updates[..row] + [BLANK_DRIVE] + updates[row..];
      partitions := partitions[..row] + [model] + partitions[row..];
    }

    method RemoveRow(row: nat)
      requires Valid() && row < |updates|
      modifies this
      ensures Valid()
      ensures updates == old(updates)[..row] + old(updates)[row + 1..]
      ensures partitions == old(partitions)[..row] + old(partitions)[row + 1..]
      ensures Rows() == old(Rows())[..row] + old(Rows())[row + 1..]
    {
      updates := updates[..row] + updates[row + 1..];
      partitions := partitions[..row] + partitions[row + 1..];
    }
  }

  function Update(r: DriveRow, dinfo: Drive): DriveRow {
    r.(parts := dinfo.partitions)
  }

  function Create(dinfo: Drive): DriveRow {
    DriveRow(dinfo.(partitions := []), dinfo.partitions)
  }

  const DRIVES: Schema<DriveRow, Drive> := Schema(
    (r: DriveRow) => r.drive.devNode,
    (m: Drive) => m.devNode,
    (r: DriveRow, m: Drive) => Update(r, m),
    (m: Drive) => Create(m))

  lemma SchemaIsValid()
    ensures DRIVES.Valid()
  {
  }

  lemma Names(rows: seq<DriveRow>, info: seq<Drive>)
    ensures |DRIVES.Keys(rows)| == |rows| && |DRIVES.Ids(info)| == |info|
    ensures forall i :: 0 <= i < |rows| ==> DRIVES.Keys(rows)[i] == rows[i].drive.devNode == DRIVES.key(rows[i])
    ensures forall i :: 0 <= i < |info| ==> DRIVES.Ids(info)[i] == info[i].devNode
  {
  }

  method Listed(devNode: string, info: seq<Drive>) returns (found: bool)
    ensures found <==> devNode in DRIVES.Ids(info)
  {
    found := false;
    ghost var ids := DRIVES.Ids(info);
    Names([], info);
    for d := 0 to |info|
      invariant found <==> exists e :: 0 <= e < d && ids[e] == devNode
    {
      if devNode == info[d].devNode {
        found := true;
      }
    }
  }

  // One turn of the first loop: the row goes if the message does not list it.
  method DropIfUnlisted(drives: DrivesModel, a: nat, info: seq<Drive>) returns (found: bool)
    requires drives.Valid() && a < |drives.updates|
    modifies drives
    ensures drives.Valid()
    ensures forall p :: p in drives.partitions ==> p in old(drives.partitions)
    ensures found <==> DRIVES.key(old(drives.Rows())[a]) in DRIVES.Ids(info)
    ensures drives.Rows()
            == if found then old(drives.Rows()) else old(drives.Rows())[..a] + old(drives.Rows())[a + 1..]
  {
    found := Listed(drives.updates[a].devNode, info);
    if !found {
      drives.RemoveRow(a);
    }
  }

  // Where the first loop stands.
  ghost predicate Standing(drives: DrivesModel, rows: seq<DriveRow>, kept: seq<DriveRow>, seen: nat, ids: seq<string>)
    reads drives, drives.partitions
  {
    && drives.Valid()
    && seen <= |rows| && kept == DRIVES.Retain(rows[..seen], ids)
    && drives.Rows() == kept + rows[seen..]
  }

  lemma StandsAtStart(drives: DrivesModel, ids: seq<string>)
    requires drives.Valid()
    ensures Standing(drives, drives.Rows(), [], 0, ids)
  {
  }

  lemma StandsAtEnd(drives: DrivesModel, rows: seq<DriveRow>, kept: seq<DriveRow>, seen: nat, ids: seq<string>)
    requires Standing(drives, rows, kept, seen, ids) && |kept| >= |drives.updates|
    ensures drives.Rows() == DRIVES.Retain(rows, ids)
  {
    assert rows[..|rows|] == rows;
  }

  // One turn of the loop, with what it means for where the loop stands.
  method DropTurn(drives: DrivesModel, a: nat, info: seq<Drive>,
                  ghost rows: seq<DriveRow>, ghost kept: seq<DriveRow>, ghost seen: nat, ghost ids: seq<string>)
    returns (found: bool)
    requires Standing(drives, rows, kept, seen, ids) && ids == DRIVES.Ids(info)
    requires a == |kept| < |drives.updates|
    modifies drives
    ensures forall p :: p in drives.partitions ==> p in old(drives.partitions)
    ensures seen < |rows|
    ensures Standing(drives, rows, if found then kept + [rows[seen]] else kept, seen + 1, ids)
  {
    DroppingNext(DRIVES, drives.Rows(), rows, kept, seen, ids);
    found := DropIfUnlisted(drives, a, info);
  }

  // The same, with the loop's counter and what the loop is at.
  method DropNext(drives: DrivesModel, a: nat, info: seq<Drive>,
                  ghost rows: seq<DriveRow>, ghost kept: seq<DriveRow>, ghost seen: nat, ghost ids: seq<string>)
    returns (next: nat, ghost keptNext: seq<DriveRow>, ghost seenNext: nat)
    requires Standing(drives, rows, kept, seen, ids) && ids == DRIVES.Ids(info)
    requires a == |kept| < |drives.updates|
    modifies drives
    ensures forall p :: p in drives.partitions ==> p in old(drives.partitions)
    ensures Standing(drives, rows, keptNext, seenNext, ids)
    ensures next == |keptNext| && |drives.updates| - next < |old(drives.updates)| - a
  {
    var found := DropTurn(drives, a, info, rows, kept, seen, ids);
    seenNext, keptNext := seen + 1, if found then kept + [rows[seen]] else kept;
    var i: int := a;
    if !found {
      i := i - 1;
    }
    i := i + 1;
    next := i;
  }

  method DropUnlisted(drives: DrivesModel, info: seq<Drive>)
    requires drives.Valid()
    modifies drives
    ensures drives.Valid()
    ensures forall p :: p in drives.partitions ==> p in old(drives.partitions)
    ensures drives.Rows() == DRIVES.Retain(old(drives.Rows()), DRIVES.Ids(info))
  {
    ghost var rows, ids := drives.Rows(), DRIVES.Ids(info);
    ghost var kept: seq<DriveRow>, seen := [], 0;
    StandsAtStart(drives, ids);
    var a := 0;
    while a < |drives.updates|
      invariant Standing(drives, rows, kept, seen, ids) && a == |kept|
      invariant forall p :: p in drives.partitions ==> p in old(drives.partitions)
      decreases |drives.updates| - a
    {
      a, kept, seen := DropNext(drives, a, info, rows, kept, seen, ids);
    }
    StandsAtEnd(drives, rows, kept, seen, ids);
  }

  // Rows are matched by position; a partition that is not the same one is replaced whole.
  method UpdatePartitions(partitions: PartitionModel, dinfo: Drive)
    modifies partitions
    ensures partitions.updates == dinfo.partitions
  {
    var ipartition := dinfo.partitions;
    if |partitions.updates| < |ipartition| {
      partitions.InsertRows(|partitions.updates|, |ipartition| - |partitions.updates|);
    }
    if |partitions.updates| > |ipartition| {
      partitions.RemoveRows(|ipartition|, |partitions.updates| - |ipartition|);
    }
    for a := 0 to |ipartition|
      invariant |partitions.updates| == |ipartition|
      invariant partitions.updates[..a] == ipartition[..a]
    {
      var pdata, pinfo := partitions.updates[a], ipartition[a];
      if pdata.devNode != pinfo.devNode {
        pdata := pinfo;
      } else {
        if pdata.size != pinfo.size {
          pdata := pdata.(size := pinfo.size);
        }
        if pdata.used != pinfo.used {
          pdata := pdata.(used := pinfo.used);
        }
        if pdata.mountpoint != pinfo.mountpoint {
          pdata := pdata.(mountpoint := pinfo.mountpoint);
        }
        if pdata.filesystem != pinfo.filesystem {
          pdata := pdata.(filesystem := pinfo.filesystem);
        }
      }
      assert pdata == pinfo;
      partitions.updates := partitions.updates[a := pdata];
    }
  }

  // Updating one drive's partitions leaves every other row as it was.
  method UpdatePartitionsAt(drives: DrivesModel, a: nat, dinfo: Drive)
    requires drives.Valid() && a < |drives.updates|
    modifies drives.partitions[a]
    ensures drives.Valid()
    ensures drives.Rows() == old(drives.Rows())[a := Update(old(drives.Rows())[a], dinfo)]
  {
    UpdatePartitions(drives.partitions[a], dinfo);
  }

  method Append(drives: DrivesModel, dinfo: Drive)
    requires drives.Valid()
    modifies drives
    ensures drives.Valid()
    ensures forall p :: p in drives.partitions ==> p in old(drives.partitions) || fresh(p)
    ensures drives.Rows() == old(drives.Rows()) + [Create(dinfo)]
  {
    ghost var rows := drives.Rows();
    var last := |drives.updates|;
    drives.InsertRow(last);
    var drive := drives.updates[last];
    drive := drive.(devNode := dinfo.devNode);
    drive := drive.(size := dinfo.size);
    drive := drive.(model := dinfo.model);
    drive := drive.(manufacturer := dinfo.manufacturer);
    drive := drive.(iface := dinfo.iface);
    drives.updates := drives.updates[last := drive];
    UpdatePartitions(drives.partitions[last], dinfo);
    forall i | 0 <= i < last ensures drives.Rows()[i] == rows[i] {
      assert drives.partitions[i] == old(drives.partitions)[i];
    }
    assert drives.Rows()[last] == Create(dinfo);
  }

  method Take(drives: DrivesModel, dinfo: Drive)
    requires drives.Valid()
    modifies drives, drives.partitions
    ensures drives.Valid()
    ensures forall p :: p in drives.partitions ==> p in old(drives.partitions) || fresh(p)
    ensures drives.Rows() == DRIVES.Upsert(old(drives.Rows()), dinfo)
  {
    ghost var rows := drives.Rows();
    ghost var updated := DRIVES.UpdateAll(rows, dinfo);
    Names(rows, [dinfo]);
    var done := false;
    for a := 0 to |drives.updates|
      invariant drives.Valid() && |drives.Rows()| == |rows|
      invariant drives.partitions == old(drives.partitions)
      invariant forall b :: 0 <= b < |rows| ==> drives.Rows()[b] == if b < a then updated[b] else rows[b]
      invariant done <==> exists b :: 0 <= b < a && DRIVES.Keys(rows)[b] == dinfo.devNode
    {
      assert drives.Rows()[a] == rows[a];
      if drives.updates[a].devNode == dinfo.devNode {
        UpdatePartitionsAt(drives, a, dinfo);
        done := true;
      }
    }
    if !done {
      assert drives.Rows() == rows;
      Append(drives, dinfo);
    }
  }

  method HandleDrives(drives: DrivesModel, info: seq<Drive>)
    requires drives.Valid()
    modifies drives, drives.partitions
    ensures drives.Valid()
    ensures forall p :: p in drives.partitions ==> p in old(drives.partitions) || fresh(p)
    ensures drives.Rows() == DRIVES.Reconcile(old(drives.Rows()), info)
  {
    DropUnlisted(drives, info);
    ghost var kept := drives.Rows();
    for d := 0 to |info|
      invariant drives.Valid()
      invariant forall p :: p in drives.partitions ==> p in old(drives.partitions) || fresh(p)
      invariant drives.Rows() == DRIVES.Merge(kept, info[..d])
    {
      forall i | 0 <= i < |drives.partitions|
        ensures drives.partitions[i] in old(drives.partitions) || fresh(drives.partitions[i])
      {
        assert drives.partitions[i] in drives.partitions;
      }
      Take(drives, info[d]);
      assert info[..d + 1][..d] == info[..d];
    }
    assert info[..|info|] == info;
  }

  // ----- what the rows show -----

  lemma {:induction false} FollowPartitions(row: Option<DriveRow>, entries: seq<Drive>)
    requires entries != []
    ensures
      var r := DRIVES.Follow(row, entries);
      && r.Some?
      && r.value.parts == entries[|entries| - 1].partitions
      && r.value.drive == (if row.Some? then row.value.drive else entries[0].(partitions := []))
    decreases |entries|
  {
    var n := |entries| - 1;
    if n > 0 {
      FollowPartitions(row, entries[..n]);
    }
  }

  lemma {:induction false} SoleEntry(info: seq<Drive>, i: nat)
    requires i < |info| && Distinct(DRIVES.Ids(info))
    ensures DRIVES.Entries(info, info[i].devNode) == [info[i]]
    decreases |info|
  {
    var n := |info| - 1;
    Names([], info);
    assert DRIVES.Ids(info)[..n] == DRIVES.Ids(info[..n]);
    if i == n {
      EntriesIffListed(DRIVES, info[..n], info[n].devNode);
    } else {
      SoleEntry(info[..n], i);
    }
  }

  /**
    After a message whose device nodes are distinct, every drive it lists has exactly one row, that
    row's partitions are the message's in all five fields, and its other fields are those with which
    the drive first appeared.
  */
  lemma PartitionsMatchMessage(rows: seq<DriveRow>, info: seq<Drive>, i: nat)
    requires Distinct(DRIVES.Keys(rows)) && Distinct(DRIVES.Ids(info)) && i < |info|
    ensures Distinct(DRIVES.Keys(DRIVES.Reconcile(rows, info)))
    ensures
      var before := DRIVES.Find(rows, info[i].devNode);
      var after := DRIVES.Find(DRIVES.Reconcile(rows, info), info[i].devNode);
      && after.Some?
      && after.value.parts == info[i].partitions
      && after.value.drive == (if before.Some? then before.value.drive else info[i].(partitions := []))
  {
    SchemaIsValid();
    KeysAfter(DRIVES, rows, info);
    RowAfter(DRIVES, rows, info, info[i].devNode);
    SoleEntry(info, i);
    FollowPartitions(DRIVES.Find(rows, info[i].devNode), [info[i]]);
  }

  lemma {:induction false} FollowShowsReports(reports: seq<Drive>)
    ensures
      DRIVES.Follow(None, reports) ==
        if reports == [] then None
        else Some(DriveRow(reports[0].(partitions := []), reports[|reports| - 1].partitions))
    decreases |reports|
  {
    if reports != [] {
      FollowShowsReports(reports[..|reports| - 1]);
    }
  }

  // The last message lists no drive of that device node.
  predicate Unlisted(messages: seq<seq<Drive>>, devNode: string) {
    messages == [] || forall m :: m in messages[|messages| - 1] ==> m.devNode != devNode
  }

  /**
    Over any run of messages, a drive has a row exactly while the last message lists it, and the row shows
    the drive as first reported since it last appeared, with the partitions last reported.
  */
  lemma RowShowsFirstWithLast(messages: seq<seq<Drive>>, devNode: string)
    ensures
      var row, reports := DRIVES.Find(DRIVES.Run(messages), devNode), DRIVES.Reports(messages, devNode);
      && (row.None? <==> Unlisted(messages, devNode))
      && (row.Some? ==>
           && reports != []
           && (forall i :: 0 <= i < |reports| ==> reports[i].devNode == devNode)
           && row.value.drive.devNode == reports[0].devNode && row.value.drive.size == reports[0].size
           && row.value.drive.model == reports[0].model && row.value.drive.manufacturer == reports[0].manufacturer
           && row.value.drive.iface == reports[0].iface
           && row.value.parts == reports[|reports| - 1].partitions)
  {
    SchemaIsValid();
    RowIsFromReports(DRIVES, messages, devNode);
    ReportsAreListed(DRIVES, messages, devNode);
    assert forall m: Drive :: DRIVES.id(m) == m.devNode;
    FollowShowsReports(DRIVES.Reports(messages, devNode));
  }
}
