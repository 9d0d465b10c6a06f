/**
  The services page: `ServiceModel` with `handle_services`, and the list of service types that
  `handle_service` extends.
*/
module Services {
  import opened Options
  import opened Reconcile

  datatype ServiceState = Stopped | Running | Starting | Stopping

  datatype Service = Service(
    id: string,
    state: ServiceState,
    enabled: bool,
    kind: string,
    displayName: string,
    description: string)

  const BLANK := Service("", Stopped, false, "", "", "")

  class ServiceModel {
    var updates: seq<Service>

    constructor ()
      ensures updates == []
    {
      updates := [];
    }

    method InsertRows(row: nat, count: nat)
      requires row <= |updates|
      modifies this
      ensures updates == old(updates)[..row] + seq(count, _ => BLANK) + old(updates)[row..]
    {
      updates := updates[..row] + seq(count, _ => BLANK) + updates[row..];
    }

    method RemoveRows(row: nat, count: nat)
      requires row + count <= |updates|
      modifies this
      ensures updates == old(updates)[..row] + old(updates)[row + count..]
    {
      updates := updates[..row] + updates[row + count..];
    }
  }

  // A known service keeps its type and description; only these three fields follow the server.
  function Update(r: Service, din: Service): Service {
    r.(state := din.state, enabled := din.enabled, displayName := din.displayName)
  }

  const SERVICES: Schema<Service, Service> := Schema(
    (r: Service) => r.id,
    (m: Service) => m.id,
    (r: Service, m: Service) => Update(r, m),
    (m: Service) => m)

  lemma SchemaIsValid()
    ensures SERVICES.Valid()
  {
  }

  lemma Names(rows: seq<Service>, info: seq<Service>)
    ensures |SERVICES.Keys(rows)| == |rows| && |SERVICES.Ids(info)| == |info|
    ensures forall i :: 0 <= i < |rows| ==> SERVICES.Keys(rows)[i] == rows[i].id == SERVICES.key(rows[i])
    ensures forall i :: 0 <= i < |info| ==> SERVICES.Ids(info)[i] == info[i].id
  {
  }

  method Listed(id: string, info: seq<Service>) returns (found: bool)
    ensures found <==> id in SERVICES.Ids(info)
  {
    found := false;
    ghost var ids := SERVICES.Ids(info);
    Names([], info);
    for d := 0 to |info|
      invariant found <==> exists e :: 0 <= e < d && ids[e] == id
    {
      if id == info[d].id {
        found := true;
      }
    }
  }

  method DropUnlisted(services: ServiceModel, info: seq<Service>)
    modifies services
    ensures services.updates == SERVICES.Retain(old(services.updates), SERVICES.Ids(info))
  {
    ghost var rows := services.updates;
    ghost var ids := SERVICES.Ids(info);
    ghost var seen := 0;
    ghost var kept: seq<Service> := [];
    Names(rows, info);
    var a: int := 0;
    while a < |services.updates|
      invariant Dropping(SERVICES, services.updates, rows, kept, seen, ids) && a == |kept|
      decreases |services.updates| - a
    {
      DroppingNext(SERVICES, services.updates, rows, kept, seen, ids);
      var found := Listed(services.updates[a].id, info);
      if !found {
        services.RemoveRows(a, 1);
        a := a - 1;
      } else {
        kept := kept + [rows[seen]];
      }
      a := a + 1;
      seen := seen + 1;
    }
    assert rows[..|rows|] == rows;
  }

  // The body of the second loop for a row that carries din.id.
  method Touch(services: ServiceModel, a: nat, din: Service)
    requires a < |services.updates|
    modifies services
    ensures services.updates == old(services.updates)[a := Update(old(services.updates)[a], din)]
  {
    var cur := services.updates[a];
    if cur.state != din.state {
      cur := cur.(state := din.state);
    }
    if cur.enabled != din.enabled {
      cur := cur.(enabled := din.enabled);
    }
    if cur.displayName != din.displayName {
      cur := cur.(displayName := din.displayName);
    }
    services.updates := services.updates[a := cur];
  }

  method Take(services: ServiceModel, din: Service)
    modifies services
    ensures services.updates == SERVICES.Upsert(old(services.updates), din)
  {
    ghost var rows := services.updates;
    ghost var updated := SERVICES.UpdateAll(rows, din);
    Names(rows, [din]);
    var done := false;
    for a := 0 to |services.updates|
      invariant |services.updates| == |rows|
      invariant forall b :: 0 <= b < |rows| ==> services.updates[b] == if b < a then updated[b] else rows[b]
      invariant done <==> exists b :: 0 <= b < a && SERVICES.Keys(rows)[b] == din.id
    {
      if services.updates[a].id == din.id {
        Touch(services, a, din);
        done := true;
      }
    }
    if !done {
      assert services.updates == rows;
      var last := |services.updates|;
      services.InsertRows(last, 1);
      services.updates := services.updates[last := din];
      assert services.updates == rows + [din];
    }
  }

  method HandleServices(services: ServiceModel, info: seq<Service>)
    modifies services
    ensures services.updates == SERVICES.Reconcile(old(services.updates), info)
  {
    DropUnlisted(services, info);
    ghost var kept := services.updates;
    for d := 0 to |info|
      invariant services.updates == SERVICES.Merge(kept, info[..d])
    {
      Take(services, info[d]);
      assert info[..d + 1][..d] == info[..d];
    }
    assert info[..|info|] == info;
  }

  // ----- a service over a run -----

  // The row made of some reports, field by field: the first report's identity and the last one's news.
  predicate ShowsReports(row: Option<Service>, reports: seq<Service>) {
    if row.None? then reports == []
    else
      && reports != []
      && var r, first, last := row.value, reports[0], reports[|reports| - 1];
      && r.id == first.id && r.kind == first.kind && r.description == first.description
      && r.state == last.state && r.enabled == last.enabled && r.displayName == last.displayName
  }

  lemma {:induction false} FollowShowsReports(reports: seq<Service>)
    ensures ShowsReports(SERVICES.Follow(None, reports), reports)
    decreases |reports|
  {
    if reports != [] {
      FollowShowsReports(reports[..|reports| - 1]);
    }
  }

  // The last message lists no service of that name.
  predicate Unlisted(messages: seq<seq<Service>>, id: string) {
    messages == [] || forall m :: m in messages[|messages| - 1] ==> m.id != id
  }

  /**
    Over any run of messages, a service has a row exactly while the last message lists it, and the row
    shows the identity, type and description as first reported since it last appeared and the state,
    enablement and display name as last reported.
  */
  lemma RowShowsFirstWithLast(messages: seq<seq<Service>>, id: string)
    ensures
      var row, reports := SERVICES.Find(SERVICES.Run(messages), id), SERVICES.Reports(messages, id);
      && (reports == [] <==> Unlisted(messages, id))
      && (forall i :: 0 <= i < |reports| ==> reports[i].id == id)
      && ShowsReports(row, reports)
  {
    SchemaIsValid();
    RowIsFromReports(SERVICES, messages, id);
    ReportsAreListed(SERVICES, messages, id);
    assert forall m: Service :: SERVICES.id(m) == m.id;
    FollowShowsReports(SERVICES.Reports(messages, id));
  }

  // ----- the list of service types -----

  class ServiceTypeList {
    var items: seq<string>

    constructor ()
      ensures items == []
    {
      items := [];
    }
  }

  // handle_service: types not seen before are appended, each once.
  method HandleService(types: ServiceTypeList, info: seq<string>)
    modifies types
    ensures types.items == old(types.items) + FirstOccurrences(info, Elements(old(types.items)))
  {
    ghost var known := types.items;
    for t := 0 to |info|
      invariant types.items == known + FirstOccurrences(info[..t], Elements(known))
    {
      var has := false;
      for a := 0 to |types.items|
        invariant has <==> info[t] in types.items[..a]
      {
        if types.items[a] == info[t] {
          has := true;
        }
      }
      assert types.items[..|types.items|] == types.items;
      NextType(known, info, t);
      if !has {
        types.items := types.items + [info[t]];
      }
    }
    assert info[..|info|] == info;
  }

  lemma NextType(known: seq<string>, info: seq<string>, t: nat)
    requires t < |info|
    ensures
      var items := known + FirstOccurrences(info[..t], Elements(known));
      known + FirstOccurrences(info[..t + 1], Elements(known)) == items + (if info[t] in items then [] else [info[t]])
  {
    var seen := Elements(known);
    var fresh_ := FirstOccurrences(info[..t], seen);
    assert info[..t + 1] == info[..t] + [info[t]];
    FirstOccurrencesConcat(info[..t], [info[t]], seen);
    FirstOccurrencesElements(info[..t], seen);
    ElementsConcat(known, fresh_);
    assert info[t] in known + fresh_ <==> info[t] in Elements(known + fresh_);
    assert Elements(known + fresh_) == seen + Elements(info[..t]);
  }
}
