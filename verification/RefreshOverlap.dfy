/**
  Runs of the refresh protocol in which an overpaid cycle lets the next one begin beside it, and what
  such runs can lead to.
*/
module RefreshOverlap {
  import opened RefreshProtocol
  import opened RefreshTheorems
  import opened RefreshOrder
  import opened RefreshSignals
  import opened Sums

  // ----- extending a run -----

  // A run from c0, extended by one event.
  lemma Then(c0: Client, s: seq<Event>, e: Event) returns (s': seq<Event>)
    requires Legal(c0, s) && Enabled(Exec(c0, s), e)
    ensures Legal(c0, s') && Exec(c0, s') == Apply(Exec(c0, s), e)
  {
    s' := s + [e];
    ExecConcat(c0, s, [e]);
    var c := Apply(Exec(c0, s), e);
    assert [e][1..] == [];
    assert Legal(c, []) && Exec(c, []) == c;
  }

  // A tick that begins a cycle.
  lemma ThenTicks(c0: Client, s: seq<Event>, before: seq<Task>) returns (s': seq<Event>)
    requires Legal(c0, s) && Exec(c0, s).latch == 0 && Exec(c0, s).tasks == before
    ensures Legal(c0, s')
    ensures Exec(c0, s').latch == MAX_STEPS && Exec(c0, s').tasks == before + [Pinging] + []
    ensures Exec(c0, s').state == Exec(c0, s).state
  {
    s' := Then(c0, s, Tick);
    assert before + [Pinging] + [] == before + [Pinging];
  }

  // The task between two others acts.
  lemma ThenAt(c0: Client, s: seq<Event>, before: seq<Task>, t: Task, rest: seq<Task>, o: Outcome)
    returns (s': seq<Event>)
    requires Legal(c0, s) && Exec(c0, s).tasks == before + [t] + rest && Accepts(t, o)
    ensures Legal(c0, s')
    ensures var (c', more) := Perform(Exec(c0, s), t, o); Exec(c0, s') == c'.(tasks := before + more + rest)
  {
    s' := Then(c0, s, Go(|before|, o));
    var ts, more := before + [t] + rest, Perform(Exec(c0, s), t, o).1;
    assert ts[..|before|] == before && ts[|before| + 1..] == rest;
  }

  lemma ThenPays(c0: Client, s: seq<Event>, before: seq<Task>, rest: seq<Task>) returns (s': seq<Event>)
    requires Legal(c0, s) && Exec(c0, s).tasks == before + [Running([CountDown])] + rest && Exec(c0, s).latch > 0
    ensures Legal(c0, s')
    ensures Exec(c0, s') == Exec(c0, s).(latch := Exec(c0, s).latch - 1, tasks := before + rest)
  {
    s' := ThenAt(c0, s, before, Running([CountDown]), rest, Proceed);
    assert before + [] + rest == before + rest;
  }

  lemma ThenThrows(c0: Client, s: seq<Event>, before: seq<Task>, w: Endpoint, k: Control, rest: seq<Task>)
    returns (s': seq<Event>)
    requires Legal(c0, s) && Exec(c0, s).tasks == before + [Fetching(w, k)] + rest && Exec(c0, s).latch > 0
    requires w != Service
    ensures Legal(c0, s')
    ensures Exec(c0, s') == Exec(c0, s).(latch := Exec(c0, s).latch - 1, tasks := before + rest)
  {
    s' := ThenAt(c0, s, before, Fetching(w, k), rest, Throws);
    s' := ThenPays(c0, s', before, rest);
  }

  // The adapters fetch is answered 501 and pays twice.
  lemma ThenOverpays(c0: Client, s: seq<Event>, before: seq<Task>, rest: seq<Task>) returns (s': seq<Event>)
    requires Legal(c0, s) && Exec(c0, s).latch > 1
    requires Exec(c0, s).tasks == before + [Fetching(Adapters, Controls(AdaptersFlag))] + rest
    ensures Legal(c0, s')
    ensures Exec(c0, s').tasks == before + rest && Exec(c0, s').latch == Exec(c0, s).latch - 2
    ensures Exec(c0, s').state == Exec(c0, s).state
  {
    s' := ThenAt(c0, s, before, Fetching(Adapters, Controls(AdaptersFlag)), rest, Status(true));
    s' := ThenAt(c0, s', before, Running([CountDown, CountDown]), rest, Proceed);
    assert [CountDown, CountDown][1..] == [CountDown];
    s' := ThenPays(c0, s', before, rest);
  }

  // The /service fetch succeeds and is handled.
  lemma ThenHandled(c0: Client, s: seq<Event>, before: seq<Task>, rest: seq<Task>) returns (s': seq<Event>)
    requires Legal(c0, s) && Exec(c0, s).tasks == before + [Fetching(Service, Controls(ServicesFlag))] + rest
    ensures Legal(c0, s')
    ensures Exec(c0, s').tasks == before + [Running([CountDown, Issue(Services, DontCare)])] + rest
    ensures Exec(c0, s').latch == Exec(c0, s).latch && Exec(c0, s').state == Exec(c0, s).state
  {
    s' := ThenAt(c0, s, before, Fetching(Service, Controls(ServicesFlag)), rest, Accepted);
    s' := ThenAt(c0, s', before, Parsing(Service), rest, Accepted);
    s' := ThenAt(c0, s', before, Queued(Service), rest, Proceed);
  }

  // And the /services fetch it leads to throws.
  lemma ThenServes(c0: Client, s: seq<Event>, before: seq<Task>, rest: seq<Task>) returns (s': seq<Event>)
    requires Legal(c0, s) && Exec(c0, s).latch > 1
    requires Exec(c0, s).tasks == before + [Fetching(Service, Controls(ServicesFlag))] + rest
    ensures Legal(c0, s')
    ensures Exec(c0, s').tasks == before + rest && Exec(c0, s').latch == Exec(c0, s).latch - 2
    ensures Exec(c0, s').state == Exec(c0, s).state
  {
    s' := ThenHandled(c0, s, before, rest);
    s' := ThenAt(c0, s', before, Running([CountDown, Issue(Services, DontCare)]), rest, Proceed);
    assert [CountDown, Issue(Services, DontCare)][1..] == [Issue(Services, DontCare)];
    s' := ThenAt(c0, s', before, Running([Issue(Services, DontCare)]), rest, Proceed);
    assert [Issue(Services, DontCare)][1..] == [];
    s' := ThenThrows(c0, s', before, Services, DontCare, rest);
  }

  // ----- a client coming online, issuing all five fetches -----

  lemma ThenIssues(c0: Client, s: seq<Event>, before: seq<Task>, n: nat, rest: seq<Task>) returns (s': seq<Event>)
    requires Legal(c0, s) && n < 5 && Exec(c0, s).tasks == before + [Running(ONLINE_CODE[n..])] + rest
    ensures Legal(c0, s')
    ensures Exec(c0, s').latch == Exec(c0, s).latch && Exec(c0, s').state == Exec(c0, s).state
    ensures Exec(c0, s').tasks == before + Issued(n) + rest
    decreases 5 - n
  {
    var fetch := OnlineFetch(n);
    s' := ThenAt(c0, s, before, Running(ONLINE_CODE[n..]), rest, Proceed);
    assert n < 4 ==> Start(ONLINE_CODE[n + 1..]) == [Running(ONLINE_CODE[n + 1..])];
    if n < 4 {
      var code := [Running(ONLINE_CODE[n + 1..])];
      assert before + (code + [fetch]) + rest == before + code + ([fetch] + rest);
      s' := ThenIssues(c0, s', before, n + 1, [fetch] + rest);
      assert before + Issued(n + 1) + ([fetch] + rest) == before + (Issued(n + 1) + [fetch]) + rest;
    } else {
      assert [] + [fetch] == [fetch];
    }
  }

  // The fetch that an action of that code issues.
  lemma OnlineFetch(n: nat) returns (fetch: Task)
    requires n < 5
    ensures ONLINE_CODE[n].Issue? && fetch == Fetching(ONLINE_CODE[n].what, ONLINE_CODE[n].control)
    ensures ONLINE_CODE[n..] != [] && ONLINE_CODE[n..][0] == ONLINE_CODE[n]
    ensures ONLINE_CODE[n..][1..] == ONLINE_CODE[n + 1..]
  {
    fetch := Fetching(ONLINE_CODE[n].what, ONLINE_CODE[n].control);
  }

  function Issued(n: nat): seq<Task>
    requires n < 5
    decreases 5 - n
  {
    var fetch := [Fetching(ONLINE_CODE[n].what, ONLINE_CODE[n].control)];
    if n == 4 then fetch else Issued(n + 1) + fetch
  }

  lemma AllIssued()
    ensures Issued(0) == [
      Fetching(Adapters, Controls(AdaptersFlag)),
      Fetching(Updates, Controls(UpdatesFlag)),
      Fetching(Drives, Controls(DrivesFlag)),
      Fetching(Service, Controls(ServicesFlag)),
      Fetching(System, DontCare)]
  {
    assert Issued(3) == Issued(4) + [Fetching(Updates, Controls(UpdatesFlag))];
    assert Issued(2) == Issued(3) + [Fetching(Drives, Controls(DrivesFlag))];
    assert Issued(1) == Issued(2) + [Fetching(Service, Controls(ServicesFlag))];
  }

  lemma ThenComesOnline(c0: Client, s: seq<Event>, before: seq<Task>) returns (s': seq<Event>)
    requires Legal(c0, s) && Exec(c0, s).latch == 0 && Exec(c0, s).tasks == before && Exec(c0, s).state != Online
    ensures Legal(c0, s')
    ensures Exec(c0, s').latch == MAX_STEPS && Exec(c0, s').state == Online
    ensures Exec(c0, s').tasks == before + Issued(0) + []
  {
    s' := ThenTicks(c0, s, before);
    s' := ThenAt(c0, s', before, Pinging, [], PingAnswer(true));
    s' := ThenAt(c0, s', before, Switching(Online), [], Proceed);
    assert ONLINE_CODE[0..] == ONLINE_CODE;
    s' := ThenIssues(c0, s', before, 0, []);
  }

  // All are answered but the /system fetch, and the adapters fetch overpays: the latch is at zero again.
  lemma ThenAllButOne(c0: Client, s: seq<Event>, before: seq<Task>) returns (s': seq<Event>)
    requires Legal(c0, s) && Exec(c0, s).latch == MAX_STEPS && Exec(c0, s).tasks == before + Issued(0) + []
    ensures Legal(c0, s')
    ensures Exec(c0, s').latch == 0 && Exec(c0, s').state == Exec(c0, s).state
    ensures Exec(c0, s').tasks == before + [Fetching(System, DontCare)]
  {
    AllIssued();
    var ts := Issued(0);
    Next(before, ts);
    s' := ThenOverpays(c0, s, before, ts[1..]);
    Next(before, ts[1..]);
    s' := ThenThrows(c0, s', before, Updates, Controls(UpdatesFlag), ts[2..]);
    Next(before, ts[2..]);
    s' := ThenThrows(c0, s', before, Drives, Controls(DrivesFlag), ts[3..]);
    Next(before, ts[3..]);
    s' := ThenServes(c0, s', before, ts[4..]);
  }

  lemma Next(before: seq<Task>, ts: seq<Task>)
    requires ts != []
    ensures before + ts == before + [ts[0]] + ts[1..] && before + ts + [] == before + ts
  {
  }

  // ----- a client going offline -----

  // The rest of the code of a client gone offline is run.
  lemma ThenResets(c0: Client, s: seq<Event>, before: seq<Task>, n: nat) returns (s': seq<Event>)
    requires Legal(c0, s) && n < |OFFLINE_CODE|
    requires Exec(c0, s).latch == if n <= 5 then MAX_STEPS else |OFFLINE_CODE| - n
    requires Exec(c0, s).tasks == before + [Running(OFFLINE_CODE[n..])] + []
    ensures Legal(c0, s')
    ensures Exec(c0, s').tasks == before && Exec(c0, s').latch == 0
    ensures Exec(c0, s').state == Exec(c0, s).state
    decreases |OFFLINE_CODE| - n
  {
    OfflineCodeAt(n);
    var code := OFFLINE_CODE[n..];
    assert code[0] == OFFLINE_CODE[n] && code[1..] == OFFLINE_CODE[n + 1..];
    s' := ThenAt(c0, s, before, Running(code), [], Proceed);
    assert |OFFLINE_CODE| == 11;
    if n + 1 < |OFFLINE_CODE| {
      s' := ThenResets(c0, s', before, n + 1);
    } else {
      assert before + [] + [] == before;
    }
  }

  lemma ThenGoesOffline(c0: Client, s: seq<Event>, before: seq<Task>) returns (s': seq<Event>)
    requires Legal(c0, s) && Exec(c0, s).latch == 0 && Exec(c0, s).tasks == before && Exec(c0, s).state == Online
    ensures Legal(c0, s')
    ensures Exec(c0, s').latch == 0 && Exec(c0, s').state == Offline && Exec(c0, s').tasks == before
  {
    s' := ThenTicks(c0, s, before);
    s' := ThenAt(c0, s', before, Pinging, [], PingAnswer(false));
    s' := ThenAt(c0, s', before, Switching(Offline), [], Proceed);
    assert OFFLINE_CODE[0..] == OFFLINE_CODE;
    s' := ThenResets(c0, s', before, 0);
  }

  // ----- what overlapping cycles can lead to -----

  /**
    An overpaid cycle can leave the latch at zero with a fetch still in flight, so that a tick begins
    a second cycle beside it.
  */
  lemma CyclesCanOverlap(hostname: string) returns (s: seq<Event>)
    ensures Legal(Init(hostname), s)
    ensures Exec(Init(hostname), s).tasks == [Fetching(System, DontCare), Pinging]
  {
    var c0 := Init(hostname);
    s := ThenLeavesOne(c0, [], []);
    s := ThenTicks(c0, s, [Fetching(System, DontCare)]);
  }

  // A whole cycle that comes online and leaves the /system fetch in flight.
  lemma ThenLeavesOne(c0: Client, s: seq<Event>, before: seq<Task>) returns (s': seq<Event>)
    requires Legal(c0, s) && Exec(c0, s).latch == 0 && Exec(c0, s).tasks == before && Exec(c0, s).state != Online
    ensures Legal(c0, s')
    ensures Exec(c0, s').latch == 0 && Exec(c0, s').state == Online
    ensures Exec(c0, s').tasks == before + [Fetching(System, DontCare)]
  {
    s' := ThenComesOnline(c0, s, before);
    s' := ThenAllButOne(c0, s', before);
  }

  /**
    Then an offline client with nothing left to do can show any hostname: a fetch of the first cycle
    answers after the second has gone offline and reset it.
  */
  lemma OfflineCanShowAHostname(hostname: string, other: string) returns (s: seq<Event>)
    ensures Legal(Init(hostname), s)
    ensures var c := Exec(Init(hostname), s); c.state == Offline && c.tasks == [] && c.hostname == other
  {
    var c0, fetch := Init(hostname), Fetching(System, DontCare);
    s := ThenLeavesOne(c0, [], []);
    s := ThenGoesOffline(c0, s, [fetch]);
    assert [fetch] == [] + [fetch] + [];
    s := ThenAt(c0, s, [], fetch, [], Accepted);
    s := ThenAt(c0, s, [], Parsing(System), [], Accepted);
    s := ThenAt(c0, s, [], Queued(System), [], Message(other));
    s := ThenAt(c0, s, [], Running([CountDown]), [], Proceed);
  }

  // The same fetch left in flight n times.
  function Stale(n: nat): seq<Task> {
    seq(n, _ => Fetching(System, DontCare))
  }

  lemma {:induction false} ThenLeavesMany(c0: Client, s: seq<Event>, n: nat) returns (s': seq<Event>)
    requires Legal(c0, s) && Exec(c0, s).latch == 0 && Exec(c0, s).tasks == [] && Exec(c0, s).state != Online
    ensures Legal(c0, s')
    ensures Exec(c0, s').latch == 0 && Exec(c0, s').tasks == Stale(n) && Exec(c0, s').state != Online
    ensures n > 0 ==> Exec(c0, s').state == Offline
  {
    if n == 0 {
      s' := s;
    } else {
      s' := ThenLeavesMany(c0, s, n - 1);
      s' := ThenLeavesOne(c0, s', Stale(n - 1));
      assert Stale(n - 1) + [Fetching(System, DontCare)] == Stale(n);
      s' := ThenGoesOffline(c0, s', Stale(n));
    }
  }

  // They all throw, beside a ping.
  lemma {:induction false} ThenAllThrow(c0: Client, s: seq<Event>, n: nat) returns (s': seq<Event>)
    requires Legal(c0, s) && Exec(c0, s).latch == n && Exec(c0, s).tasks == Stale(n) + [Pinging]
    ensures Legal(c0, s')
    ensures Exec(c0, s') == Exec(c0, s).(latch := 0, tasks := [Pinging])
    decreases n
  {
    if n == 0 {
      s' := s;
      assert Stale(0) + [Pinging] == [Pinging];
    } else {
      assert Stale(n) + [Pinging] == [] + [Fetching(System, DontCare)] + (Stale(n - 1) + [Pinging]);
      s' := ThenThrows(c0, s, [], System, DontCare, Stale(n - 1) + [Pinging]);
      assert [] + (Stale(n - 1) + [Pinging]) == Stale(n - 1) + [Pinging];
      s' := ThenAllThrow(c0, s', n - 1);
    }
  }

  /**
    After six overpaid cycles that each leave a fetch behind, those fetches can pay a seventh cycle's
    latch while its ping is still out; so two update_infos are in flight, and can both signal the same
    change.
  */
  lemma SignalsCanRepeat(hostname: string) returns (s: seq<Event>)
    ensures Legal(Init(hostname), s)
    ensures !Alternating(Exec(Init(hostname), s).signals)
  {
    var c0 := Init(hostname);
    s := ThenLeavesMany(c0, [], MAX_STEPS);
    s := ThenTicks(c0, s, Stale(MAX_STEPS));
    assert Stale(MAX_STEPS) + [Pinging] + [] == Stale(MAX_STEPS) + [Pinging];
    s := ThenAllThrow(c0, s, MAX_STEPS);
    s := ThenTicks(c0, s, [Pinging]);
    var c := Exec(c0, s);
    assert c.tasks == [Pinging, Pinging];
    TwoAnswers(c, 0, 1);
    var more :| Legal(c, more) && TickFree(more) && !SignalsAlternateIn(Exec(c, more));
    ExecConcat(c0, s, more);
    s := s + more;
  }
}
