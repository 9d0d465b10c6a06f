/**
  Order in the refresh protocol: which runs begin their cycles in order, and what an offline client
  looks like in them.
*/
module RefreshOrder {
  import opened Sums
  import opened RefreshProtocol
  import opened RefreshTheorems

  predicate Updating(t: Task) {
    t.Pinging? || t.Switching?
  }

  predicate NoneUpdating(ts: seq<Task>) {
    forall i :: 0 <= i < |ts| ==> !Updating(ts[i])
  }

  predicate TickFree(schedule: seq<Event>) {
    forall k :: 0 <= k < |schedule| ==> schedule[k].Go?
  }

  // Every cycle of the run begins with nothing in flight.
  predicate CleanTicks(c: Client, schedule: seq<Event>)
    requires Legal(c, schedule)
    decreases |schedule|
  {
    schedule != [] ==>
      && (schedule[0].Tick? && c.latch == 0 ==> c.tasks == [])
      && CleanTicks(Apply(c, schedule[0]), schedule[1..])
  }

  // Every cycle of the run begins with no other update_info in flight.
  predicate OneAtATime(c: Client, schedule: seq<Event>)
    requires Legal(c, schedule)
    decreases |schedule|
  {
    schedule != [] ==>
      && (schedule[0].Tick? && c.latch == 0 ==> NoneUpdating(c.tasks))
      && OneAtATime(Apply(c, schedule[0]), schedule[1..])
  }

  /**
    Runs without an overpayment are clean, and clean runs have one update_info at a time.
  */
  lemma {:induction false} UnpaidRunsAreClean(c: Client, schedule: seq<Event>)
    requires Sound(c) && Legal(c, schedule) && Exec(c, schedule).overpayments == 0
    ensures CleanTicks(c, schedule)
    decreases |schedule|
  {
    if schedule != [] {
      ScheduleSpendsRisk(c, schedule);
      StepKeepsSound(c, schedule[0]);
      OutstandingWeight(c.tasks);
      UnpaidRunsAreClean(Apply(c, schedule[0]), schedule[1..]);
    }
  }

  lemma {:induction false} CleanRunsAreOrderly(c: Client, schedule: seq<Event>)
    requires Legal(c, schedule) && CleanTicks(c, schedule)
    ensures OneAtATime(c, schedule)
    decreases |schedule|
  {
    if schedule != [] {
      CleanRunsAreOrderly(Apply(c, schedule[0]), schedule[1..]);
    }
  }

  // ----- the client while it is offline -----

  predicate IsSwitching(ts: seq<Task>) {
    |ts| == 1 && ts[0].Switching?
  }

  // How many actions of OFFLINE_CODE have been done, when ts is all that runs while offline.
  function Progress(ts: seq<Task>): int {
    if |ts| == 1 && ts[0].Running? then |OFFLINE_CODE| - |ts[0].code| else |OFFLINE_CODE|
  }

  predicate OfflineTasks(ts: seq<Task>) {
    || ts == []
    || ts == [Pinging]
    || ts == [Switching(Online)]
    || (|ts| == 1 && ts[0].Running? && 0 <= Progress(ts) < |OFFLINE_CODE|
        && ts[0].code == OFFLINE_CODE[Progress(ts)..])
  }

  predicate ResetUpTo(c: Client, done: int) {
    && (done >= 1 ==> c.hostname == c.defaultHostname)
    && (done >= 2 ==> !c.flags.adapters)
    && (done >= 3 ==> !c.flags.drives)
    && (done >= 4 ==> !c.flags.updates)
    && (done >= 5 ==> !c.flags.services)
  }

  // update_info runs alone until it has switched, and an offline client has only its own reset to do.
  predicate Orderly(c: Client) {
    && (c.tasks == [Pinging] || IsSwitching(c.tasks) || NoneUpdating(c.tasks))
    && (IsSwitching(c.tasks) ==> c.tasks[0].target != c.state && c.tasks[0].target != Unknown)
    && (c.state == Offline ==> OfflineTasks(c.tasks) && ResetUpTo(c, Progress(c.tasks)))
  }

  lemma PingKeepsOrder(c: Client, answer: State)
    requires Orderly(c) && c.tasks == [Pinging] && answer != Unknown
    ensures var (c', more) := Pinged(c, answer); Orderly(c'.(tasks := more))
  {
    assert OFFLINE_CODE[5..] == PAY_ALL_CODE;
  }

  lemma SwitchKeepsOrder(c: Client)
    requires Orderly(c) && IsSwitching(c.tasks)
    ensures var (c', more) := Perform(c, c.tasks[0], Proceed); Orderly(c'.(tasks := more))
  {
    assert OFFLINE_CODE[0..] == OFFLINE_CODE;
  }

  lemma OfflineCodeAt(n: nat)
    requires n < |OFFLINE_CODE|
    ensures
      OFFLINE_CODE[n]
      == if n == 0 then ResetHostname
         else if n == 1 then Clear(AdaptersFlag)
         else if n == 2 then Clear(DrivesFlag)
         else if n == 3 then Clear(UpdatesFlag)
         else if n == 4 then Clear(ServicesFlag)
         else CountDown
  {
  }

  // The reset of an offline client, one action at a time.
  lemma ResetKeepsOrder(c: Client, done: nat)
    requires c.state == Offline && done < |OFFLINE_CODE| && ResetUpTo(c, done)
    ensures
      var (c', more) := Run(c, OFFLINE_CODE[done..]);
      c'.state == Offline && OfflineTasks(more) && Progress(more) == done + 1 && ResetUpTo(c', done + 1)
  {
    OfflineCodeAt(done);
    var code := OFFLINE_CODE[done..];
    assert code[0] == OFFLINE_CODE[done] && code[1..] == OFFLINE_CODE[done + 1..];
    ActionResets(c, code, done);
  }

  lemma ActionResets(c: Client, code: seq<Instr>, done: nat)
    requires code != [] && ResetUpTo(c, done)
    requires
      code[0]
      == if done == 0 then ResetHostname
         else if done == 1 then Clear(AdaptersFlag)
         else if done == 2 then Clear(DrivesFlag)
         else if done == 3 then Clear(UpdatesFlag)
         else if done == 4 then Clear(ServicesFlag)
         else CountDown
    ensures
      var (c', more) := Run(c, code);
      c'.state == c.state && more == Start(code[1..]) && ResetUpTo(c', done + 1)
  {
  }

  lemma RunKeepsState(c: Client, t: Task, o: Outcome)
    requires Accepts(t, o) && !Updating(t)
    ensures
      var (c', more) := Perform(c, t, o);
      c'.state == c.state && c'.history == c.history && c'.signals == c.signals && NoneUpdating(more)
  {
  }

  lemma StepKeepsOrder(c: Client, e: Event)
    requires Orderly(c) && Enabled(c, e) && (e.Tick? && c.latch == 0 ==> c.tasks == [])
    ensures Orderly(Apply(c, e))
  {
    match e
    case Tick => assert c.tasks == [] ==> c.tasks + [Pinging] == [Pinging];
    case Go(i, o) =>
      var (c', more) := Perform(c, c.tasks[i], o);
      if c.tasks == [Pinging] {
        assert Replace(c.tasks, i, more) == more;
        PingKeepsOrder(c, if o.up then Online else Offline);
      } else if IsSwitching(c.tasks) {
        assert Replace(c.tasks, i, more) == more;
        SwitchKeepsOrder(c);
      } else {
        RunKeepsState(c, c.tasks[i], o);
        if c.state == Offline {
          assert Replace(c.tasks, i, more) == more;
          ResetKeepsOrder(c, Progress(c.tasks));
        }
      }
  }

  lemma {:induction false} ScheduleKeepsOrder(c: Client, schedule: seq<Event>)
    requires Orderly(c) && Legal(c, schedule) && CleanTicks(c, schedule)
    ensures Orderly(Exec(c, schedule))
    ensures Exec(c, schedule).defaultHostname == c.defaultHostname
    decreases |schedule|
  {
    if schedule != [] {
      StepKeepsOrder(c, schedule[0]);
      DefaultHostnameStays(c, schedule[0]);
      ScheduleKeepsOrder(Apply(c, schedule[0]), schedule[1..]);
    }
  }

  lemma DefaultHostnameStays(c: Client, e: Event)
    requires Enabled(c, e)
    ensures Apply(c, e).defaultHostname == c.defaultHostname
  {
  }

  predicate IsReset(c: Client) {
    c.flags == NO_FLAGS && c.hostname == c.defaultHostname
  }

  predicate IsRunning(t: Task) {
    t.Running?
  }

  // What an offline client promises, once its code has run.
  predicate OfflineIsReset(c: Client) {
    c.state == Offline && !Some(c.tasks, IsRunning) ==> IsReset(c)
  }

  /**
    In every run whose cycles begin with nothing in flight: while the client is offline and update_info
    is not in the middle of resetting it, all four availability flags are false and the hostname is the
    configured one.
  */
  lemma OfflineMeansReset(hostname: string, schedule: seq<Event>)
    requires Legal(Init(hostname), schedule) && CleanTicks(Init(hostname), schedule)
    ensures
      var c := Exec(Init(hostname), schedule);
      && c.defaultHostname == hostname
      && OfflineIsReset(c)
  {
    ScheduleKeepsOrder(Init(hostname), schedule);
  }

  // ----- what lasts until the next tick -----

  ghost predicate Stays(c: Client, p: Client -> bool) {
    forall s :: Legal(c, s) && TickFree(s) ==> p(Exec(c, s))
  }

  lemma EndsNow(c: Client, p: Client -> bool)
    requires !p(c)
    ensures !Stays(c, p)
  {
    assert Legal(c, []) && TickFree([]) && Exec(c, []) == c;
  }

  // What ends after an action did not last before it.
  lemma EndsAfter(c: Client, e: Event, p: Client -> bool)
    requires Enabled(c, e) && e.Go? && !Stays(Apply(c, e), p)
    ensures !Stays(c, p)
  {
    var rest :| Legal(Apply(c, e), rest) && TickFree(rest) && !p(Exec(Apply(c, e), rest));
    var s := [e] + rest;
    assert s[0] == e && s[1..] == rest;
    assert Legal(c, s) && TickFree(s) && Exec(c, s) == Exec(Apply(c, e), rest);
  }

  lemma TickFreeRest(s: seq<Event>)
    requires s != [] && TickFree(s)
    ensures s[0].Go? && TickFree(s[1..])
  {
    assert forall k :: 0 <= k < |s| - 1 ==> s[1..][k] == s[k + 1];
  }

  // ----- counting -----

  // How many update_infos are in flight.
  function UpdateOf(t: Task): int {
    if Updating(t) then 1 else 0
  }

  lemma {:induction false} NoneUpdatingIff(ts: seq<Task>)
    ensures Total(UpdateOf, ts) >= 0
    ensures NoneUpdating(ts) <==> Total(UpdateOf, ts) == 0
  {
    if ts != [] {
      NoneUpdatingIff(ts[1..]);
      assert forall i :: 0 < i < |ts| ==> ts[i] == ts[1..][i - 1];
    }
  }
}
