/**
  What can undo a reset of the refresh protocol before the next tick, with cycles that overlap or not.
*/
module RefreshReset {
  import opened Sums
  import opened RefreshProtocol
  import opened RefreshTheorems
  import opened RefreshOrder

  // ----- tasks that can write -----

  // A fetch that would write a flag or the hostname if it succeeded.
  predicate WritingFetch(what: Endpoint, control: Control) {
    what == System || control.Controls?
  }

  // A task that can still write a flag or the hostname, without another tick.
  predicate CanWrite(t: Task) {
    match t
    case Fetching(w, k) => WritingFetch(w, k)
    case Parsing(w) => w == System
    case Queued(w) => w == System
    case Running(code) => Some(code, Issues)
    case _ => false
  }

  predicate Issues(i: Instr) {
    i.Issue? && WritingFetch(i.what, i.control)
  }

  // A task that is no update_info and cannot write leaves a reset client reset, and starts no writer.
  lemma PerformKeepsReset(c: Client, t: Task, o: Outcome)
    requires IsReset(c) && Accepts(t, o) && !Updating(t) && !CanWrite(t)
    ensures
      var (c', more) := Perform(c, t, o);
      IsReset(c') && c'.state == c.state && !Some(more, CanWrite) && !Some(more, Updating)
  {
    if t.Running? {
      assert !Issues(t.code[0]);
      RestIssues(t.code);
    }
  }

  lemma RestIssues(code: seq<Instr>)
    requires code != []
    ensures Some(code, Issues) <==> Issues(code[0]) || Some(code[1..], Issues)
  {
    if Some(code, Issues) {
      var k :| 0 <= k < |code| && Issues(code[k]);
      assert k > 0 ==> Issues(code[1..][k - 1]);
    }
    if Some(code[1..], Issues) {
      var k :| 0 <= k < |code[1..]| && Issues(code[1..][k]);
      assert Issues(code[k + 1]);
    }
  }

  // ----- with no update_info in flight -----

  // Reset, with no update_info in flight and nothing that can write.
  predicate Settled(c: Client) {
    IsReset(c) && !Some(c.tasks, CanWrite) && !Some(c.tasks, Updating)
  }

  lemma {:induction false} SettledStays(c: Client, schedule: seq<Event>)
    requires Settled(c) && Legal(c, schedule) && TickFree(schedule)
    ensures Settled(Exec(c, schedule))
    decreases |schedule|
  {
    if schedule != [] {
      var e := schedule[0];
      TickFreeRest(schedule);
      PerformKeepsReset(c, c.tasks[e.task], e.outcome);
      SomeReplace(c.tasks, e.task, Perform(c, c.tasks[e.task], e.outcome).1, CanWrite);
      SomeReplace(c.tasks, e.task, Perform(c, c.tasks[e.task], e.outcome).1, Updating);
      SettledStays(Apply(c, e), schedule[1..]);
    }
  }

  function WriteSteps(t: Task): nat {
    match t
    case Running(code) => 3 + |code|
    case Fetching(_, _) => 3
    case Parsing(_) => 2
    case _ => 1
  }

  // The task at position i, made to write.
  lemma {:induction false} WriterWrites(c: Client, i: nat)
    requires c.flags == NO_FLAGS && i < |c.tasks| && CanWrite(c.tasks[i])
    ensures !Stays(c, IsReset)
    decreases WriteSteps(c.tasks[i]), 1
  {
    match c.tasks[i] {
      case Queued(_) => Write(c, i, Message(c.defaultHostname + "x"));
      case Parsing(_) => WriteOn(c, i, Accepted, i);
      case Fetching(_, Controls(_)) => Write(c, i, Accepted);
      case Fetching(_, DontCare) => WriteOn(c, i, Accepted, i);
      case Running(code) =>
        RestIssues(code);
        if Issues(code[0]) {
          var rest := Start(code[1..]);
          assert Replace(c.tasks, i, rest + [Fetching(code[0].what, code[0].control)])[i + |rest|]
              == Fetching(code[0].what, code[0].control);
          WriteOn(c, i, Proceed, i + |rest|);
        } else {
          WriteOn(c, i, Proceed, i);
        }
    }
  }

  // An action that writes.
  lemma Write(c: Client, i: nat, o: Outcome)
    requires Enabled(c, Go(i, o)) && !IsReset(Apply(c, Go(i, o)))
    ensures !Stays(c, IsReset)
  {
    EndsNow(Apply(c, Go(i, o)), IsReset);
    EndsAfter(c, Go(i, o), IsReset);
  }

  // An action after which the task at position j can write, and is nearer to it.
  lemma {:induction false} WriteOn(c: Client, i: nat, o: Outcome, j: nat)
    requires c.flags == NO_FLAGS && Enabled(c, Go(i, o))
    requires
      var c' := Apply(c, Go(i, o));
      && c'.flags == NO_FLAGS && j < |c'.tasks| && CanWrite(c'.tasks[j])
      && WriteSteps(c'.tasks[j]) < WriteSteps(c.tasks[i])
    ensures !Stays(c, IsReset)
    decreases WriteSteps(c.tasks[i]), 0
  {
    WriterWrites(Apply(c, Go(i, o)), j);
    EndsAfter(c, Go(i, o), IsReset);
  }

  /**
    Exactly when a reset lasts.  A client that has been reset, with no update_info in flight, stays so
    whatever happens before the next tick, if and only if no task in flight can still write: no /system
    fetch or its answer, no fetch that controls a flag, and no code that issues one of those.
  */
  lemma ResetLastsIff(c: Client)
    requires IsReset(c) && !Some(c.tasks, Updating)
    ensures Stays(c, IsReset) <==> !Some(c.tasks, CanWrite)
  {
    if Some(c.tasks, CanWrite) {
      var i :| 0 <= i < |c.tasks| && CanWrite(c.tasks[i]);
      WriterWrites(c, i);
    } else {
      forall s | Legal(c, s) && TickFree(s)
        ensures IsReset(Exec(c, s))
      {
        SettledStays(c, s);
      }
    }
  }

  // ----- with update_infos in flight -----

  predicate GoesOnline(t: Task) {
    t.Pinging? || (t.Switching? && t.target != Offline)
  }

  predicate GoesOffline(t: Task) {
    t.Pinging? || (t.Switching? && t.target == Offline)
  }

  function OnlineOf(t: Task): int {
    if GoesOnline(t) then 1 else 0
  }

  function OfflineOf(t: Task): int {
    if GoesOffline(t) then 1 else 0
  }

  // Of the update_infos in flight one can still go online and another offline.
  predicate Flips(ts: seq<Task>) {
    Total(OnlineOf, ts) >= 1 && Total(OfflineOf, ts) >= 1 && Total(UpdateOf, ts) >= 2
  }

  lemma {:induction false} Counts(ts: seq<Task>)
    ensures 0 <= Total(OnlineOf, ts) <= Total(UpdateOf, ts)
    ensures 0 <= Total(OfflineOf, ts) <= Total(UpdateOf, ts)
    ensures !Some(ts, Updating) ==> Total(UpdateOf, ts) == 0
  {
    if ts != [] {
      Counts(ts[1..]);
      assert !Some(ts, Updating) ==> !Updating(ts[0]);
      assert forall k :: 0 <= k < |ts| - 1 ==> ts[1..][k] == ts[k + 1];
    }
  }

  lemma CountsReplace(ts: seq<Task>, i: nat, more: seq<Task>)
    requires i < |ts|
    ensures Total(OnlineOf, Replace(ts, i, more)) == Total(OnlineOf, ts) - OnlineOf(ts[i]) + Total(OnlineOf, more)
    ensures Total(OfflineOf, Replace(ts, i, more)) == Total(OfflineOf, ts) - OfflineOf(ts[i]) + Total(OfflineOf, more)
    ensures Total(UpdateOf, Replace(ts, i, more)) == Total(UpdateOf, ts) - UpdateOf(ts[i]) + Total(UpdateOf, more)
  {
    TotalReplace(OnlineOf, ts, i, more);
    TotalReplace(OfflineOf, ts, i, more);
    TotalReplace(UpdateOf, ts, i, more);
  }

  // Reset and with nothing to undo it; or no longer offline, and not to be so again.
  predicate Calm(c: Client) {
    if c.state == Offline then IsReset(c) && !Some(c.tasks, CanWrite) && !Flips(c.tasks)
    else Total(OfflineOf, c.tasks) == 0
  }

  lemma PingKeepsCalm(c: Client, i: nat, up: bool)
    requires Calm(c) && c.state == Offline && i < |c.tasks| && c.tasks[i].Pinging?
    ensures Calm(Apply(c, Go(i, PingAnswer(up))))
  {
    var more := Pinged(c, if up then Online else Offline).1;
    assert !Some(PAY_ALL_CODE, Issues);
    SomeReplace(c.tasks, i, more, CanWrite);
    Counts(c.tasks);
    Counts(Replace(c.tasks, i, more));
    CountsReplace(c.tasks, i, more);
  }

  lemma SwitchKeepsCalm(c: Client, i: nat)
    requires Calm(c) && i < |c.tasks| && c.tasks[i].Switching?
    ensures Calm(Apply(c, Go(i, Proceed)))
  {
    var more := Perform(c, c.tasks[i], Proceed).1;
    assert !Some(OFFLINE_CODE, Issues);
    SomeReplace(c.tasks, i, more, CanWrite);
    Counts(c.tasks);
    Counts(Replace(c.tasks, i, more));
    CountsReplace(c.tasks, i, more);
  }

  lemma StepKeepsCalm(c: Client, i: nat, o: Outcome)
    requires Calm(c) && Enabled(c, Go(i, o))
    ensures Calm(Apply(c, Go(i, o)))
  {
    var t := c.tasks[i];
    var more := Perform(c, t, o).1;
    Counts(c.tasks);
    Counts(more);
    CountsReplace(c.tasks, i, more);
    if t.Switching? {
      SwitchKeepsCalm(c, i);
    } else if c.state == Offline {
      if t.Pinging? {
        PingKeepsCalm(c, i, o.up);
      } else {
        PerformKeepsReset(c, t, o);
        SomeReplace(c.tasks, i, more, CanWrite);
      }
    } else {
      Counts(Replace(c.tasks, i, []));
      CountsReplace(c.tasks, i, []);
      StartsNone(c, t, o);
    }
  }

  lemma StartsNone(c: Client, t: Task, o: Outcome)
    requires Accepts(t, o) && !Updating(t)
    ensures !Some(Perform(c, t, o).1, Updating) && Perform(c, t, o).0.state == c.state
  {
  }

  lemma {:induction false} CalmStays(c: Client, schedule: seq<Event>)
    requires Calm(c) && Legal(c, schedule) && TickFree(schedule)
    ensures Calm(Exec(c, schedule))
    decreases |schedule|
  {
    if schedule != [] {
      TickFreeRest(schedule);
      StepKeepsCalm(c, schedule[0].task, schedule[0].outcome);
      CalmStays(Apply(c, schedule[0]), schedule[1..]);
    }
  }

  // ----- how a reset is undone -----

  function CodeOf(t: Task): int {
    if t.Running? then |t.code| else 0
  }

  // With no code running, a write is there to stay.
  lemma {:induction false} LateWrite(c: Client, i: nat)
    requires c.state == Offline && !Some(c.tasks, IsRunning) && IsReset(c)
    requires i < |c.tasks| && CanWrite(c.tasks[i])
    ensures !Stays(c, OfflineIsReset)
    decreases WriteSteps(c.tasks[i])
  {
    var o := if c.tasks[i].Queued? then Message(c.defaultHostname + "x") else Accepted;
    assert !IsRunning(c.tasks[i]);
    var c1, more := Apply(c, Go(i, o)), Perform(c, c.tasks[i], o).1;
    SomeReplace(c.tasks, i, more, IsRunning);
    if c.tasks[i].Queued? {
      var c2 := Apply(c1, Go(i, Proceed));
      assert c1.tasks == c.tasks[i := Running([CountDown])];
      assert c2.tasks == Replace(c.tasks, i, []);
      SomeReplace(c.tasks, i, [], IsRunning);
      EndsNow(c2, OfflineIsReset);
      EndsAfter(c1, Go(i, Proceed), OfflineIsReset);
    } else if c.tasks[i].Fetching? && c.tasks[i].control.Controls? {
      EndsNow(c1, OfflineIsReset);
    } else {
      LateWrite(c1, i);
    }
    EndsAfter(c, Go(i, o), OfflineIsReset);
  }

  // Code that runs keeps what it is going to write.
  lemma RunKeepsWriter(c: Client, code: seq<Instr>)
    requires code != [] && Some(code, Issues)
    ensures Some(Run(c, code).1, CanWrite)
  {
    var more := Run(c, code).1;
    RestIssues(code);
    if Issues(code[0]) {
      assert CanWrite(more[|more| - 1]);
    } else {
      assert CanWrite(more[0]);
    }
  }

  lemma RunShortens(c: Client, code: seq<Instr>)
    requires code != []
    ensures Total(CodeOf, Run(c, code).1) == |code| - 1
    ensures Run(c, code).0.state == c.state
  {
    TotalConcat(CodeOf, Start(code[1..]), if code[0].Issue? then [Fetching(code[0].what, code[0].control)] else []);
    if code[0].IssueIf? {
      TotalConcat(CodeOf, Start(code[1..]), [Fetching(code[0].plain, DontCare)]);
    }
  }

  lemma CodesNonNegative(ts: seq<Task>)
    ensures Total(CodeOf, ts) >= 0
  {
    TotalNonNegative(CodeOf, ts);
  }

  // First all code runs out, then the writer writes.
  lemma {:induction false} WriterUndoes(c: Client)
    requires c.state == Offline && AllPay(c.tasks) && Some(c.tasks, CanWrite)
    ensures !Stays(c, OfflineIsReset)
    decreases Total(CodeOf, c.tasks)
  {
    if Some(c.tasks, IsRunning) {
      var i :| 0 <= i < |c.tasks| && IsRunning(c.tasks[i]);
      var t := c.tasks[i];
      assert Pays(t);
      var more := Run(c, t.code).1;
      SomeReplace(c.tasks, i, more, CanWrite);
      if CanWrite(t) {
        RunKeepsWriter(c, t.code);
      }
      PerformKeepsPaying(c, t, Proceed);
      ReplaceKeepsPaying(c.tasks, i, more);
      RunShortens(c, t.code);
      TotalReplace(CodeOf, c.tasks, i, more);
      CodesNonNegative(Replace(c.tasks, i, more));
      WriterUndoes(Apply(c, Go(i, Proceed)));
      EndsAfter(c, Go(i, Proceed), OfflineIsReset);
    } else if IsReset(c) {
      var i :| 0 <= i < |c.tasks| && CanWrite(c.tasks[i]);
      LateWrite(c, i);
    } else {
      EndsNow(c, OfflineIsReset);
    }
  }

  lemma {:induction false} SomeCounted(ts: seq<Task>, p: Task -> bool, f: Task -> int)
    requires forall t :: f(t) == if p(t) then 1 else 0
    requires Total(f, ts) >= 1
    ensures Some(ts, p)
  {
    if !p(ts[0]) {
      SomeCounted(ts[1..], p, f);
      var k :| 0 <= k < |ts[1..]| && p(ts[1..][k]);
      assert p(ts[k + 1]);
    }
  }

  lemma {:induction false} TwoUpdating(ts: seq<Task>) returns (i: nat, j: nat)
    requires Total(UpdateOf, ts) >= 2
    ensures i < j < |ts| && Updating(ts[i]) && Updating(ts[j])
  {
    if Updating(ts[0]) {
      SomeCounted(ts[1..], Updating, UpdateOf);
      var k :| 0 <= k < |ts[1..]| && Updating(ts[1..][k]);
      i, j := 0, k + 1;
    } else {
      i, j := TwoUpdating(ts[1..]);
      i, j := i + 1, j + 1;
    }
  }

  // Two different ones, then.
  lemma Flippers(ts: seq<Task>) returns (i: nat, j: nat)
    requires Flips(ts)
    ensures i < |ts| && j < |ts| && i != j && GoesOnline(ts[i]) && GoesOffline(ts[j])
  {
    var a, b := TwoUpdating(ts);
    if GoesOnline(ts[a]) && GoesOffline(ts[b]) {
      i, j := a, b;
    } else if GoesOffline(ts[a]) && GoesOnline(ts[b]) {
      i, j := b, a;
    } else if GoesOnline(ts[a]) {
      SomeCounted(ts, GoesOffline, OfflineOf);
      var k :| 0 <= k < |ts| && GoesOffline(ts[k]);
      i, j := a, k;
    } else {
      SomeCounted(ts, GoesOnline, OnlineOf);
      var k :| 0 <= k < |ts| && GoesOnline(ts[k]);
      i, j := k, a;
    }
  }

  // An update_info that has decided, at the same place.
  lemma Switches(c: Client, i: nat, target: State)
    requires AllPay(c.tasks) && i < |c.tasks| && c.tasks[i] == Switching(target)
    ensures
      var c' := Apply(c, Go(i, Proceed));
      && c'.state == target && AllPay(c'.tasks)
      && c'.tasks == c.tasks[i := Running(if target == Offline then OFFLINE_CODE else ONLINE_CODE)]
  {
    PerformKeepsPaying(c, c.tasks[i], Proceed);
    ReplaceKeepsPaying(c.tasks, i, Perform(c, c.tasks[i], Proceed).1);
  }

  lemma Decides(c: Client, i: nat, up: bool)
    requires AllPay(c.tasks) && i < |c.tasks| && c.tasks[i].Pinging?
    requires (if up then Online else Offline) != c.state
    ensures
      var c' := Apply(c, Go(i, PingAnswer(up)));
      && c'.state == c.state && AllPay(c'.tasks)
      && c'.tasks == c.tasks[i := Switching(if up then Online else Offline)]
  {
  }

  // The last one goes offline, while the fetches of the one before are in flight.
  lemma GoesOfflineLast(c: Client, i: nat, j: nat)
    requires c.state != Offline && AllPay(c.tasks) && i < |c.tasks| && j < |c.tasks| && i != j
    requires c.tasks[i] == Running(ONLINE_CODE) && GoesOffline(c.tasks[j])
    ensures !Stays(c, OfflineIsReset)
    decreases if c.tasks[j].Pinging? then 1 else 0
  {
    if c.tasks[j].Pinging? {
      Decides(c, j, false);
      GoesOfflineLast(Apply(c, Go(j, PingAnswer(false))), i, j);
      EndsAfter(c, Go(j, PingAnswer(false)), OfflineIsReset);
    } else {
      Switches(c, j, Offline);
      var c' := Apply(c, Go(j, Proceed));
      assert Issues(ONLINE_CODE[0]) && CanWrite(c'.tasks[i]);
      WriterUndoes(c');
      EndsAfter(c, Go(j, Proceed), OfflineIsReset);
    }
  }

  lemma FlipUndoes(c: Client, i: nat, j: nat)
    requires c.state == Offline && AllPay(c.tasks) && i < |c.tasks| && j < |c.tasks| && i != j
    requires GoesOnline(c.tasks[i]) && GoesOffline(c.tasks[j])
    ensures !Stays(c, OfflineIsReset)
    decreases if c.tasks[i].Pinging? then 1 else 0
  {
    if c.tasks[i].Pinging? {
      Decides(c, i, true);
      FlipUndoes(Apply(c, Go(i, PingAnswer(true))), i, j);
      EndsAfter(c, Go(i, PingAnswer(true)), OfflineIsReset);
    } else {
      Switches(c, i, c.tasks[i].target);
      GoesOfflineLast(Apply(c, Go(i, Proceed)), i, j);
      EndsAfter(c, Go(i, Proceed), OfflineIsReset);
    }
  }

  /**
    Exactly when an offline client keeps its promise, whatever update_infos are in flight: it will be
    found reset, whenever offline with no code running before the next tick, if and only if no task in
    flight can still write and no two update_infos can go online and then offline.
  */
  lemma OfflineStaysResetIff(c: Client)
    requires c.state == Offline && IsReset(c) && Sound(c)
    ensures Stays(c, OfflineIsReset) <==> !Some(c.tasks, CanWrite) && !Flips(c.tasks)
  {
    if Some(c.tasks, CanWrite) {
      WriterUndoes(c);
    } else if Flips(c.tasks) {
      var i, j := Flippers(c.tasks);
      FlipUndoes(c, i, j);
    } else {
      forall s | Legal(c, s) && TickFree(s)
        ensures OfflineIsReset(Exec(c, s))
      {
        CalmStays(c, s);
      }
    }
  }

  // With pings only, those are any two.
  lemma {:induction false} PingsFlip(ts: seq<Task>)
    requires forall i :: 0 <= i < |ts| ==> !ts[i].Switching?
    ensures Total(OnlineOf, ts) == Total(OfflineOf, ts) == Total(UpdateOf, ts)
    ensures Flips(ts) <==> Total(UpdateOf, ts) >= 2
  {
    if ts != [] {
      PingsFlip(ts[1..]);
    }
  }
}
