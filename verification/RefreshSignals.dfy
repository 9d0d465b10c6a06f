/**
  The online and offline signals of the refresh protocol: the runs in which they alternate, and exactly
  which clients keep them alternating until the next tick.
*/
module RefreshSignals {
  import opened Sums
  import opened RefreshProtocol
  import opened RefreshTheorems
  import opened RefreshOrder

  // What the update_infos in flight are about to switch to.
  function TargetOf(t: Task): seq<State> {
    if t.Switching? then [t.target] else []
  }

  function Targets(ts: seq<Task>): seq<State> {
    if ts == [] then [] else TargetOf(ts[0]) + Targets(ts[1..])
  }

  lemma {:induction false} TargetsConcat(a: seq<Task>, b: seq<Task>)
    ensures Targets(a + b) == Targets(a) + Targets(b)
  {
    if a == [] {
      assert a + b == b;
    } else {
      assert (a + b)[1..] == a[1..] + b;
      TargetsConcat(a[1..], b);
      var first, rest, more := TargetOf(a[0]), Targets(a[1..]), Targets(b);
      assert first + (rest + more) == first + rest + more;
    }
  }

  lemma {:induction false} NoneSwitchingHasNoTargets(ts: seq<Task>)
    requires !Some(ts, IsSwitch)
    ensures Targets(ts) == []
  {
    if ts != [] {
      assert !IsSwitch(ts[0]);
      assert forall k :: 0 <= k < |ts| - 1 ==> ts[1..][k] == ts[k + 1];
      NoneSwitchingHasNoTargets(ts[1..]);
    }
  }

  predicate IsSwitch(t: Task) {
    t.Switching?
  }

  lemma NoneUpdatingHasNoTargets(ts: seq<Task>)
    requires Total(UpdateOf, ts) == 0
    ensures Targets(ts) == []
  {
    NoneUpdatingIff(ts);
    NoneSwitchingHasNoTargets(ts);
  }

  lemma TargetsReplace(ts: seq<Task>, i: nat, more: seq<Task>)
    requires i < |ts|
    ensures Targets(Replace(ts, i, more)) == Targets(ts[..i]) + Targets(more) + Targets(ts[i + 1..])
    ensures Targets(ts) == Targets(ts[..i]) + TargetOf(ts[i]) + Targets(ts[i + 1..])
  {
    TargetsConcat(ts[..i] + more, ts[i + 1..]);
    TargetsConcat(ts[..i], more);
    var one := [ts[i]];
    assert ts == ts[..i] + one + ts[i + 1..];
    TargetsConcat(ts[..i] + one, ts[i + 1..]);
    TargetsConcat(ts[..i], one);
    assert one[1..] == [] && Targets(one) == TargetOf(ts[i]) + [] == TargetOf(ts[i]);
  }

  lemma NoneBeside(ts: seq<Task>, i: nat)
    requires i < |ts| && Total(UpdateOf, ts) <= 1 && Updating(ts[i])
    ensures Total(UpdateOf, ts[..i]) == Total(UpdateOf, ts[i + 1..]) == 0
  {
    var a, b := ts[..i], ts[i + 1..];
    TotalReplace(UpdateOf, ts, i, []);
    assert a + [] + b == a + b;
    TotalConcat(UpdateOf, a, b);
    NoneUpdatingIff(a);
    NoneUpdatingIff(b);
  }

  // The one update_info is replaced.
  lemma OneUpdate(ts: seq<Task>, i: nat, more: seq<Task>)
    requires i < |ts| && Total(UpdateOf, ts) <= 1 && Updating(ts[i])
    ensures Targets(ts) == TargetOf(ts[i])
    ensures Targets(Replace(ts, i, more)) == Targets(more)
    ensures Total(UpdateOf, Replace(ts, i, more)) == Total(UpdateOf, more)
  {
    NoneBeside(ts, i);
    NoneUpdatingHasNoTargets(ts[..i]);
    NoneUpdatingHasNoTargets(ts[i + 1..]);
    TargetsReplace(ts, i, more);
    TotalConcat(UpdateOf, ts[..i] + more, ts[i + 1..]);
    TotalConcat(UpdateOf, ts[..i], more);
  }

  // A task that is none is replaced by such tasks.
  lemma OtherTask(ts: seq<Task>, i: nat, more: seq<Task>)
    requires i < |ts| && !Updating(ts[i]) && NoneUpdating(more)
    ensures Targets(Replace(ts, i, more)) == Targets(ts)
    ensures Total(UpdateOf, Replace(ts, i, more)) == Total(UpdateOf, ts)
  {
    NoneUpdatingIff(more);
    NoneUpdatingHasNoTargets(more);
    TargetsReplace(ts, i, more);
    TotalReplace(UpdateOf, ts, i, more);
  }

  predicate Alternating(states: seq<State>) {
    && (forall i :: 0 <= i < |states| ==> states[i] != Unknown)
    && (forall i :: 0 <= i < |states| - 1 ==> states[i] != states[i + 1])
  }

  // The signals are the state changes after the first, one ahead while an update_info is switching.
  predicate Tells(state: State, history: seq<State>, targets: seq<State>, signals: seq<State>) {
    && state == (if history == [] then Unknown else history[|history| - 1])
    && Alternating(history + targets)
    && signals == (if history == [] then [] else (history + targets)[1..])
  }

  predicate Signalled(c: Client) {
    Total(UpdateOf, c.tasks) <= 1 && Tells(c.state, c.history, Targets(c.tasks), c.signals)
  }

  lemma PingTells(state: State, history: seq<State>, signals: seq<State>, answer: State)
    requires Tells(state, history, [], signals) && answer != state && answer != Unknown
    ensures Tells(state, history, [answer], if state != Unknown then signals + [answer] else signals)
  {
    assert history + [] == history;
    assert history != [] ==> history[|history| - 1] != Unknown;
    assert history != [] ==> (history + [answer])[1..] == history[1..] + [answer];
  }

  lemma SwitchTells(state: State, history: seq<State>, signals: seq<State>, target: State)
    requires Tells(state, history, [target], signals)
    ensures Tells(target, history + [target], [], signals)
  {
    assert history + [target] + [] == history + [target];
  }

  lemma PingKeepsSignals(c: Client, i: nat, up: bool)
    requires Signalled(c) && i < |c.tasks| && c.tasks[i] == Pinging
    ensures Signalled(Apply(c, Go(i, PingAnswer(up))))
  {
    var answer := if up then Online else Offline;
    var more := Pinged(c, answer).1;
    OneUpdate(c.tasks, i, more);
    if answer != c.state {
      PingTells(c.state, c.history, c.signals, answer);
      OneTarget(answer);
    } else {
      NoTarget(more);
    }
  }

  lemma OneTarget(target: State)
    ensures Targets([Switching(target)]) == [target] && Total(UpdateOf, [Switching(target)]) == 1
  {
    assert [Switching(target)][1..] == [] && [target] + [] == [target];
  }

  lemma NoTarget(more: seq<Task>)
    requires NoneUpdating(more)
    ensures Targets(more) == [] && Total(UpdateOf, more) == 0
  {
    NoneUpdatingIff(more);
    NoneUpdatingHasNoTargets(more);
  }

  lemma SwitchKeepsSignals(c: Client, i: nat)
    requires Signalled(c) && i < |c.tasks| && c.tasks[i].Switching?
    ensures Signalled(Apply(c, Go(i, Proceed)))
  {
    var more := Perform(c, c.tasks[i], Proceed).1;
    OneUpdate(c.tasks, i, more);
    NoTarget(more);
    SwitchTells(c.state, c.history, c.signals, c.tasks[i].target);
  }

  lemma StepKeepsSignals(c: Client, e: Event)
    requires Signalled(c) && Enabled(c, e) && (e.Tick? && c.latch == 0 ==> NoneUpdating(c.tasks))
    ensures Signalled(Apply(c, e))
  {
    match e
    case Tick => TickKeepsSignals(c);
    case Go(i, o) =>
      if c.tasks[i].Pinging? {
        PingKeepsSignals(c, i, o.up);
      } else if c.tasks[i].Switching? {
        SwitchKeepsSignals(c, i);
      } else {
        RunKeepsState(c, c.tasks[i], o);
        OtherTask(c.tasks, i, Perform(c, c.tasks[i], o).1);
      }
  }

  lemma TickKeepsSignals(c: Client)
    requires Signalled(c) && (c.latch == 0 ==> NoneUpdating(c.tasks))
    ensures Signalled(Apply(c, Tick))
  {
    TotalConcat(UpdateOf, c.tasks, [Pinging]);
    TargetsConcat(c.tasks, [Pinging]);
    NoneUpdatingIff(c.tasks);
    NoneSwitchingHasNoTargets([Pinging]);
    assert Targets(c.tasks) + [] == Targets(c.tasks);
  }

  lemma {:induction false} ScheduleKeepsSignals(c: Client, schedule: seq<Event>)
    requires Signalled(c) && Legal(c, schedule) && OneAtATime(c, schedule)
    ensures Signalled(Exec(c, schedule))
    decreases |schedule|
  {
    if schedule != [] {
      StepKeepsSignals(c, schedule[0]);
      ScheduleKeepsSignals(Apply(c, schedule[0]), schedule[1..]);
    }
  }

  lemma SignalsOf(c: Client)
    requires Signalled(c)
    ensures Alternating(c.signals)
    ensures c.history != [] && c.signals != [] ==> c.signals[0] != c.history[0]
  {
    if c.history != [] {
      var all := c.history + Targets(c.tasks);
      assert forall i :: 0 <= i < |all| - 1 ==> all[1..][i] == all[i + 1];
      assert all[0] == c.history[0];
    }
  }

  /**
    In every run with one update_info at a time, overpaid or not, the online and offline signals are
    exactly the state changes after the first ping's, in order, and they strictly alternate.
  */
  lemma SignalsAlternate(hostname: string, schedule: seq<Event>)
    requires Legal(Init(hostname), schedule) && OneAtATime(Init(hostname), schedule)
    ensures
      var c := Exec(Init(hostname), schedule);
      && Alternating(c.signals)
      && (c.history == [] ==> c.signals == [])
      && (NoneUpdating(c.tasks) && c.history != [] ==> c.signals == c.history[1..])
      && (c.history != [] && c.signals != [] ==> c.signals[0] != c.history[0])
  {
    ScheduleKeepsSignals(Init(hostname), schedule);
    var c := Exec(Init(hostname), schedule);
    SignalsOf(c);
    if NoneUpdating(c.tasks) {
      NoTarget(c.tasks);
    }
    assert c.history + [] == c.history;
  }

  // ----- exactly which clients keep the signals alternating -----

  predicate SignalsAlternateIn(c: Client) {
    Alternating(c.signals)
  }

  function PingOf(t: Task): int {
    if t.Pinging? then 1 else 0
  }

  lemma {:induction false} PingsCounted(ts: seq<Task>)
    ensures Total(PingOf, ts) >= 0
    ensures Total(PingOf, ts) <= Total(UpdateOf, ts)
    ensures !Some(ts, IsSwitch) ==> Total(PingOf, ts) == Total(UpdateOf, ts)
    ensures Some(ts, IsSwitch) ==> Total(PingOf, ts) < Total(UpdateOf, ts)
  {
    if ts != [] {
      PingsCounted(ts[1..]);
      SomeRest(ts, IsSwitch);
    }
  }

  lemma SomeRest(ts: seq<Task>, p: Task -> bool)
    requires ts != []
    ensures Some(ts, p) <==> p(ts[0]) || Some(ts[1..], p)
  {
    if Some(ts, p) {
      var k :| 0 <= k < |ts| && p(ts[k]);
      assert k > 0 ==> p(ts[1..][k - 1]);
    }
    if Some(ts[1..], p) {
      var k :| 0 <= k < |ts[1..]| && p(ts[1..][k]);
      assert p(ts[k + 1]);
    }
  }

  lemma {:induction false} PingIn(ts: seq<Task>) returns (i: nat)
    requires Total(PingOf, ts) >= 1
    ensures i < |ts| && ts[i] == Pinging
  {
    if ts[0].Pinging? {
      i := 0;
    } else {
      i := PingIn(ts[1..]);
      i := i + 1;
    }
  }

  lemma {:induction false} TwoPings(ts: seq<Task>) returns (i: nat, j: nat)
    requires Total(PingOf, ts) >= 2
    ensures i < j < |ts| && ts[i] == ts[j] == Pinging
  {
    if ts[0].Pinging? {
      j := PingIn(ts[1..]);
      i, j := 0, j + 1;
    } else {
      i, j := TwoPings(ts[1..]);
      i, j := i + 1, j + 1;
    }
  }

  // A task that will change the state to another one.
  function Leaves(state: State): Task -> bool {
    (t: Task) => t.Switching? && t.target != state
  }

  // No ping in flight, or one that can only signal something new; a client that has not known its state
  // yet says nothing at the first answer it acts on.
  predicate Unambiguous(c: Client) {
    var pings := Total(PingOf, c.tasks);
    if c.state == Unknown then
      pings <= 1 || (pings == 2 && !Some(c.tasks, IsSwitch))
    else
      pings == 0
      || (pings == 1
          && (c.signals == []
              || (c.state == c.signals[|c.signals| - 1] && !Some(c.tasks, Leaves(c.state)))))
  }

  // What every reachable client satisfies.
  predicate Known(c: Client) {
    && (forall i :: 0 <= i < |c.tasks| && c.tasks[i].Switching? ==> c.tasks[i].target != Unknown)
    && (c.state == Unknown ==> c.signals == [])
  }

  lemma StepKeepsKnown(c: Client, e: Event)
    requires Known(c) && Enabled(c, e)
    ensures Known(Apply(c, e))
  {
    if e.Go? && !c.tasks[e.task].Pinging? && !c.tasks[e.task].Switching? {
      RunKeepsState(c, c.tasks[e.task], e.outcome);
    }
  }

  lemma {:induction false} ReachableIsKnown(c: Client, schedule: seq<Event>)
    requires Known(c) && Legal(c, schedule)
    ensures Known(Exec(c, schedule))
    decreases |schedule|
  {
    if schedule != [] {
      StepKeepsKnown(c, schedule[0]);
      ReachableIsKnown(Apply(c, schedule[0]), schedule[1..]);
    }
  }

  predicate Sure(c: Client) {
    Known(c) && SignalsAlternateIn(c) && Unambiguous(c)
  }

  lemma PingKeepsSure(c: Client, i: nat, up: bool)
    requires Sure(c) && i < |c.tasks| && c.tasks[i] == Pinging
    ensures Sure(Apply(c, Go(i, PingAnswer(up))))
  {
    var more := Pinged(c, if up then Online else Offline).1;
    StepKeepsKnown(c, Go(i, PingAnswer(up)));
    TotalReplace(PingOf, c.tasks, i, more);
    PingsCounted(Replace(c.tasks, i, []));
    TotalReplace(PingOf, c.tasks, i, []);
  }

  lemma SwitchKeepsSure(c: Client, i: nat)
    requires Sure(c) && i < |c.tasks| && c.tasks[i].Switching?
    ensures Sure(Apply(c, Go(i, Proceed)))
  {
    StepKeepsKnown(c, Go(i, Proceed));
    TotalReplace(PingOf, c.tasks, i, Perform(c, c.tasks[i], Proceed).1);
    assert IsSwitch(c.tasks[i]);
    PingsCounted(c.tasks);
    assert !Leaves(c.state)(c.tasks[i]) || Some(c.tasks, Leaves(c.state));
    SomeReplace(c.tasks, i, Perform(c, c.tasks[i], Proceed).1, Leaves(c.state));
  }

  // What a task that is no update_info leaves of those in flight.
  lemma RestKeepsPings(ts: seq<Task>, i: nat, more: seq<Task>)
    requires i < |ts| && !Updating(ts[i]) && NoneUpdating(more)
    ensures Total(PingOf, Replace(ts, i, more)) == Total(PingOf, ts)
  {
    TotalReplace(PingOf, ts, i, more);
    NoneUpdatingIff(more);
    PingsCounted(more);
  }

  lemma RestKeepsNone(ts: seq<Task>, i: nat, more: seq<Task>, p: Task -> bool)
    requires i < |ts| && NoneUpdating(more) && !Some(ts, p)
    requires forall t :: p(t) ==> Updating(t)
    ensures !Some(Replace(ts, i, more), p)
  {
    assert !Some(more, p);
    SomeReplace(ts, i, more, p);
  }

  lemma RestKeepsSure(c: Client, i: nat, o: Outcome)
    requires Sure(c) && Enabled(c, Go(i, o)) && !Updating(c.tasks[i])
    ensures Sure(Apply(c, Go(i, o)))
  {
    StepKeepsKnown(c, Go(i, o));
    RunKeepsState(c, c.tasks[i], o);
    var more := Perform(c, c.tasks[i], o).1;
    RestKeepsPings(c.tasks, i, more);
    if !Some(c.tasks, IsSwitch) {
      RestKeepsNone(c.tasks, i, more, IsSwitch);
    }
    if !Some(c.tasks, Leaves(c.state)) {
      RestKeepsNone(c.tasks, i, more, Leaves(c.state));
    }
  }

  lemma {:induction false} SureStays(c: Client, schedule: seq<Event>)
    requires Sure(c) && Legal(c, schedule) && TickFree(schedule)
    ensures Sure(Exec(c, schedule))
    decreases |schedule|
  {
    if schedule != [] {
      TickFreeRest(schedule);
      var i, o := schedule[0].task, schedule[0].outcome;
      if c.tasks[i].Pinging? {
        PingKeepsSure(c, i, o.up);
      } else if c.tasks[i].Switching? {
        SwitchKeepsSure(c, i);
      } else {
        RestKeepsSure(c, i, o);
      }
      SureStays(Apply(c, schedule[0]), schedule[1..]);
    }
  }

  // A ping's answer that is the last signal again.
  lemma Echo(c: Client, i: nat)
    requires c.state != Unknown && i < |c.tasks| && c.tasks[i] == Pinging
    requires c.signals != [] && c.signals[|c.signals| - 1] == (if c.state == Online then Offline else Online)
    ensures !Stays(c, SignalsAlternateIn)
  {
    var e := Go(i, PingAnswer(c.state != Online));
    var n := |c.signals|;
    var c' := Apply(c, e);
    assert c'.signals[n - 1] == c'.signals[n];
    EndsNow(c', SignalsAlternateIn);
    EndsAfter(c, e, SignalsAlternateIn);
  }

  // Two update_infos that both hear the other state signal it twice.
  lemma TwoAnswers(c: Client, i: nat, j: nat)
    requires c.state != Unknown && i < j < |c.tasks| && c.tasks[i] == c.tasks[j] == Pinging
    ensures !Stays(c, SignalsAlternateIn)
  {
    var e := Go(i, PingAnswer(c.state != Online));
    Echo(Apply(c, e), j);
    EndsAfter(c, e, SignalsAlternateIn);
  }

  lemma KnownStateBreaks(c: Client)
    requires Known(c) && c.state != Unknown && !Unambiguous(c)
    ensures !Stays(c, SignalsAlternateIn)
  {
    PingsCounted(c.tasks);
    if !Alternating(c.signals) {
      EndsNow(c, SignalsAlternateIn);
    } else if Total(PingOf, c.tasks) >= 2 {
      var i, j := TwoPings(c.tasks);
      TwoAnswers(c, i, j);
    } else if c.state != c.signals[|c.signals| - 1] {
      var i := PingIn(c.tasks);
      Echo(c, i);
    } else {
      var j :| 0 <= j < |c.tasks| && Leaves(c.state)(c.tasks[j]);
      var c' := Apply(c, Go(j, Proceed));
      TotalReplace(PingOf, c.tasks, j, Perform(c, c.tasks[j], Proceed).1);
      var i := PingIn(c'.tasks);
      Echo(c', i);
      EndsAfter(c, Go(j, Proceed), SignalsAlternateIn);
    }
  }

  // One of them switches first, and two ask after that.
  lemma SwitchThenBreaks(c: Client)
    requires Known(c) && Some(c.tasks, IsSwitch) && Total(PingOf, c.tasks) >= 2
    ensures !Stays(c, SignalsAlternateIn)
  {
    var j :| 0 <= j < |c.tasks| && IsSwitch(c.tasks[j]);
    var e := Go(j, Proceed);
    StepKeepsKnown(c, e);
    TotalReplace(PingOf, c.tasks, j, Perform(c, c.tasks[j], Proceed).1);
    KnownStateBreaks(Apply(c, e));
    EndsAfter(c, e, SignalsAlternateIn);
  }

  lemma UnknownStateBreaks(c: Client)
    requires Known(c) && c.state == Unknown && !Unambiguous(c)
    ensures !Stays(c, SignalsAlternateIn)
  {
    if Some(c.tasks, IsSwitch) {
      SwitchThenBreaks(c);
    } else {
      var i := PingIn(c.tasks);
      var e := Go(i, PingAnswer(true));
      StepKeepsKnown(c, e);
      TotalReplace(PingOf, c.tasks, i, [Switching(Online)]);
      SomeReplace(c.tasks, i, [Switching(Online)], IsSwitch);
      assert IsSwitch([Switching(Online)][0]);
      SwitchThenBreaks(Apply(c, e));
      EndsAfter(c, e, SignalsAlternateIn);
    }
  }

  /**
    After every run: the signals alternate so far and whatever happens before the next tick, if and only
    if they do so far and no ping in flight can repeat the last of them, or another ping's answer.
  */
  lemma SignalsStayAlternatingIff(hostname: string, schedule: seq<Event>)
    requires Legal(Init(hostname), schedule)
    ensures
      var c := Exec(Init(hostname), schedule);
      Stays(c, SignalsAlternateIn) <==> Alternating(c.signals) && Unambiguous(c)
  {
    ReachableIsKnown(Init(hostname), schedule);
    KnownStaysIff(Exec(Init(hostname), schedule));
  }

  lemma KnownStaysIff(c: Client)
    requires Known(c)
    ensures Stays(c, SignalsAlternateIn) <==> Alternating(c.signals) && Unambiguous(c)
  {
    if !Alternating(c.signals) {
      EndsNow(c, SignalsAlternateIn);
    } else if !Unambiguous(c) {
      if c.state == Unknown {
        UnknownStateBreaks(c);
      } else {
        KnownStateBreaks(c);
      }
    } else {
      forall s | Legal(c, s) && TickFree(s)
        ensures SignalsAlternateIn(Exec(c, s))
      {
        SureStays(c, s);
      }
    }
  }

  // The first target is that of some task, and every task's is among them.
  lemma {:induction false} TargetsAre(ts: seq<Task>, i: nat)
    ensures i < |ts| && ts[i].Switching? ==> ts[i].target in Targets(ts)
    ensures Targets(ts) != [] ==> exists j :: 0 <= j < |ts| && ts[j] == Switching(Targets(ts)[0])
  {
    if ts != [] {
      TargetsAre(ts[1..], if i == 0 then 0 else i - 1);
      if ts[0].Switching? {
        assert ts[0] == Switching(Targets(ts)[0]);
      } else if Targets(ts) != [] {
        var k :| 0 <= k < |ts[1..]| && ts[1..][k] == Switching(Targets(ts[1..])[0]);
        assert ts[k + 1] == Switching(Targets(ts)[0]);
      }
    }
  }

  lemma TellingIsKnown(c: Client)
    requires c.state != Unknown && Tells(c.state, c.history, Targets(c.tasks), c.signals)
    ensures Known(c) && Alternating(c.signals)
  {
    var all := c.history + Targets(c.tasks);
    assert forall i :: 0 <= i < |all| - 1 ==> all[1..][i] == all[i + 1];
    forall i | 0 <= i < |c.tasks| && c.tasks[i].Switching? ensures c.tasks[i].target != Unknown {
      TargetsAre(c.tasks, i);
      var k :| 0 <= k < |Targets(c.tasks)| && Targets(c.tasks)[k] == c.tasks[i].target;
      assert all[|c.history| + k] == c.tasks[i].target;
    }
  }

  // An update_info that is switching is about to contradict the last signal or the state.
  lemma SwitchingIsAmbiguous(c: Client)
    requires c.state != Unknown && Tells(c.state, c.history, Targets(c.tasks), c.signals) && Some(c.tasks, IsSwitch)
    ensures c.signals != [] && (c.state != c.signals[|c.signals| - 1] || Some(c.tasks, Leaves(c.state)))
  {
    var targets, n := Targets(c.tasks), |c.history|;
    var k :| 0 <= k < |c.tasks| && IsSwitch(c.tasks[k]);
    TargetsAre(c.tasks, k);
    var j :| 0 <= j < |c.tasks| && c.tasks[j] == Switching(targets[0]);
    assert (c.history + targets)[n - 1] == c.state && (c.history + targets)[n] == targets[0];
    assert Leaves(c.state)(c.tasks[j]);
  }

  lemma ToldSoFar(c: Client)
    requires c.state != Unknown && Tells(c.state, c.history, Targets(c.tasks), c.signals) && !Some(c.tasks, IsSwitch)
    ensures c.signals == [] || c.state == c.signals[|c.signals| - 1]
    ensures !Some(c.tasks, Leaves(c.state))
  {
    NoneSwitchingHasNoTargets(c.tasks);
    assert c.history + [] == c.history;
    LeavingIsSwitching(c.tasks, c.state);
  }

  lemma LeavingIsSwitching(ts: seq<Task>, state: State)
    ensures Some(ts, Leaves(state)) ==> Some(ts, IsSwitch)
  {
    if Some(ts, Leaves(state)) {
      var j :| 0 <= j < |ts| && Leaves(state)(ts[j]);
      assert IsSwitch(ts[j]);
    }
  }

  /**
    For a client whose state is known and which has told every change up to those it is about to make:
    the signals stay alternating whatever happens before the next tick, if and only if no ping is in
    flight or no other update_info beside it.
  */
  lemma OneUpdateIsNeededIff(c: Client)
    requires c.state != Unknown && Tells(c.state, c.history, Targets(c.tasks), c.signals)
    ensures Stays(c, SignalsAlternateIn) <==> Total(PingOf, c.tasks) == 0 || Total(UpdateOf, c.tasks) <= 1
  {
    TellingIsKnown(c);
    KnownStaysIff(c);
    PingsCounted(c.tasks);
    if Some(c.tasks, IsSwitch) {
      SwitchingIsAmbiguous(c);
    } else {
      ToldSoFar(c);
    }
  }
}
