/**
  Progress of the refresh protocol: every cycle comes to an end, and exactly which clients can begin
  another one.
*/
module RefreshProgress {
  import opened Sums
  import opened RefreshProtocol
  import opened RefreshTheorems

  // ----- every cycle ends -----

  function FetchRank(w: Endpoint): int {
    if w == Service then 9 else 4
  }

  function InstrRank(i: Instr): int {
    match i
    case Issue(w, _) => 1 + FetchRank(w)
    case IssueIf(_, w) => 1 + FetchRank(w)
    case _ => 1
  }

  // An upper bound on the actions a task and all it starts can still do.
  function Rank(t: Task): int {
    match t
    case Pinging => 32
    case Switching(_) => 31
    case Running(code) => Total(InstrRank, code)
    case Fetching(w, _) => FetchRank(w)
    case Parsing(w) => FetchRank(w) - 1
    case Queued(w) => FetchRank(w) - 2
  }

  lemma OnlineRanks()
    ensures Total(InstrRank, ONLINE_CODE) == 30
    ensures Total(InstrRank, STAY_ONLINE_CODE) == 22
  {
    TotalConcat(InstrRank, ONLINE_CODE[..2], ONLINE_CODE[2..]);
    TotalConcat(InstrRank, STAY_ONLINE_CODE[..2], STAY_ONLINE_CODE[2..]);
    assert ONLINE_CODE == ONLINE_CODE[..2] + ONLINE_CODE[2..];
    assert STAY_ONLINE_CODE == STAY_ONLINE_CODE[..2] + STAY_ONLINE_CODE[2..];
  }

  lemma OfflineRanks()
    ensures Total(InstrRank, OFFLINE_CODE) == 11
    ensures Total(InstrRank, PAY_ALL_CODE) == 6
  {
    TotalConcat(InstrRank, RESET_CODE, PAY_ALL_CODE);
  }

  lemma CodeRanks()
    ensures Total(InstrRank, ONLINE_CODE) == 30 && Total(InstrRank, STAY_ONLINE_CODE) == 22
    ensures Total(InstrRank, OFFLINE_CODE) == 11 && Total(InstrRank, PAY_ALL_CODE) == 6
  {
    OnlineRanks();
    OfflineRanks();
  }

  lemma StartRank(code: seq<Instr>, rest: seq<Task>)
    ensures Total(Rank, Start(code) + rest) == Total(InstrRank, code) + Total(Rank, rest)
    ensures Total(Rank, Start(code)) == Total(InstrRank, code)
  {
    TotalConcat(Rank, Start(code), rest);
  }

  lemma RunRank(c: Client, code: seq<Instr>)
    requires code != []
    ensures Total(Rank, Run(c, code).1) < Total(InstrRank, code)
  {
    match code[0]
    case Issue(w, k) => StartRank(code[1..], [Fetching(w, k)]);
    case IssueIf(f, w) => StartRank(code[1..], [Fetching(w, DontCare)]);
    case _ => StartRank(code[1..], []);
  }

  lemma CountDownRanks()
    ensures Total(Rank, [Running([CountDown])]) == 1
    ensures Total(Rank, [Running([CountDown, CountDown])]) == 2
    ensures Total(Rank, [Running([CountDown, Issue(Services, DontCare)])]) == 6
  {
  }

  lemma PingedRank(c: Client, answer: State)
    ensures Total(Rank, Pinged(c, answer).1) < 32
  {
    CodeRanks();
    StartRank(STAY_ONLINE_CODE, []);
    StartRank(PAY_ALL_CODE, []);
  }

  lemma FetchedRank(c: Client, w: Endpoint, k: Control, o: Outcome)
    requires o.Throws? || o.Status? || o.Accepted?
    ensures Total(Rank, Fetched(c, w, k, o).1) < FetchRank(w)
  {
    CountDownRanks();
  }

  lemma HandledRank(c: Client, w: Endpoint, o: Outcome)
    requires w == System ==> o.Message?
    ensures Total(Rank, Handled(c, w, o).1) < FetchRank(w) - 2
  {
    CountDownRanks();
  }

  lemma SwitchedRank(c: Client, s: State)
    ensures Total(Rank, Perform(c, Switching(s), Proceed).1) < Rank(Switching(s))
  {
    CodeRanks();
    StartRank(if s == Offline then OFFLINE_CODE else ONLINE_CODE, []);
  }

  lemma PerformLowersRank(c: Client, t: Task, o: Outcome)
    requires Accepts(t, o)
    ensures Total(Rank, Perform(c, t, o).1) < Rank(t)
  {
    match t
    case Pinging => PingedRank(c, if o.up then Online else Offline);
    case Switching(s) => SwitchedRank(c, s);
    case Running(code) => RunRank(c, code);
    case Fetching(w, k) => FetchedRank(c, w, k, o);
    case Parsing(w) => CountDownRanks();
    case Queued(w) => HandledRank(c, w, o);
  }

  function Actions(schedule: seq<Event>): nat {
    if schedule == [] then 0 else (if schedule[0].Go? then 1 else 0) + Actions(schedule[1..])
  }

  lemma RankNonNegative(ts: seq<Task>)
    ensures Total(Rank, ts) >= 0
  {
    forall t: Task ensures Rank(t) >= 0 {
      if t.Running? {
        TotalNonNegative(InstrRank, t.code);
      }
    }
    TotalNonNegative(Rank, ts);
  }

  lemma StepLowersRank(c: Client, e: Event)
    requires Enabled(c, e)
    ensures
      var c' := Apply(c, e);
      Total(Rank, c'.tasks) + (if e.Go? then 1 else 0) <= Total(Rank, c.tasks) + 32 * (c'.cycles - c.cycles)
  {
    match e
    case Tick => TotalConcat(Rank, c.tasks, [Pinging]);
    case Go(i, o) =>
      PerformLowersRank(c, c.tasks[i], o);
      PerformSpendsRisk(c, c.tasks[i], o);
      TotalReplace(Rank, c.tasks, i, Perform(c, c.tasks[i], o).1);
  }

  /**
    However the tasks are interleaved and whatever the network does, a run that begins n cycles
    performs at most 32 * n actions; an idle client is the only one with no action enabled.
  */
  lemma {:induction false} CyclesAreFinite(c: Client, schedule: seq<Event>)
    requires Legal(c, schedule)
    ensures
      var c' := Exec(c, schedule);
      Actions(schedule) + Total(Rank, c'.tasks) <= Total(Rank, c.tasks) + 32 * (c'.cycles - c.cycles)
    decreases |schedule|
  {
    if schedule != [] {
      StepLowersRank(c, schedule[0]);
      CyclesAreFinite(Apply(c, schedule[0]), schedule[1..]);
    }
  }

  lemma AtMost32ActionsPerCycle(hostname: string, schedule: seq<Event>)
    requires Legal(Init(hostname), schedule)
    ensures Actions(schedule) <= 32 * Exec(Init(hostname), schedule).cycles
  {
    CyclesAreFinite(Init(hostname), schedule);
    RankNonNegative(Exec(Init(hostname), schedule).tasks);
  }

  // Any task in flight of a reachable client can act, so a run only rests when nothing is in flight.
  lemma TasksNeverBlock(hostname: string, schedule: seq<Event>, i: nat)
    requires Legal(Init(hostname), schedule)
    requires i < |Exec(Init(hostname), schedule).tasks|
    ensures exists o :: Enabled(Exec(Init(hostname), schedule), Go(i, o))
  {
    ReachableIsSound(Init(hostname), schedule);
    var c := Exec(Init(hostname), schedule);
    assert Pays(c.tasks[i]);
    var o := match c.tasks[i]
      case Pinging => PingAnswer(true)
      case Fetching(_, _) => Throws
      case Parsing(_) => Throws
      case Queued(System) => Message("")
      case _ => Proceed;
    assert Enabled(c, Go(i, o));
  }

  // ----- a jammed client -----

  predicate IsPinging(t: Task) {
    t.Pinging?
  }

  predicate LeavesOnline(t: Task) {
    t.Switching? && t.target != Online
  }

  // An online client that nothing is taking offline: of the pings in flight one at least will find it
  // still online, or take it offline, and so start no fetches that can overpay.
  predicate HeldOnline(c: Client) {
    c.state == Online && Some(c.tasks, IsPinging) && !Some(c.tasks, LeavesOnline)
  }

  // The overpayments there have been, and those there may yet be before another cycle begins.
  function OverpayReach(c: Client): int {
    OverpayBound(c) - if HeldOnline(c) then 1 else 0
  }

  // More count_downs are missing than there can be overpayments, even if all that may yet overpay do.
  predicate Jammed(c: Client) {
    Sound(c) && c.serviceFailures + SIZE_T * c.wraps > OverpayReach(c)
  }

  lemma OverpayRiskNonNegative(ts: seq<Task>)
    ensures Total(OverpayRisk, ts) >= 0
    ensures Some(ts, IsPinging) ==> Total(OverpayRisk, ts) >= 1
  {
    forall t: Task ensures OverpayRisk(t) >= 0 {
      if t.Running? {
        TotalNonNegative(InstrOverpayRisk, t.code);
      }
    }
    TotalNonNegative(OverpayRisk, ts);
    if Some(ts, IsPinging) {
      var i :| 0 <= i < |ts| && IsPinging(ts[i]);
      TotalReplace(OverpayRisk, ts, i, []);
      TotalNonNegative(OverpayRisk, Replace(ts, i, []));
    }
  }

  lemma JammedIsAboveZero(c: Client)
    requires Jammed(c)
    ensures c.latch > 0
  {
    OutstandingWeight(c.tasks);
    OverpayRiskNonNegative(c.tasks);
  }

  // A client is let go only by a ping's answer, which uses up what it might have overpaid.
  lemma HeldIsLetGo(c: Client, i: nat, o: Outcome)
    requires Enabled(c, Go(i, o)) && HeldOnline(c) && !HeldOnline(Apply(c, Go(i, o)))
    ensures c.tasks[i].Pinging?
  {
    var t := c.tasks[i];
    var more := Perform(c, t, o).1;
    SomeReplace(c.tasks, i, more, IsPinging);
    SomeReplace(c.tasks, i, more, LeavesOnline);
    assert LeavesOnline(t) ==> Some(c.tasks, LeavesOnline);
    if !t.Pinging? {
      StartsNoUpdate(c, t, o);
    }
  }

  lemma AnswerUsesRisk(c: Client, i: nat, up: bool)
    requires i < |c.tasks| && c.tasks[i].Pinging? && c.state == Online
    ensures OverpayBound(Apply(c, Go(i, PingAnswer(up)))) == OverpayBound(c) - 1
  {
    var answer := if up then Online else Offline;
    QuietAnswer(c, answer);
    TotalReplace(OverpayRisk, c.tasks, i, Pinged(c, answer).1);
  }

  lemma StartsNoUpdate(c: Client, t: Task, o: Outcome)
    requires Accepts(t, o) && !t.Pinging?
    ensures !Some(Perform(c, t, o).1, IsPinging) && !Some(Perform(c, t, o).1, LeavesOnline)
    ensures Perform(c, t, o).0.state == if t.Switching? then t.target else c.state
  {
  }

  lemma StepKeepsReach(c: Client, e: Event)
    requires Enabled(c, e) && (e.Tick? ==> c.latch != 0)
    ensures OverpayReach(Apply(c, e)) <= OverpayReach(c)
  {
    if e.Go? {
      if HeldOnline(c) && !HeldOnline(Apply(c, e)) {
        HeldIsLetGo(c, e.task, e.outcome);
        AnswerUsesRisk(c, e.task, e.outcome.up);
      } else {
        GoSpendsRisk(c, e);
      }
    }
  }

  lemma GoSpendsRisk(c: Client, e: Event)
    requires Enabled(c, e) && e.Go?
    ensures OverpayBound(Apply(c, e)) <= OverpayBound(c) && Apply(c, e).cycles == c.cycles
  {
    StepSpendsRisk(c, e);
    PerformSpendsRisk(c, c.tasks[e.task], e.outcome);
  }

  lemma StepKeepsJam(c: Client, e: Event)
    requires Jammed(c) && Enabled(c, e)
    ensures Jammed(Apply(c, e)) && Apply(c, e).cycles == c.cycles && c.latch > 0
  {
    JammedIsAboveZero(c);
    StepKeepsReach(c, e);
    StepSpendsRisk(c, e);
    StepKeepsSound(c, e);
    if e.Go? {
      PerformWraps(c, c.tasks[e.task], e.outcome);
      GoSpendsRisk(c, e);
    }
  }

  /**
    Once the /service failures, and 2^64 for each time the latch has wrapped, outnumber the overpayments
    that there have been or may yet be, update_info never begins another cycle, whatever happens.
  */
  lemma {:induction false} JammedForever(c: Client, schedule: seq<Event>)
    requires Jammed(c) && Legal(c, schedule)
    ensures Jammed(Exec(c, schedule))
    ensures Exec(c, schedule).cycles == c.cycles && Exec(c, schedule).latch > 0
    decreases |schedule|
  {
    if schedule != [] {
      StepKeepsJam(c, schedule[0]);
      JammedForever(Apply(c, schedule[0]), schedule[1..]);
    } else {
      JammedIsAboveZero(c);
    }
  }

  // ----- and one that is not -----

  // No /service fetch controls the adapters flag.
  predicate ProperIssue(i: Instr) {
    i.Issue? && i.what == Service ==> i.control != Controls(AdaptersFlag)
  }

  predicate Proper(t: Task) {
    match t
    case Fetching(w, k) => w == Service ==> k != Controls(AdaptersFlag)
    case Running(code) => forall k :: 0 <= k < |code| ==> ProperIssue(code[k])
    case _ => true
  }

  predicate AllProper(ts: seq<Task>) {
    forall i :: 0 <= i < |ts| ==> Proper(ts[i])
  }

  lemma PerformKeepsProper(c: Client, t: Task, o: Outcome)
    requires Accepts(t, o) && Proper(t)
    ensures AllProper(Perform(c, t, o).1)
  {
    match t
    case Running(code) => RunKeepsProper(c, code);
    case Switching(s) => CodesAreProper();
    case Pinging => CodesAreProper();
    case _ =>
  }

  lemma StepKeepsProper(c: Client, e: Event)
    requires Enabled(c, e) && AllProper(c.tasks)
    ensures AllProper(Apply(c, e).tasks)
  {
    if e.Go? {
      PerformKeepsProper(c, c.tasks[e.task], e.outcome);
    }
  }

  lemma CodesAreProper()
    ensures Proper(Running(ONLINE_CODE)) && Proper(Running(STAY_ONLINE_CODE))
    ensures Proper(Running(OFFLINE_CODE)) && Proper(Running(PAY_ALL_CODE))
  {
  }

  lemma RunKeepsProper(c: Client, code: seq<Instr>)
    requires code != [] && Proper(Running(code))
    ensures AllProper(Run(c, code).1)
  {
    assert forall k :: 0 <= k < |code| - 1 ==> code[1..][k] == code[k + 1];
    assert ProperIssue(code[0]);
  }

  // /service failures, counting those that may yet be, outnumber the overpayments by one at most.
  predicate Tight(c: Client) {
    AllProper(c.tasks) && (c.wraps == 0 ==> ServiceBound(c) <= c.overpayments + 1)
  }

  // A task that may make the /service fetch fail still has two steps to pay for it.
  lemma {:induction false} CodeRiskIsPaid(code: seq<Instr>)
    ensures Total(InstrServiceRisk, code) <= Total(InstrWeight, code)
  {
    if code != [] {
      CodeRiskIsPaid(code[1..]);
    }
  }

  lemma {:induction false} RiskIsPaid(ts: seq<Task>)
    ensures Total(ServiceRisk, ts) <= Total(Weight, ts)
  {
    if ts != [] {
      RiskIsPaid(ts[1..]);
      if ts[0].Running? {
        CodeRiskIsPaid(ts[0].code);
      }
    }
  }

  lemma StepKeepsTight(c: Client, e: Event)
    requires Sound(c) && Tight(c) && Enabled(c, e)
    ensures Tight(Apply(c, e)) && c.wraps <= Apply(c, e).wraps
  {
    match e
    case Tick =>
      RiskIsPaid(c.tasks);
      TotalConcat(ServiceRisk, c.tasks, [Pinging]);
    case Go(i, o) =>
      StepSpendsRisk(c, e);
      StepKeepsProper(c, e);
      WrapsGrow(c, c.tasks[i], o);
  }

  lemma WrapsGrow(c: Client, t: Task, o: Outcome)
    requires Accepts(t, o)
    ensures c.wraps <= Perform(c, t, o).0.wraps
  {
  }

  lemma {:induction false} ReachableIsTight(c: Client, schedule: seq<Event>)
    requires Sound(c) && Tight(c) && Legal(c, schedule)
    ensures Tight(Exec(c, schedule))
    decreases |schedule|
  {
    if schedule != [] {
      StepKeepsTight(c, schedule[0]);
      StepKeepsSound(c, schedule[0]);
      ReachableIsTight(Apply(c, schedule[0]), schedule[1..]);
    }
  }

  // The overpayments still possible are enough.
  predicate CanDrain(c: Client) {
    && Sound(c) && AllProper(c.tasks)
    && c.serviceFailures + SIZE_T * c.wraps <= OverpayReach(c)
  }

  // What to let happen to a task: every overpayment that may be, and no other fault.
  function Wanted(t: Task): (o: Outcome)
    requires Pays(t) && !t.Pinging?
    ensures Accepts(t, o)
  {
    match t
    case Fetching(_, k) => if k == Controls(AdaptersFlag) then Status(false) else Accepted
    case Parsing(_) => Accepted
    case Queued(w) => if w == System then Message("") else Proceed
    case _ => Proceed
  }

  // Nothing fails, and no overpayment still possible is passed over.
  predicate RiskKept(c: Client, t: Task, c': Client, more: seq<Task>) {
    && c'.serviceFailures == c.serviceFailures
    && c'.overpayments + Total(OverpayRisk, more) == c.overpayments + OverpayRisk(t)
  }

  lemma WantedKeepsRisk(c: Client, t: Task)
    requires Pays(t) && Proper(t) && !t.Pinging?
    ensures RiskKept(c, t, Perform(c, t, Wanted(t)).0, Perform(c, t, Wanted(t)).1)
  {
    match t
    case Switching(s) => WantedSwitch(c, s);
    case Running(code) => WantedRun(c, code);
    case Fetching(w, k) => WantedFetch(c, w, k);
    case Parsing(w) =>
    case Queued(w) => CountDownRisks();
  }

  lemma WantedSwitch(c: Client, s: State)
    ensures RiskKept(c, Switching(s), Perform(c, Switching(s), Proceed).0, Perform(c, Switching(s), Proceed).1)
  {
    CodeRisks();
    StartedRisks(if s == Offline then OFFLINE_CODE else ONLINE_CODE);
  }

  lemma WantedFetch(c: Client, w: Endpoint, k: Control)
    requires w == Service ==> k != Controls(AdaptersFlag)
    ensures
      var t := Fetching(w, k);
      RiskKept(c, t, Fetched(c, w, k, Wanted(t)).0, Fetched(c, w, k, Wanted(t)).1)
  {
    CountDownRisks();
  }

  lemma WantedRun(c: Client, code: seq<Instr>)
    requires code != []
    ensures RiskKept(c, Running(code), Run(c, code).0, Run(c, code).1)
  {
    StartedRisks(code[1..]);
    match code[0]
    case Issue(w, k) => StartRisks(code[1..], [Fetching(w, k)]);
    case IssueIf(f, w) => StartRisks(code[1..], [Fetching(w, DontCare)]);
    case _ =>
  }

  // An action that keeps the reach brings the client nearer to the end of its work.
  lemma Nearer(c: Client, i: nat, o: Outcome)
    requires CanDrain(c) && c.latch != 0 && Enabled(c, Go(i, o))
    requires Apply(c, Go(i, o)).serviceFailures == c.serviceFailures
    requires OverpayReach(Apply(c, Go(i, o))) >= OverpayReach(c)
    ensures CanDrain(Apply(c, Go(i, o)))
    ensures Total(Rank, Apply(c, Go(i, o)).tasks) < Total(Rank, c.tasks)
  {
    var t := c.tasks[i];
    StepKeepsSound(c, Go(i, o));
    PerformWraps(c, t, o);
    StepKeepsProper(c, Go(i, o));
    PerformLowersRank(c, t, o);
    TotalReplace(Rank, c.tasks, i, Perform(c, t, o).1);
  }

  // A held client is taken offline.
  lemma LetGo(c: Client, i: nat)
    requires CanDrain(c) && c.latch != 0 && HeldOnline(c) && i < |c.tasks| && c.tasks[i].Pinging?
    ensures CanDrain(Apply(c, Go(i, PingAnswer(false))))
    ensures Total(Rank, Apply(c, Go(i, PingAnswer(false))).tasks) < Total(Rank, c.tasks)
  {
    var more := Pinged(c, Offline).1;
    assert more == [Switching(Offline)] && LeavesOnline(more[0]);
    SomeReplace(c.tasks, i, more, LeavesOnline);
    TotalReplace(OverpayRisk, c.tasks, i, more);
    Nearer(c, i, PingAnswer(false));
  }

  // A client that is not online is brought there.
  lemma BringOnline(c: Client, i: nat)
    requires CanDrain(c) && c.latch != 0 && c.state != Online && i < |c.tasks| && c.tasks[i].Pinging?
    ensures CanDrain(Apply(c, Go(i, PingAnswer(true))))
    ensures Total(Rank, Apply(c, Go(i, PingAnswer(true))).tasks) < Total(Rank, c.tasks)
  {
    TotalReplace(OverpayRisk, c.tasks, i, [Switching(Online)]);
    Nearer(c, i, PingAnswer(true));
  }

  lemma Goes(c: Client, i: nat)
    requires CanDrain(c) && c.latch != 0 && i < |c.tasks| && Pays(c.tasks[i]) && !c.tasks[i].Pinging?
    requires Some(c.tasks, IsPinging) ==> LeavesOnline(c.tasks[i])
    ensures
      var e := Go(i, Wanted(c.tasks[i]));
      Enabled(c, e) && CanDrain(Apply(c, e)) && Total(Rank, Apply(c, e).tasks) < Total(Rank, c.tasks)
  {
    var t := c.tasks[i];
    var more := Perform(c, t, Wanted(t)).1;
    WantedKeepsRisk(c, t);
    TotalReplace(OverpayRisk, c.tasks, i, more);
    StartsNoUpdate(c, t, Wanted(t));
    SomeReplace(c.tasks, i, more, IsPinging);
    Nearer(c, i, Wanted(t));
  }

  lemma WantedStep(c: Client) returns (e: Event)
    requires CanDrain(c) && c.latch != 0 && c.tasks != []
    ensures Enabled(c, e) && CanDrain(Apply(c, e))
    ensures Total(Rank, Apply(c, e).tasks) < Total(Rank, c.tasks)
  {
    if Some(c.tasks, IsPinging) {
      var i :| 0 <= i < |c.tasks| && IsPinging(c.tasks[i]);
      if HeldOnline(c) {
        LetGo(c, i);
        e := Go(i, PingAnswer(false));
      } else if c.state == Online {
        var j :| 0 <= j < |c.tasks| && LeavesOnline(c.tasks[j]);
        Goes(c, j);
        e := Go(j, Proceed);
      } else {
        BringOnline(c, i);
        e := Go(i, PingAnswer(true));
      }
    } else {
      assert !IsPinging(c.tasks[0]);
      Goes(c, 0);
      e := Go(0, Wanted(c.tasks[0]));
    }
  }

  lemma {:induction false} Drain(c: Client) returns (s: seq<Event>)
    requires CanDrain(c)
    ensures Legal(c, s) && Exec(c, s).latch == 0
    decreases Total(Rank, c.tasks)
  {
    RankNonNegative(c.tasks);
    if c.latch == 0 || c.tasks == [] {
      s := [];
    } else {
      var e := WantedStep(c);
      var rest := Drain(Apply(c, e));
      s := [e] + rest;
      assert s[0] == e && s[1..] == rest;
    }
  }

  ghost predicate CanBeginAgain(c: Client) {
    exists s :: Legal(c, s) && Exec(c, s).latch == 0
  }

  lemma DrainsIff(c: Client)
    requires Sound(c) && AllProper(c.tasks)
    ensures CanBeginAgain(c) <==> c.serviceFailures + SIZE_T * c.wraps <= OverpayReach(c)
  {
    if c.serviceFailures + SIZE_T * c.wraps <= OverpayReach(c) {
      var s := Drain(c);
    } else {
      forall s | Legal(c, s)
        ensures Exec(c, s).latch != 0
      {
        JammedForever(c, s);
      }
    }
  }

  /**
    Exactly when a client is not jammed, after every run: some continuation reaches a latch of zero, so
    that another cycle can begin, if and only if the /service failures, and 2^64 for each time the latch
    has wrapped, do not outnumber the overpayments that there have been or may yet be.
  */
  lemma CanBeginAgainIff(hostname: string, schedule: seq<Event>)
    requires Legal(Init(hostname), schedule)
    ensures
      var c := Exec(Init(hostname), schedule);
      CanBeginAgain(c) <==> c.serviceFailures + SIZE_T * c.wraps <= OverpayReach(c)
  {
    ReachableIsSound(Init(hostname), schedule);
    ReachableIsTight(Init(hostname), schedule);
    DrainsIff(Exec(Init(hostname), schedule));
  }

  lemma PingIsRisk(ts: seq<Task>)
    requires Some(ts, IsPinging)
    ensures Total(ServiceRisk, ts) >= 1
  {
    var i :| 0 <= i < |ts| && IsPinging(ts[i]);
    forall t: Task ensures ServiceRisk(t) >= 0 {
      if t.Running? {
        TotalNonNegative(InstrServiceRisk, t.code);
      }
    }
    TotalReplace(ServiceRisk, ts, i, []);
    TotalNonNegative(ServiceRisk, Replace(ts, i, []));
  }

  /**
    In the first 2^64 cycles there are two ways of never beginning another: the latch has wrapped, or
    the /service failures outnumber the overpayments that there have been or may yet be.
  */
  lemma JamsInTwoWays(hostname: string, schedule: seq<Event>)
    requires Legal(Init(hostname), schedule)
    requires Exec(Init(hostname), schedule).cycles < SIZE_T
    ensures
      var c := Exec(Init(hostname), schedule);
      !CanBeginAgain(c) <==> c.wraps > 0 || c.serviceFailures > OverpayBound(c)
  {
    var c := Exec(Init(hostname), schedule);
    CanBeginAgainIff(hostname, schedule);
    ScheduleSpendsRisk(Init(hostname), schedule);
    ReachableIsTight(Init(hostname), schedule);
    OverpayRiskNonNegative(c.tasks);
    if HeldOnline(c) {
      PingIsRisk(c.tasks);
    }
  }
}
