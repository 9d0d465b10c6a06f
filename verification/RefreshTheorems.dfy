/**
  What the refresh protocol keeps in every interleaving.
*/
module RefreshTheorems {
  import opened Sums
  import opened RefreshProtocol

  // ----- the weight of work not yet done -----

  function InstrWeight(i: Instr): int {
    match i
    case CountDown => 1
    case Issue(w, _) => if w == Service then 2 else 1
    case IssueIf(_, _) => 1
    case _ => 0
  }

  function Weight(t: Task): int {
    match t
    case Pinging => MAX_STEPS
    case Switching(_) => MAX_STEPS
    case Running(code) => Total(InstrWeight, code)
    case Fetching(w, _) => if w == Service then 2 else 1
    case Parsing(w) => if w == Service then 2 else 1
    case Queued(w) => if w == Service then 2 else 1
  }

  // The latch, less all that is still to be paid, corrected for the two faults and for wrap-around.
  function Balance(c: Client): int {
    Owed(c) - Total(Weight, c.tasks)
  }

  function Owed(c: Client): int {
    c.latch - c.serviceFailures + c.overpayments - SIZE_T * c.wraps
  }

  lemma OnlineWeight()
    ensures Total(InstrWeight, ONLINE_CODE) == MAX_STEPS
  {
  }

  lemma StayOnlineWeight()
    ensures Total(InstrWeight, STAY_ONLINE_CODE) == MAX_STEPS
  {
  }

  lemma OfflineWeight()
    ensures Total(InstrWeight, PAY_ALL_CODE) == MAX_STEPS
    ensures Total(InstrWeight, OFFLINE_CODE) == MAX_STEPS
  {
    TotalConcat(InstrWeight, RESET_CODE, PAY_ALL_CODE);
  }

  lemma CodeWeights()
    ensures Total(InstrWeight, ONLINE_CODE) == MAX_STEPS
    ensures Total(InstrWeight, STAY_ONLINE_CODE) == MAX_STEPS
    ensures Total(InstrWeight, PAY_ALL_CODE) == MAX_STEPS
    ensures Total(InstrWeight, OFFLINE_CODE) == MAX_STEPS
  {
    OnlineWeight();
    StayOnlineWeight();
    OfflineWeight();
  }

  lemma StartWeight(code: seq<Instr>)
    ensures Total(Weight, Start(code)) == Total(InstrWeight, code)
  {
  }

  lemma RunKeepsBalance(c: Client, code: seq<Instr>)
    requires code != []
    ensures var (c', more) := Run(c, code); Owed(c') - Total(Weight, more) == Owed(c) - Total(InstrWeight, code)
  {
    StartWeight(code[1..]);
    match code[0]
    case Issue(w, k) => TotalConcat(Weight, Start(code[1..]), [Fetching(w, k)]);
    case IssueIf(f, w) => TotalConcat(Weight, Start(code[1..]), [Fetching(w, DontCare)]);
    case _ =>
  }

  lemma PingedKeepsBalance(c: Client, answer: State)
    ensures var (c', more) := Pinged(c, answer); Owed(c') - Total(Weight, more) == Owed(c) - MAX_STEPS
  {
    CodeWeights();
    StartWeight(STAY_ONLINE_CODE);
    StartWeight(PAY_ALL_CODE);
  }

  lemma FetchedKeepsBalance(c: Client, w: Endpoint, k: Control, o: Outcome)
    requires o.Throws? || o.Status? || o.Accepted?
    ensures
      var (c', more) := Fetched(c, w, k, o);
      Owed(c') - Total(Weight, more) == Owed(c) - Weight(Fetching(w, k))
  {
    CountDownWeights();
  }

  lemma HandledKeepsBalance(c: Client, w: Endpoint, o: Outcome)
    requires w == System ==> o.Message?
    ensures var (c', more) := Handled(c, w, o); Owed(c') - Total(Weight, more) == Owed(c) - Weight(Queued(w))
  {
    CountDownWeights();
  }

  lemma CountDownWeights()
    ensures Total(Weight, [Running([CountDown])]) == 1
    ensures Total(Weight, [Running([CountDown, CountDown])]) == 2
    ensures Total(Weight, [Running([CountDown, Issue(Services, DontCare)])]) == 2
  {
  }

  // Whatever a task does next, what it pays leaves the work still to do.
  lemma SwitchedKeepsBalance(c: Client, s: State)
    ensures
      var (c', more) := Perform(c, Switching(s), Proceed);
      Owed(c') - Total(Weight, more) == Owed(c) - Weight(Switching(s))
  {
    CodeWeights();
    StartWeight(if s == Offline then OFFLINE_CODE else ONLINE_CODE);
  }

  lemma PerformKeepsBalance(c: Client, t: Task, o: Outcome)
    requires Accepts(t, o)
    ensures var (c', more) := Perform(c, t, o); Owed(c') - Total(Weight, more) == Owed(c) - Weight(t)
  {
    match t
    case Pinging => PingedKeepsBalance(c, if o.up then Online else Offline);
    case Switching(s) => SwitchedKeepsBalance(c, s);
    case Running(code) => RunKeepsBalance(c, code);
    case Fetching(w, k) => FetchedKeepsBalance(c, w, k, o);
    case Parsing(w) => CountDownWeights();
    case Queued(w) => HandledKeepsBalance(c, w, o);
  }

  lemma StepKeepsBalance(c: Client, e: Event)
    requires Enabled(c, e)
    ensures Balance(Apply(c, e)) == Balance(c)
  {
    match e
    case Tick => TotalConcat(Weight, c.tasks, [Pinging]);
    case Go(i, o) =>
      PerformKeepsBalance(c, c.tasks[i], o);
      TotalReplace(Weight, c.tasks, i, Perform(c, c.tasks[i], o).1);
  }

  lemma {:induction false} ScheduleKeepsBalance(c: Client, schedule: seq<Event>)
    requires Legal(c, schedule)
    ensures Balance(Exec(c, schedule)) == Balance(c)
    decreases |schedule|
  {
    if schedule != [] {
      StepKeepsBalance(c, schedule[0]);
      ScheduleKeepsBalance(Apply(c, schedule[0]), schedule[1..]);
    }
  }

  /**
    Conservation.  At every point of every run, over any number of cycles, the latch is the weight of
    the work not yet done, plus one for each /service fetch that failed, less one for each
    adapters-controlled fetch that ended in an HTTP status, modulo the width of the latch.
  */
  lemma LatchIsOutstandingWork(hostname: string, schedule: seq<Event>)
    requires Legal(Init(hostname), schedule)
    ensures
      var c := Exec(Init(hostname), schedule);
      c.latch == Total(Weight, c.tasks) + c.serviceFailures - c.overpayments + SIZE_T * c.wraps
  {
    ScheduleKeepsBalance(Init(hostname), schedule);
  }

  // ----- when a cycle may begin -----

  // A task that still has a count_down or a fetch ahead of it.
  predicate Pays(t: Task) {
    t.Running? ==> t.code != [] && InstrWeight(t.code[|t.code| - 1]) >= 1
  }

  predicate AllPay(ts: seq<Task>) {
    forall i :: 0 <= i < |ts| ==> Pays(ts[i])
  }

  lemma PaysWeight(t: Task)
    requires Pays(t)
    ensures Weight(t) >= 1
  {
    if t.Running? {
      var n := |t.code| - 1;
      assert t.code == t.code[..n] + [t.code[n]];
      TotalConcat(InstrWeight, t.code[..n], [t.code[n]]);
      TotalNonNegative(InstrWeight, t.code[..n]);
    }
  }

  lemma OutstandingWeight(ts: seq<Task>)
    requires AllPay(ts)
    ensures Total(Weight, ts) >= |ts|
  {
    forall i | 0 <= i < |ts| ensures Weight(ts[i]) >= 1 {
      PaysWeight(ts[i]);
    }
    TotalPositive(Weight, ts);
  }

  lemma PerformKeepsPaying(c: Client, t: Task, o: Outcome)
    requires Accepts(t, o) && Pays(t)
    ensures AllPay(Perform(c, t, o).1)
  {
  }

  // What every reachable client satisfies.
  predicate Sound(c: Client) {
    && Balance(c) == 0
    && AllPay(c.tasks)
    && (c.overpayments == 0 ==> c.wraps == 0)
  }

  lemma PerformWraps(c: Client, t: Task, o: Outcome)
    requires Accepts(t, o)
    ensures
      var c' := Perform(c, t, o).0;
      c.overpayments <= c'.overpayments && (c'.wraps == c.wraps || c.latch == 0)
  {
  }

  lemma StepKeepsSound(c: Client, e: Event)
    requires Sound(c) && Enabled(c, e)
    ensures Sound(Apply(c, e))
  {
    StepKeepsBalance(c, e);
    match e
    case Tick =>
    case Go(i, o) =>
      PerformWraps(c, c.tasks[i], o);
      OutstandingWeight(c.tasks);
      PerformKeepsPaying(c, c.tasks[i], o);
      ReplaceKeepsPaying(c.tasks, i, Perform(c, c.tasks[i], o).1);
  }

  lemma ReplaceKeepsPaying(ts: seq<Task>, i: nat, more: seq<Task>)
    requires i < |ts| && AllPay(ts) && AllPay(more)
    ensures AllPay(Replace(ts, i, more))
  {
  }

  lemma {:induction false} ReachableIsSound(c: Client, schedule: seq<Event>)
    requires Sound(c) && Legal(c, schedule)
    ensures Sound(Exec(c, schedule))
    decreases |schedule|
  {
    if schedule != [] {
      StepKeepsSound(c, schedule[0]);
      ReachableIsSound(Apply(c, schedule[0]), schedule[1..]);
    }
  }

  /**
    When update_info finds the latch at zero, so that a cycle begins, the work of earlier cycles is
    done exactly when the overpayments of the run so far match its /service failures.
  */
  lemma CycleBeginsCleanIff(hostname: string, schedule: seq<Event>)
    requires Legal(Init(hostname), schedule)
    requires Exec(Init(hostname), schedule).latch == 0
    ensures
      var c := Exec(Init(hostname), schedule);
      c.tasks == [] <==> c.overpayments == c.serviceFailures + SIZE_T * c.wraps
  {
    ReachableIsSound(Init(hostname), schedule);
    OutstandingWeight(Exec(Init(hostname), schedule).tasks);
  }

  /**
    Without an overpayment no cycle ever begins while earlier work is outstanding, the latch never
    wraps, and it is exactly the outstanding work plus the /service failures.
  */
  lemma NoOverlapWithoutOverpayment(hostname: string, schedule: seq<Event>)
    requires Legal(Init(hostname), schedule)
    requires Exec(Init(hostname), schedule).overpayments == 0
    ensures
      var c := Exec(Init(hostname), schedule);
      && c.wraps == 0
      && c.latch == Total(Weight, c.tasks) + c.serviceFailures
      && (c.latch == 0 <==> c.tasks == [] && c.serviceFailures == 0)
  {
    ReachableIsSound(Init(hostname), schedule);
    OutstandingWeight(Exec(Init(hostname), schedule).tasks);
  }

  // ----- one cycle, from quiescence to quiescence -----

  // How often a task may yet make the /service fetch fail, or overpay.
  function InstrServiceRisk(i: Instr): int {
    if i.Issue? && i.what == Service then 1 else 0
  }

  function ServiceRisk(t: Task): int {
    match t
    case Pinging => 1
    case Switching(s) => if s == Offline then 0 else 1
    case Running(code) => Total(InstrServiceRisk, code)
    case Fetching(w, _) => if w == Service then 1 else 0
    case Parsing(w) => if w == Service then 1 else 0
    case Queued(_) => 0
  }

  function InstrOverpayRisk(i: Instr): int {
    if i.Issue? && i.control == Controls(AdaptersFlag) then 1 else 0
  }

  function OverpayRisk(t: Task): int {
    match t
    case Pinging => 1
    case Switching(s) => if s == Offline then 0 else 1
    case Running(code) => Total(InstrOverpayRisk, code)
    case Fetching(_, k) => if k == Controls(AdaptersFlag) then 1 else 0
    case Parsing(_) => 0
    case Queued(_) => 0
  }

  lemma OnlineRisks()
    ensures Total(InstrServiceRisk, ONLINE_CODE) == Total(InstrOverpayRisk, ONLINE_CODE) == 1
  {
  }

  lemma StayOnlineRisks()
    ensures Total(InstrServiceRisk, STAY_ONLINE_CODE) == Total(InstrOverpayRisk, STAY_ONLINE_CODE) == 0
  {
  }

  lemma OfflineRisks()
    ensures Total(InstrServiceRisk, PAY_ALL_CODE) == Total(InstrOverpayRisk, PAY_ALL_CODE) == 0
    ensures Total(InstrServiceRisk, OFFLINE_CODE) == Total(InstrOverpayRisk, OFFLINE_CODE) == 0
  {
    TotalConcat(InstrServiceRisk, RESET_CODE, PAY_ALL_CODE);
    TotalConcat(InstrOverpayRisk, RESET_CODE, PAY_ALL_CODE);
  }

  lemma CodeRisks()
    ensures Total(InstrServiceRisk, ONLINE_CODE) == Total(InstrOverpayRisk, ONLINE_CODE) == 1
    ensures Total(InstrServiceRisk, STAY_ONLINE_CODE) == Total(InstrOverpayRisk, STAY_ONLINE_CODE) == 0
    ensures Total(InstrServiceRisk, PAY_ALL_CODE) == Total(InstrOverpayRisk, PAY_ALL_CODE) == 0
    ensures Total(InstrServiceRisk, OFFLINE_CODE) == Total(InstrOverpayRisk, OFFLINE_CODE) == 0
  {
    OnlineRisks();
    StayOnlineRisks();
    OfflineRisks();
  }

  lemma StartRisks(code: seq<Instr>, rest: seq<Task>)
    ensures Total(ServiceRisk, Start(code) + rest) == Total(InstrServiceRisk, code) + Total(ServiceRisk, rest)
    ensures Total(OverpayRisk, Start(code) + rest) == Total(InstrOverpayRisk, code) + Total(OverpayRisk, rest)
  {
    TotalConcat(ServiceRisk, Start(code), rest);
    TotalConcat(OverpayRisk, Start(code), rest);
  }

  lemma CountDownRisks()
    ensures Total(ServiceRisk, [Running([CountDown])]) == Total(OverpayRisk, [Running([CountDown])]) == 0
    ensures Total(ServiceRisk, [Running([CountDown, CountDown])]) == 0
    ensures Total(OverpayRisk, [Running([CountDown, CountDown])]) == 0
    ensures Total(ServiceRisk, [Running([CountDown, Issue(Services, DontCare)])]) == 0
    ensures Total(OverpayRisk, [Running([CountDown, Issue(Services, DontCare)])]) == 0
  {
  }

  // Each failure uses up the risk it was.
  predicate RiskSpent(c: Client, t: Task, c': Client, more: seq<Task>) {
    && c.serviceFailures <= c'.serviceFailures
    && c.overpayments <= c'.overpayments
    && c'.serviceFailures + Total(ServiceRisk, more) <= c.serviceFailures + ServiceRisk(t)
    && c'.overpayments + Total(OverpayRisk, more) <= c.overpayments + OverpayRisk(t)
    && c'.cycles == c.cycles
  }

  lemma RunSpendsRisk(c: Client, code: seq<Instr>)
    requires code != []
    ensures RiskSpent(c, Running(code), Run(c, code).0, Run(c, code).1)
  {
    match code[0]
    case Issue(w, k) => StartRisks(code[1..], [Fetching(w, k)]);
    case IssueIf(f, w) =>
      StartRisks(code[1..], [Fetching(w, DontCare)]);
      StartedRisks(code[1..]);
    case _ => StartedRisks(code[1..]);
  }

  lemma StartedRisks(code: seq<Instr>)
    ensures Total(ServiceRisk, Start(code)) == Total(InstrServiceRisk, code)
    ensures Total(OverpayRisk, Start(code)) == Total(InstrOverpayRisk, code)
  {
  }

  lemma PingedSpendsRisk(c: Client, answer: State)
    requires answer != Unknown
    ensures RiskSpent(c, Pinging, Pinged(c, answer).0, Pinged(c, answer).1)
  {
    CodeRisks();
    StartedRisks(STAY_ONLINE_CODE);
    StartedRisks(PAY_ALL_CODE);
  }

  lemma FetchedSpendsRisk(c: Client, w: Endpoint, k: Control, o: Outcome)
    requires o.Throws? || o.Status? || o.Accepted?
    ensures RiskSpent(c, Fetching(w, k), Fetched(c, w, k, o).0, Fetched(c, w, k, o).1)
  {
    CountDownRisks();
  }

  lemma ParsedSpendsRisk(c: Client, w: Endpoint, o: Outcome)
    ensures RiskSpent(c, Parsing(w), Parsed(c, w, o).0, Parsed(c, w, o).1)
  {
    CountDownRisks();
  }

  lemma HandledSpendsRisk(c: Client, w: Endpoint, o: Outcome)
    requires w == System ==> o.Message?
    ensures RiskSpent(c, Queued(w), Handled(c, w, o).0, Handled(c, w, o).1)
  {
    CountDownRisks();
  }

  lemma SwitchedSpendsRisk(c: Client, s: State)
    ensures RiskSpent(c, Switching(s), Perform(c, Switching(s), Proceed).0, Perform(c, Switching(s), Proceed).1)
  {
    CodeRisks();
    StartedRisks(if s == Offline then OFFLINE_CODE else ONLINE_CODE);
  }

  lemma PerformSpendsRisk(c: Client, t: Task, o: Outcome)
    requires Accepts(t, o)
    ensures RiskSpent(c, t, Perform(c, t, o).0, Perform(c, t, o).1)
  {
    match t
    case Pinging => PingedSpendsRisk(c, if o.up then Online else Offline);
    case Switching(s) => SwitchedSpendsRisk(c, s);
    case Running(code) => RunSpendsRisk(c, code);
    case Fetching(w, k) => FetchedSpendsRisk(c, w, k, o);
    case Parsing(w) => ParsedSpendsRisk(c, w, o);
    case Queued(w) => HandledSpendsRisk(c, w, o);
  }

  // Failures so far and the failures still possible.
  function ServiceBound(c: Client): int {
    c.serviceFailures + Total(ServiceRisk, c.tasks)
  }

  function OverpayBound(c: Client): int {
    c.overpayments + Total(OverpayRisk, c.tasks)
  }

  lemma StepSpendsRisk(c: Client, e: Event)
    requires Enabled(c, e)
    ensures
      var c' := Apply(c, e);
      && c.serviceFailures <= c'.serviceFailures
      && c.overpayments <= c'.overpayments
      && c.cycles <= c'.cycles
      && ServiceBound(c') <= ServiceBound(c) + (c'.cycles - c.cycles)
      && OverpayBound(c') <= OverpayBound(c) + (c'.cycles - c.cycles)
  {
    match e
    case Tick =>
      TotalConcat(ServiceRisk, c.tasks, [Pinging]);
      TotalConcat(OverpayRisk, c.tasks, [Pinging]);
    case Go(i, o) =>
      PerformSpendsRisk(c, c.tasks[i], o);
      TotalReplace(ServiceRisk, c.tasks, i, Perform(c, c.tasks[i], o).1);
      TotalReplace(OverpayRisk, c.tasks, i, Perform(c, c.tasks[i], o).1);
  }

  lemma {:induction false} ScheduleSpendsRisk(c: Client, schedule: seq<Event>)
    requires Legal(c, schedule)
    ensures
      var c' := Exec(c, schedule);
      && c.serviceFailures <= c'.serviceFailures
      && c.overpayments <= c'.overpayments
      && c.cycles <= c'.cycles
      && ServiceBound(c') <= ServiceBound(c) + (c'.cycles - c.cycles)
      && OverpayBound(c') <= OverpayBound(c) + (c'.cycles - c.cycles)
    decreases |schedule|
  {
    if schedule != [] {
      StepSpendsRisk(c, schedule[0]);
      ScheduleSpendsRisk(Apply(c, schedule[0]), schedule[1..]);
    }
  }

  // With nothing in flight and the latch above zero, update_info returns at its guard for ever.
  lemma {:induction false} StuckForever(c: Client, schedule: seq<Event>)
    requires c.tasks == [] && c.latch != 0
    requires Legal(c, schedule)
    ensures Exec(c, schedule) == c
    decreases |schedule|
  {
    if schedule != [] {
      StuckForever(c, schedule[1..]);
    }
  }

  // The schedule is one whole cycle: it begins one with nothing in flight and runs it to the end.
  predicate WholeCycle(c: Client, schedule: seq<Event>) {
    && c.tasks == [] && c.latch == 0
    && Legal(c, schedule)
    && var c' := Exec(c, schedule);
    && c'.tasks == []
    && c'.cycles == c.cycles + 1
  }

  /**
    The six credits of a cycle are paid, so that the next cycle can begin, exactly when its /service
    fetch failed and its adapters-controlled fetch ended in an HTTP status, or neither happened.
    Otherwise the latch ends at one, or wrapped around, and the client never refreshes again.
  */
  lemma CreditsPaidIff(c: Client, schedule: seq<Event>, later: seq<Event>)
    requires WholeCycle(c, schedule)
    requires Legal(Exec(c, schedule), later)
    ensures
      var c' := Exec(c, schedule);
      var failed := c'.serviceFailures != c.serviceFailures;
      var overpaid := c'.overpayments != c.overpayments;
      && (c'.latch == 0 <==> (failed <==> overpaid))
      && (c'.latch == 1 <==> failed && !overpaid)
      && (c'.latch != 0 ==> Exec(c', later) == c')
  {
    var c' := Exec(c, schedule);
    ScheduleKeepsBalance(c, schedule);
    ScheduleSpendsRisk(c, schedule);
    if c'.latch != 0 {
      StuckForever(c', later);
    }
  }

  // What the first action of a run hears, after any number of ticks.
  function FirstOutcome(schedule: seq<Event>): Outcome {
    if schedule == [] then Proceed
    else if schedule[0].Go? then schedule[0].outcome
    else FirstOutcome(schedule[1..])
  }

  /**
    The first action of every whole cycle is its ping's answer.  If that finds the machine still online,
    or offline, the cycle is paid for: no fetch of it can fail in either of the two ways.
  */
  lemma QuietCyclesArePaid(c: Client, schedule: seq<Event>)
    requires WholeCycle(c, schedule)
    ensures FirstOutcome(schedule).PingAnswer?
    ensures (FirstOutcome(schedule).up ==> c.state == Online) ==> Exec(c, schedule).latch == 0
  {
    assert schedule[0].Tick?;
    var begun := Apply(c, Tick);
    assert begun.tasks == [Pinging];
    QuietPing(begun, schedule[1..]);
    ScheduleKeepsBalance(c, schedule);
  }

  lemma {:induction false} QuietPing(c: Client, schedule: seq<Event>)
    requires c.tasks == [Pinging] && c.latch != 0 && Legal(c, schedule)
    requires Exec(c, schedule).tasks == [] && Exec(c, schedule).cycles == c.cycles
    ensures FirstOutcome(schedule).PingAnswer?
    ensures
      var c' := Exec(c, schedule);
      (FirstOutcome(schedule).up ==> c.state == Online) ==>
        c'.serviceFailures == c.serviceFailures && c'.overpayments == c.overpayments
    decreases |schedule|
  {
    var e, next := schedule[0], Apply(c, schedule[0]);
    if e.Tick? {
      QuietPing(c, schedule[1..]);
    } else {
      var answer := if e.outcome.up then Online else Offline;
      assert next.tasks == Pinged(c, answer).1;
      ScheduleSpendsRisk(next, schedule[1..]);
      if e.outcome.up ==> c.state == Online {
        QuietAnswer(c, answer);
      }
    }
  }

  lemma QuietAnswer(c: Client, answer: State)
    requires answer == Offline || answer == c.state == Online
    ensures
      var (c', more) := Pinged(c, answer);
      && Total(ServiceRisk, more) == 0
      && Total(OverpayRisk, more) == 0
      && c'.serviceFailures == c.serviceFailures
      && c'.overpayments == c.overpayments
      && c'.cycles == c.cycles
  {
    CodeRisks();
    StartedRisks(STAY_ONLINE_CODE);
    StartedRisks(PAY_ALL_CODE);
  }

  lemma {:induction false} ExecConcat(c: Client, a: seq<Event>, b: seq<Event>)
    ensures Legal(c, a + b) <==> Legal(c, a) && Legal(Exec(c, a), b)
    ensures Legal(c, a + b) ==> Exec(c, a + b) == Exec(Exec(c, a), b)
    decreases |a|
  {
    if a == [] {
      assert a + b == b;
    } else {
      assert (a + b)[1..] == a[1..] + b;
      if Enabled(c, a[0]) {
        ExecConcat(Apply(c, a[0]), a[1..], b);
      }
    }
  }
}
