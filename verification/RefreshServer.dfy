/**
  The refresh protocol as the Server's own methods.  Each method, running alone, is proved to do what a
  schedule of the state machine does in which only its task acts.  How tasks interleave is a matter of
  the state machine and its theorems.
*/
module RefreshServer {
  import opened RefreshCode
  import opened RefreshProtocol
  import opened RefreshTheorems
  import opened Sums

  // How a fetch ends: an exception, an HTTP status other than ok, or a body that parses or does not.
  datatype Response = Exception | HttpStatus(notImplemented: bool) | Body(parses: bool)

  // The count_downs that a failed fetch makes.
  function Dues(control: Control, r: Response): nat {
    if r == Body(true) then 0 else if r.HttpStatus? && control == Controls(AdaptersFlag) then 2 else 1
  }

  // What an answer leaves of a flag.
  function Answered(r: Response, told: bool, before: bool): bool {
    if !told then before
    else
      match r
      case Body(_) => true
      case HttpStatus(notImplemented) => !notImplemented && before
      case Exception => before
  }

  function Without(ts: seq<Task>, i: nat): seq<Task>
    requires i < |ts|
  {
    ts[..i] + ts[i + 1..]
  }

  lemma LatchedTick(c: Client)
    requires c.latch != 0
    ensures Apply(c, Tick) == c
  {
  }

  // What a fetch leaves behind.
  ghost predicate Ended(c0: Client, i: nat, r: Response, c: Client) {
    && i < |c0.tasks| && c0.tasks[i].Fetching?
    && var what, k := c0.tasks[i].what, c0.tasks[i].control;
    && c.flags.adapters == Answered(r, k == Controls(AdaptersFlag), c0.flags.adapters)
    && c.flags.drives == Answered(r, k == Controls(DrivesFlag), c0.flags.drives)
    && c.flags.updates == Answered(r, k == Controls(UpdatesFlag), c0.flags.updates)
    && c.flags.services == Answered(r, k == Controls(ServicesFlag), c0.flags.services)
    && c.tasks == (if r == Body(true) then c0.tasks[i := Queued(what)] else Without(c0.tasks, i))
    && c.latch == Paid(c0.latch, Dues(k, r)) && c.state == c0.state && c.hostname == c0.hostname
  }

  // After the actions of a fetch that failed.
  lemma FailedFetchEnds(c0: Client, i: nat, o: Outcome, r: Response, c: Client)
    requires i < |c0.tasks| && c0.tasks[i].Fetching?
    requires (o.Throws? && r == Exception) || (o.Status? && r == HttpStatus(o.notImplemented))
    requires
      var c1 := Fetched(c0, c0.tasks[i].what, c0.tasks[i].control, o).0;
      && c.flags == c1.flags && c.state == c1.state && c.hostname == c1.hostname
      && c.tasks == Without(c0.tasks, i) && c.latch == Paid(c1.latch, Dues(c0.tasks[i].control, r))
    ensures Ended(c0, i, r, c)
  {
    var k := c0.tasks[i].control;
    if o.Status? && o.notImplemented && k.Controls? {
      assert c.flags == c0.flags.Set(k.flag, false);
    }
  }

  lemma BodyEnds(c0: Client, i: nat, parses: bool, c: Client)
    requires i < |c0.tasks| && c0.tasks[i].Fetching?
    requires
      var what, k := c0.tasks[i].what, c0.tasks[i].control;
      var c1 := Fetched(c0, what, k, Accepted).0;
      && c.flags == c1.flags && c.state == c1.state && c.hostname == c1.hostname
      && c.tasks == (if parses then c0.tasks[i := Queued(what)] else Without(c0.tasks, i))
      && c.latch == Paid(c1.latch, if parses then 0 else 1)
    ensures Ended(c0, i, Body(parses), c)
  {
    var k := c0.tasks[i].control;
    if k.Controls? {
      assert c.flags == c0.flags.Set(k.flag, true);
    }
  }

  predicate ResetAndPaid(c: Client) {
    && c.latch == 0 && c.hostname == c.defaultHostname
    && !c.flags.adapters && !c.flags.drives && !c.flags.updates && !c.flags.services
  }

  // ----- the class -----

  class Server {
    var stepsDone: SizeT
    var state: State
    var hostname: string
    const defaultHostname: string
    var availableAdapters: bool
    var availableDrives: bool
    var availableUpdates: bool
    var availableServices: bool

    // What the thread pool and the event loop hold.
    var tasks: seq<Task>

    // The run so far.
    ghost var signals: seq<State>
    ghost var history: seq<State>
    ghost var cycles: nat
    ghost var serviceFailures: nat
    ghost var overpayments: nat
    ghost var wraps: nat

    ghost function View(): Client
      reads this
    {
      Client(stepsDone, state, hostname, defaultHostname,
        Flags(availableAdapters, availableDrives, availableUpdates, availableServices),
        tasks, signals, history, cycles, serviceFailures, overpayments, wraps)
    }

    constructor (hostname: string)
      ensures View() == Init(hostname)
    {
      stepsDone, state := 0, Unknown;
      this.hostname, defaultHostname := hostname, hostname;
      availableAdapters, availableDrives, availableUpdates, availableServices := false, false, false, false;
      tasks, signals, history := [], [], [];
      cycles, serviceFailures, overpayments, wraps := 0, 0, 0, 0;
    }

    // n actions of some code have been done since the client was c.
    ghost predicate Did(c: Client, at: nat, code: seq<Instr>, n: nat)
      reads this
    {
      at <= |c.tasks| && n <= |code| && View() == AfterFirst(c, at, code, n)
    }

    method CountDown()
      modifies this`stepsDone, this`wraps
      ensures View() == CountDownLatch(old(View()))
    {
      if stepsDone == 0 {
        stepsDone := SIZE_T - 1;
        wraps := wraps + 1;
      } else {
        stepsDone := stepsDone - 1;
      }
    }

    // A count_down as the next action of some code.
    method Pay(ghost c: Client, ghost at: nat, ghost code: seq<Instr>, ghost n: nat)
      requires Did(c, at, code, n) && n < |code| && code[n] == Instr.CountDown
      modifies this`stepsDone, this`wraps
      ensures Did(c, at, code, n + 1)
    {
      CountDown();
    }

    // Hands a fetch to the pool, as the next action.
    method NetworkGet(what: Endpoint, control: Control, at: nat, ghost c: Client, ghost code: seq<Instr>, ghost n: nat)
      requires Did(c, at, code, n) && n < |code|
      requires code[n] == Issue(what, control)
            || (code[n].IssueIf? && View().flags.Get(code[n].flag) && code[n].plain == what && control == DontCare)
      modifies this`tasks
      ensures Did(c, at, code, n + 1)
    {
      tasks := tasks[..at] + [Fetching(what, control)] + tasks[at..];
    }

    // One line of the branch of update_info for a machine that is still online.
    method GetOrPay(available: bool, what: PlainEndpoint, at: nat,
                    ghost c: Client, ghost code: seq<Instr>, ghost n: nat)
      requires Did(c, at, code, n) && n < |code|
      requires code[n].IssueIf? && code[n].plain == what && available == View().flags.Get(code[n].flag)
      modifies this`stepsDone, this`wraps, this`tasks
      ensures Did(c, at, code, n + 1)
    {
      if available {
        NetworkGet(what, DontCare, at, c, code, n);
      } else {
        CountDown();
      }
    }

    method StayOnline(at: nat, ghost c: Client, ghost code: seq<Instr>)
      requires Did(c, at, code, 0) && IsStayOnline(code)
      modifies this`stepsDone, this`wraps, this`tasks
      ensures Did(c, at, code, |code|)
    {
      ghost var n := |code| - 6;
      Pay(c, at, code, n);
      Pay(c, at, code, n + 1);
      GetOrPay(availableAdapters, Drives, at, c, code, n + 2);
      GetOrPay(availableDrives, Updates, at, c, code, n + 3);
      GetOrPayRest(at, c, code, n + 4);
    }

    method GetOrPayRest(at: nat, ghost c: Client, ghost code: seq<Instr>, ghost n: nat)
      requires Did(c, at, code, n) && n + 2 == |code|
      requires code[n] == IssueIf(UpdatesFlag, Adapters) && code[n + 1] == IssueIf(ServicesFlag, Services)
      modifies this`stepsDone, this`wraps, this`tasks
      ensures Did(c, at, code, |code|)
    {
      GetOrPay(availableUpdates, Adapters, at, c, code, n);
      GetOrPay(availableServices, Services, at, c, code, n + 1);
    }

    // The loop that pays all steps at once, at the end of some code.
    method PayAll(ghost c: Client, ghost at: nat, ghost code: seq<Instr>, ghost n: nat)
      requires Did(c, at, code, n) && |code| == n + MAX_STEPS
      requires forall k :: n <= k < |code| ==> code[k] == Instr.CountDown
      modifies this`stepsDone, this`wraps
      ensures Did(c, at, code, |code|)
    {
      for a := 0 to MAX_STEPS
        invariant Did(c, at, code, n + a)
      {
        Pay(c, at, code, n + a);
      }
    }

    // What follows the assignment of State::Offline.
    method GoOffline(ghost c: Client, ghost at: nat, ghost code: seq<Instr>)
      requires Did(c, at, code, 0) && IsReset(code)
      modifies this`hostname, this`stepsDone, this`wraps
      modifies this`availableAdapters, this`availableDrives, this`availableUpdates, this`availableServices
      ensures Did(c, at, code, |code|)
    {
      ResetAll(c, at, code);
      PayAll(c, at, code, 5);
    }

    method ResetAll(ghost c: Client, ghost at: nat, ghost code: seq<Instr>)
      requires Did(c, at, code, 0) && IsReset(code)
      modifies this`hostname
      modifies this`availableAdapters, this`availableDrives, this`availableUpdates, this`availableServices
      ensures Did(c, at, code, 5)
    {
      ResetHostname(c, at, code, 0);
      ClearFlag(AdaptersFlag, c, at, code, 1);
      ClearFlag(DrivesFlag, c, at, code, 2);
      ClearFlag(UpdatesFlag, c, at, code, 3);
      ClearFlag(ServicesFlag, c, at, code, 4);
    }

    method ResetHostname(ghost c: Client, ghost at: nat, ghost code: seq<Instr>, ghost n: nat)
      requires Did(c, at, code, n) && n < |code| && code[n] == Instr.ResetHostname
      modifies this`hostname
      ensures Did(c, at, code, n + 1)
    {
      if hostname != defaultHostname {
        hostname := defaultHostname;
      }
    }

    // The assignment of false to one of the flags.
    method ClearFlag(flag: Flag, ghost c: Client, ghost at: nat, ghost code: seq<Instr>, ghost n: nat)
      requires Did(c, at, code, n) && n < |code| && code[n] == Clear(flag)
      modifies this`availableAdapters, this`availableDrives, this`availableUpdates, this`availableServices
      ensures Did(c, at, code, n + 1)
    {
      SetFlag(flag, false);
    }

    // What follows the assignment of State::Online.
    method GoOnline(at: nat, ghost c: Client, ghost code: seq<Instr>)
      requires Did(c, at, code, 0) && code == ONLINE_CODE
      modifies this`tasks
      ensures Did(c, at, code, |code|)
    {
      ghost var n := 0;
      NetworkGet(System, DontCare, at, c, code, n);
      n := n + 1;
      NetworkGet(Service, Controls(ServicesFlag), at, c, code, n);
      n := n + 1;
      NetworkGet(Drives, Controls(DrivesFlag), at, c, code, n);
      n := n + 1;
      NetworkGet(Updates, Controls(UpdatesFlag), at, c, code, n);
      n := n + 1;
      NetworkGet(Adapters, Controls(AdaptersFlag), at, c, code, n);
    }

    /**
      update_info does what a tick and then its own actions alone do: nothing at all while the latch is
      not zero.
    */
    method UpdateInfo(up: bool) returns (ghost s: seq<Event>)
      modifies this
      ensures Gets(old(View()), s, View(), |old(tasks)|) && s[0] == Tick
      ensures old(stepsDone) == 0 ==> |s| > 1 && s[1].outcome == PingAnswer(up)
      ensures old(stepsDone) != 0 ==> View() == old(View())
      ensures old(stepsDone) == 0 ==> state == if up then Online else Offline
      ensures old(stepsDone) == 0 && up && old(state) == Online ==>
        && tasks == old(tasks) + (
          (if availableServices then [Fetching(Services, DontCare)] else [])
          + (if availableUpdates then [Fetching(Adapters, DontCare)] else [])
          + (if availableDrives then [Fetching(Updates, DontCare)] else [])
          + (if availableAdapters then [Fetching(Drives, DontCare)] else []))
        && stepsDone == |tasks| - |old(tasks)|
      ensures old(stepsDone) == 0 && up && old(state) != Online ==>
        && tasks == old(tasks) + [
          Fetching(Adapters, Controls(AdaptersFlag)), Fetching(Updates, Controls(UpdatesFlag)),
          Fetching(Drives, Controls(DrivesFlag)), Fetching(Service, Controls(ServicesFlag)),
          Fetching(System, DontCare)]
        && stepsDone == 6
      ensures old(stepsDone) == 0 && !up ==> tasks == old(tasks) && stepsDone == 0
      ensures old(stepsDone) == 0 && !up && old(state) != Offline ==>
        && hostname == defaultHostname
        && !availableAdapters && !availableDrives && !availableUpdates && !availableServices
      ensures up || old(state) == Offline ==> hostname == old(hostname) && View().flags == old(View().flags)
      ensures old(Sound(View())) ==> Sound(View())
    {
      hide Gets, Waiting, Busy, Sound, PagesOf, Flags.Set, Flags.Get, Apply;
      ghost var c0, at := View(), |tasks|;
      s := OneAction(c0, Tick, at);
      if stepsDone != 0 {
        LatchedTick(c0);
        return;
      }
      stepsDone := MAX_STEPS;
      cycles := cycles + 1;
      s := Ping(c0, View(), up);
      var newState := if up then Online else Offline;
      if newState == state {
        s := Stay(c0, s);
        PagesAre(View().flags);
      } else {
        s := Change(c0, s, newState);
      }
      KeepsSound(c0, s, View(), at);
    }

    // What update_info does about a state that is not the same.
    method Change(ghost c0: Client, ghost s: seq<Event>, newState: State) returns (ghost s': seq<Event>)
      requires
        var c := if state != Unknown then View().(signals := signals + [newState]) else View();
        Gets(c0, s, Waiting(c, newState), |tasks|)
      requires stepsDone == MAX_STEPS
      modifies this
      ensures s <= s' && Gets(c0, s', View(), |old(tasks)|)
      ensures state == newState
      ensures newState == Offline ==> ResetAndPaid(View()) && tasks == old(tasks)
      ensures newState != Offline ==>
        && stepsDone == MAX_STEPS && tasks == old(tasks) + FETCHES
        && hostname == old(hostname) && View().flags == old(View().flags)
    {
      if state != Unknown {
        signals := signals + [newState];
      }
      s' := Switch(c0, s, View(), newState);
      state := newState;
      history := history + [newState];
      s' := Follow(c0, s');
    }

    // The branch for a state that is still the same.
    method Stay(ghost c0: Client, ghost s: seq<Event>) returns (ghost s': seq<Event>)
      requires Gets(c0, s, Busy(View(), |tasks|, if state == Online then STAY_ONLINE_CODE else PAY_ALL_CODE), |tasks|)
      requires stepsDone == MAX_STEPS
      modifies this`stepsDone, this`wraps, this`tasks
      ensures s <= s' && Gets(c0, s', View(), |old(tasks)|)
      ensures tasks == old(tasks) + if state == Online then PagesOf(View().flags) else []
      ensures stepsDone == if state == Online then |PagesOf(View().flags)| else 0
    {
      hide Gets, Busy, PagesOf;
      ghost var c, at := View(), |tasks|;
      assert c.tasks[..at] == c.tasks && c.tasks[at..] == [];
      if state == Online {
        OnlinePages(c, at);
        s' := RunsOut(c0, s, c, at, STAY_ONLINE_CODE);
        CodesAre();
        StayOnline(|tasks|, c, STAY_ONLINE_CODE);
      } else {
        SameStatePays(c, at);
        s' := RunsOut(c0, s, c, at, PAY_ALL_CODE);
        PayAll(c, at, PAY_ALL_CODE, 0);
      }
    }

    // What follows the assignment of a new state.
    method Follow(ghost c0: Client, ghost s: seq<Event>) returns (ghost s': seq<Event>)
      requires Gets(c0, s, Busy(View(), |tasks|, if state == Offline then OFFLINE_CODE else ONLINE_CODE), |tasks|)
      requires stepsDone == MAX_STEPS
      modifies this
      ensures s <= s' && Gets(c0, s', View(), |old(tasks)|)
      ensures state == old(state)
      ensures state == Offline ==> ResetAndPaid(View()) && tasks == old(tasks)
      ensures state != Offline ==>
        && stepsDone == MAX_STEPS && tasks == old(tasks) + FETCHES
        && hostname == old(hostname) && View().flags == old(View().flags)
    {
      ghost var at := |tasks|;
      if state == Offline {
        OfflineResets(View(), at);
        s' := RunsOut(c0, s, View(), at, OFFLINE_CODE);
        CodesAre();
        GoOffline(View(), at, OFFLINE_CODE);
      } else {
        OnlineFetches(View(), at);
        s' := RunsOut(c0, s, View(), at, ONLINE_CODE);
        GoOnline(|tasks|, View(), ONLINE_CODE);
      }
    }

    method SetFlag(flag: Flag, value: bool)
      modifies this`availableAdapters, this`availableDrives, this`availableUpdates, this`availableServices
      ensures View() == old(View()).(flags := old(View()).flags.Set(flag, value))
    {
      match flag {
        case AdaptersFlag => availableAdapters := value;
        case DrivesFlag => availableDrives := value;
        case UpdatesFlag => availableUpdates := value;
        case ServicesFlag => availableServices := value;
      }
    }

    // The task at position i has come to its last straight-line code.
    method Leave(i: nat)
      requires i < |tasks|
      modifies this`tasks
      ensures tasks == old(tasks)[..i] + old(tasks)[i + 1..]
    {
      tasks := tasks[..i] + tasks[i + 1..];
    }

    ghost method Fail(what: Endpoint)
      modifies this`serviceFailures
      ensures View() == CountFailure(old(View()), what)
    {
      if what == Service {
        serviceFailures := serviceFailures + 1;
      }
    }

    // The count_downs that end a task.
    method PayOut(i: nat, count: nat, ghost c0: Client, ghost s: seq<Event>) returns (ghost s': seq<Event>)
      requires i <= |tasks| && (count == 1 || count == 2)
      requires Gets(c0, s, Busy(View(), i, CountDowns(count)), i)
      modifies this`stepsDone, this`wraps
      ensures s <= s' && Gets(c0, s', View(), i)
      ensures stepsDone == Paid(old(stepsDone), count)
    {
      ghost var c, code := View(), CountDowns(count);
      CountDownsPay(c, i, count);
      s' := RunsOut(c0, s, c, i, code);
      for k := 0 to count
        invariant Did(c, i, code, k)
      {
        Pay(c, i, code, k);
      }
    }

    /**
      The body that network_get hands to the pool: a fetch does what its own actions alone do.
    */
    method FinishFetch(i: nat, r: Response) returns (ghost s: seq<Event>)
      requires i < |tasks| && tasks[i].Fetching?
      modifies this
      ensures Gets(old(View()), s, View(), i) && s[0].Go? && s[0].task == i
      ensures availableAdapters == Answered(r, old(tasks[i]).control == Controls(AdaptersFlag), old(availableAdapters))
      ensures availableDrives == Answered(r, old(tasks[i]).control == Controls(DrivesFlag), old(availableDrives))
      ensures availableUpdates == Answered(r, old(tasks[i]).control == Controls(UpdatesFlag), old(availableUpdates))
      ensures availableServices == Answered(r, old(tasks[i]).control == Controls(ServicesFlag), old(availableServices))
      ensures tasks == if r == Body(true) then old(tasks)[i := Queued(old(tasks[i]).what)] else Without(old(tasks), i)
      ensures stepsDone == Paid(old(stepsDone), Dues(old(tasks[i]).control, r))
      ensures state == old(state) && hostname == old(hostname)
      ensures old(Sound(View())) ==> Sound(View())
    {
      ghost var c0 := View();
      match r {
        case Exception => s := CatchException(i);
        case HttpStatus(notImplemented) => s := CatchStatus(i, notImplemented);
        case Body(parses) => s := Parse(i, parses);
      }
      KeepsSound(c0, s, View(), i);
    }

    method CatchException(i: nat) returns (ghost s: seq<Event>)
      requires i < |tasks| && tasks[i].Fetching?
      modifies this
      ensures Gets(old(View()), s, View(), i) && s[0] == Go(i, Throws)
      ensures Ended(old(View()), i, Exception, View())
    {
      hide Gets, Busy, Ended, Flags.Set, Flags.Get, Legal, Exec, Apply, Run;
      ghost var c0, what := View(), tasks[i].what;
      Leave(i);
      Fail(what);
      s := Begins(c0, i, Throws, View(), [Instr.CountDown]);
      s := PayOut(i, 1, c0, s);
      FailedFetchEnds(c0, i, Throws, Exception, View());
    }

    // The catch block for an HTTP status, up to its count_downs.
    method Refuse(i: nat, notImplemented: bool) returns (count: nat)
      requires i < |tasks| && tasks[i].Fetching?
      modifies this`availableAdapters, this`availableDrives, this`availableUpdates, this`availableServices
      modifies this`tasks, this`serviceFailures, this`overpayments
      ensures
        var c := old(View());
        var fetch := c.tasks[i];
        && View() == Fetched(c, fetch.what, fetch.control, Status(notImplemented)).0.(tasks := Without(c.tasks, i))
        && count == if fetch.control == Controls(AdaptersFlag) then 2 else 1
    {
      hide Flags.Set, Flags.Get;
      var what, control := tasks[i].what, tasks[i].control;
      if notImplemented && control.Controls? {
        SetFlag(control.flag, false);
      }
      Leave(i);
      Fail(what);
      count := 1;
      if control == Controls(AdaptersFlag) {
        overpayments := overpayments + 1;
        count := 2;
      }
    }

    method CatchStatus(i: nat, notImplemented: bool) returns (ghost s: seq<Event>)
      requires i < |tasks| && tasks[i].Fetching?
      modifies this
      ensures Gets(old(View()), s, View(), i) && s[0] == Go(i, Status(notImplemented))
      ensures Ended(old(View()), i, HttpStatus(notImplemented), View())
    {
      hide Gets, Busy, Ended, Flags.Set, Flags.Get, Legal, Exec, Apply, Run;
      ghost var c0 := View();
      var count := Refuse(i, notImplemented);
      s := Begins(c0, i, Status(notImplemented), View(), CountDowns(count));
      s := PayOut(i, count, c0, s);
      FailedFetchEnds(c0, i, Status(notImplemented), HttpStatus(notImplemented), View());
    }

    // The test of the status, passed.
    method Accept(i: nat) returns (ghost s: seq<Event>)
      requires i < |tasks| && tasks[i].Fetching?
      modifies this`availableAdapters, this`availableDrives, this`availableUpdates, this`availableServices
      modifies this`tasks
      ensures s == [Go(i, Accepted)] && Gets(old(View()), s, View(), i)
      ensures
        var c := old(View());
        var fetch := c.tasks[i];
        View() == Fetched(c, fetch.what, fetch.control, Accepted).0.(tasks := c.tasks[i := Parsing(fetch.what)])
    {
      hide Gets, Flags.Set, Flags.Get;
      ghost var c0 := View();
      var what, control := tasks[i].what, tasks[i].control;
      if control.Controls? {
        SetFlag(control.flag, true);
      }
      assert Replace(tasks, i, [Parsing(what)]) == tasks[i := Parsing(what)];
      tasks := tasks[i := Parsing(what)];
      s := OneAction(c0, Go(i, Accepted), i);
    }

    // The part behind the test of the status.
    method Parse(i: nat, parses: bool) returns (ghost s: seq<Event>)
      requires i < |tasks| && tasks[i].Fetching?
      modifies this
      ensures Gets(old(View()), s, View(), i) && s[0].Go? && s[0].task == i
      ensures Ended(old(View()), i, Body(parses), View())
    {
      hide Gets, Ended, Flags.Set, Flags.Get, Legal, Exec, Run;
      ghost var c0 := View();
      var what := tasks[i].what;
      s := Accept(i);
      ghost var parsing := View();
      if parses {
        assert Replace(tasks, i, [Queued(what)]) == tasks[i := Queued(what)];
        tasks := tasks[i := Queued(what)];
        s := Extend(c0, s, parsing, i, Accepted);
      } else {
        Leave(i);
        Fail(what);
        s := Extend(c0, s, parsing, i, Throws);
        Replaced(parsing.tasks, i, [Running([Instr.CountDown])]);
        assert Apply(parsing, Go(i, Throws)) == Busy(View(), i, CountDowns(1));
        s := PayOut(i, 1, c0, s);
      }
      BodyEnds(c0, i, parses, View());
    }

    // The handlers, as far as the protocol goes; the row models have modules of their own.
    method HandleInfo(i: nat, name: string) returns (ghost s: seq<Event>)
      requires i < |tasks| && tasks[i] == Queued(System)
      modifies this
      ensures Gets(old(View()), s, View(), i) && s[0] == Go(i, Message(name))
      ensures hostname == name && tasks == Without(old(tasks), i) && stepsDone == Paid(old(stepsDone), 1)
      ensures state == old(state) && View().flags == old(View().flags)
      ensures old(Sound(View())) ==> Sound(View())
    {
      ghost var c0 := View();
      if hostname != name {
        hostname := name;
      }
      Leave(i);
      s := Begins(c0, i, Message(name), View(), [Instr.CountDown]);
      s := PayOut(i, 1, c0, s);
      KeepsSound(c0, s, View(), i);
    }

    method HandleRows(i: nat) returns (ghost s: seq<Event>)
      requires i < |tasks| && tasks[i].Queued? && tasks[i].what != System && tasks[i].what != Service
      modifies this
      ensures Gets(old(View()), s, View(), i) && s[0] == Go(i, Proceed)
      ensures tasks == Without(old(tasks), i) && stepsDone == Paid(old(stepsDone), 1)
      ensures state == old(state) && hostname == old(hostname) && View().flags == old(View().flags)
      ensures old(Sound(View())) ==> Sound(View())
    {
      ghost var c0 := View();
      Leave(i);
      s := Begins(c0, i, Proceed, View(), [Instr.CountDown]);
      s := PayOut(i, 1, c0, s);
      KeepsSound(c0, s, View(), i);
    }

    method HandleService(i: nat) returns (ghost s: seq<Event>)
      requires i < |tasks| && tasks[i] == Queued(Service)
      modifies this
      ensures Gets(old(View()), s, View(), i) && s[0] == Go(i, Proceed)
      ensures tasks == old(tasks)[i := Fetching(Services, DontCare)] && stepsDone == Paid(old(stepsDone), 1)
      ensures state == old(state) && hostname == old(hostname) && View().flags == old(View().flags)
      ensures old(Sound(View())) ==> Sound(View())
    {
      ghost var c0, code := View(), [Instr.CountDown, Issue(Services, DontCare)];
      Leave(i);
      ghost var c := View();
      s := Begins(c0, i, Proceed, c, code);
      s := RunsOut(c0, s, c, i, code);
      Pay(c, i, code, 0);
      NetworkGet(Services, DontCare, i, c, code, 1);
      KeepsSound(c0, s, View(), i);
    }
  }

  // After the guard and the ping of update_info; c is the client with the cycle begun.
  lemma Ping(c0: Client, c: Client, up: bool) returns (s: seq<Event>)
    requires c0.latch == 0 && c == c0.(latch := MAX_STEPS, cycles := c0.cycles + 1)
    ensures |s| == 2 && s[0] == Tick && s[1].Go? && s[1].outcome == PingAnswer(up)
    ensures
      var answer := if up then Online else Offline;
      if answer == c.state then
        Gets(c0, s, Busy(c, |c.tasks|, if up then STAY_ONLINE_CODE else PAY_ALL_CODE), |c.tasks|)
      else
        Gets(c0, s, Waiting(if c.state != Unknown then c.(signals := c.signals + [answer]) else c, answer), |c.tasks|)
  {
    var at := |c.tasks|;
    Single(c0, Tick);
    var ticked := Apply(c0, Tick);
    assert ticked.tasks[at] == Pinging;
    s := Extend(c0, [Tick], ticked, at, PingAnswer(up));
    var more := Pinged(ticked, if up then Online else Offline).1;
    assert Replace(ticked.tasks, at, more) == c.tasks + more;
    assert c.tasks[..at] == c.tasks && c.tasks[at..] == [];
    assert c.tasks + more == c.tasks + more + [];
  }

  // update_info before the assignment of the new state.
  function Waiting(c: Client, target: State): Client {
    c.(tasks := c.tasks + [Switching(target)])
  }

  lemma Switch(c0: Client, s: seq<Event>, c: Client, target: State) returns (s': seq<Event>)
    requires Gets(c0, s, Waiting(c, target), |c.tasks|)
    ensures s <= s'
    ensures
      var switched := c.(state := target, history := c.history + [target]);
      Gets(c0, s', Busy(switched, |c.tasks|, if target == Offline then OFFLINE_CODE else ONLINE_CODE), |c.tasks|)
  {
    var at, waiting := |c.tasks|, Waiting(c, target);
    assert waiting.tasks[at] == Switching(target);
    s' := Extend(c0, s, waiting, at, Proceed);
    var more := Perform(waiting, Switching(target), Proceed).1;
    assert Replace(waiting.tasks, at, more) == c.tasks + more;
    assert c.tasks[..at] == c.tasks && c.tasks[at..] == [];
    assert c.tasks + more == c.tasks + more + [];
  }

  lemma Replaced(ts: seq<Task>, i: nat, more: seq<Task>)
    requires i < |ts|
    ensures
      var rest := ts[..i] + ts[i + 1..];
      Replace(ts, i, more) == rest[..i] + more + rest[i..]
  {
    var rest := ts[..i] + ts[i + 1..];
    assert rest[..i] == ts[..i] && rest[i..] == ts[i + 1..];
  }

  // A task's action after which only straight-line code is left of it; c is the client without the task.
  lemma Begins(c0: Client, i: nat, o: Outcome, c: Client, code: seq<Instr>) returns (s: seq<Event>)
    requires i < |c0.tasks| && Accepts(c0.tasks[i], o) && code != []
    requires Perform(c0, c0.tasks[i], o) == (c.(tasks := c0.tasks), [Running(code)])
    requires c.tasks == c0.tasks[..i] + c0.tasks[i + 1..]
    ensures s == [Go(i, o)] && Gets(c0, s, Busy(c, i, code), i)
  {
    s := [Go(i, o)];
    Single(c0, Go(i, o));
    Replaced(c0.tasks, i, [Running(code)]);
  }

  lemma KeepsSound(c0: Client, s: seq<Event>, c: Client, at: nat)
    requires Gets(c0, s, c, at)
    ensures Sound(c0) ==> Sound(c)
  {
    if Sound(c0) {
      ReachableIsSound(c0, s);
    }
  }
}
