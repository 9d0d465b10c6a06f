/**
  The client's refresh protocol.

  `Server::update_info` starts a cycle by setting a latch to `max_steps`, pings the machine, and
  then either pays the latch down itself or starts fetches on a thread pool; each fetch and each
  handler queued on the event loop pays its own share.  The protocol is a state machine: a client
  is a value holding the server's fields and the tasks in flight, and an event lets one task do its
  next indivisible action.  A schedule, that is a sequence of events, is one interleaving; the
  theorems quantify over all of them.

  The test of the latch and its reset are one action.  The counters `cycles`, `serviceFailures`,
  `overpayments` and `wraps` and the lists `signals` and `history` record the run so far.
*/
module RefreshProtocol {
  import opened Sums

  const MAX_STEPS := 6
  // The latch is a size_t; one count_down too many wraps it around.
  const SIZE_T := 0x1_0000_0000_0000_0000

  type SizeT = n: nat | n < SIZE_T

  datatype State = Unknown | Online | Offline

  datatype Endpoint = System | Service | Drives | Updates | Adapters | Services

  // Every endpoint whose fetch is worth one step.
  type PlainEndpoint = e: Endpoint | e != Service witness System

  datatype Flag = AdaptersFlag | DrivesFlag | UpdatesFlag | ServicesFlag

  datatype Flags = Flags(adapters: bool, drives: bool, updates: bool, services: bool) {
    function Get(f: Flag): bool {
      match f
      case AdaptersFlag => adapters
      case DrivesFlag => drives
      case UpdatesFlag => updates
      case ServicesFlag => services
    }

    function Set(f: Flag, b: bool): Flags {
      match f
      case AdaptersFlag => this.(adapters := b)
      case DrivesFlag => this.(drives := b)
      case UpdatesFlag => this.(updates := b)
      case ServicesFlag => this.(services := b)
    }
  }

  const NO_FLAGS := Flags(false, false, false, false)

  // The availability flag a fetch reports to, if any.
  datatype Control = DontCare | Controls(flag: Flag)

  // One action of straight-line code in `update_info`, a handler or a catch block.
  datatype Instr =
    | CountDown
    | ResetHostname
    | Clear(flag: Flag)
    | Issue(what: Endpoint, control: Control)
    | IssueIf(flag: Flag, plain: PlainEndpoint)

  datatype Task =
    | Pinging                                      // update_info, waiting for ping_computer
    | Switching(target: State)                     // update_info, before `state = new_state`
    | Running(code: seq<Instr>)                    // code still to run
    | Fetching(what: Endpoint, control: Control)   // network_get, before the status is known
    | Parsing(what: Endpoint)                      // network_get, status ok, before the parse
    | Queued(what: Endpoint)                       // a handler waiting on the event loop

  datatype Client = Client(
    latch: SizeT,
    state: State,
    hostname: string,
    defaultHostname: string,
    flags: Flags,
    tasks: seq<Task>,
    signals: seq<State>,      // this_online and this_offline, in order of emission
    history: seq<State>,      // values assigned to `state`, in order
    cycles: nat,              // cycles begun
    serviceFailures: nat,     // /service fetches that failed
    overpayments: nat,        // adapters-controlled fetches that ended in an HTTP status
    wraps: nat)               // count_downs of a latch that was already zero

  datatype Outcome =
    | Proceed
    | PingAnswer(up: bool)
    | Throws
    | Status(notImplemented: bool)
    | Accepted
    | Message(hostname: string)

  // A timer tick calls update_info; Go lets one task do its next action.
  datatype Event = Tick | Go(task: nat, outcome: Outcome)

  // ----- the code of update_info -----

  const ONLINE_CODE := [
    Issue(System, DontCare),
    Issue(Service, Controls(ServicesFlag)),
    Issue(Drives, Controls(DrivesFlag)),
    Issue(Updates, Controls(UpdatesFlag)),
    Issue(Adapters, Controls(AdaptersFlag))]

  // The flags tested are not the ones named after the endpoints; this is what the source does.
  const STAY_ONLINE_CODE := [
    CountDown,
    CountDown,
    IssueIf(AdaptersFlag, Drives),
    IssueIf(DrivesFlag, Updates),
    IssueIf(UpdatesFlag, Adapters),
    IssueIf(ServicesFlag, Services)]

  const PAY_ALL_CODE := [CountDown, CountDown, CountDown, CountDown, CountDown, CountDown]

  const RESET_CODE := [
    ResetHostname,
    Clear(AdaptersFlag),
    Clear(DrivesFlag),
    Clear(UpdatesFlag),
    Clear(ServicesFlag)]

  const OFFLINE_CODE := RESET_CODE + PAY_ALL_CODE

  function Init(hostname: string): Client {
    Client(0, Unknown, hostname, hostname, NO_FLAGS, [], [], [], 0, 0, 0, 0)
  }

  function CountDownLatch(c: Client): Client {
    if c.latch == 0 then c.(latch := SIZE_T - 1, wraps := c.wraps + 1) else c.(latch := c.latch - 1)
  }

  function Start(code: seq<Instr>): seq<Task> {
    if code == [] then [] else [Running(code)]
  }

  function Run(c: Client, code: seq<Instr>): (Client, seq<Task>)
    requires code != []
  {
    var rest := Start(code[1..]);
    match code[0]
    case CountDown => (CountDownLatch(c), rest)
    case ResetHostname => (c.(hostname := c.defaultHostname), rest)
    case Clear(f) => (c.(flags := c.flags.Set(f, false)), rest)
    case Issue(w, k) => (c, rest + [Fetching(w, k)])
    case IssueIf(f, w) =>
      if c.flags.Get(f) then (c, rest + [Fetching(w, DontCare)]) else (CountDownLatch(c), rest)
  }

  function Pinged(c: Client, answer: State): (Client, seq<Task>) {
    if answer == c.state then
      (c, Start(if answer == Online then STAY_ONLINE_CODE else PAY_ALL_CODE))
    else if c.state != Unknown then
      (c.(signals := c.signals + [answer]), [Switching(answer)])
    else
      (c, [Switching(answer)])
  }

  function CountFailure(c: Client, what: Endpoint): Client {
    if what == Service then c.(serviceFailures := c.serviceFailures + 1) else c
  }

  function Fetched(c: Client, what: Endpoint, control: Control, o: Outcome): (Client, seq<Task>)
    requires o.Throws? || o.Status? || o.Accepted?
  {
    match o
    case Throws => (CountFailure(c, what), [Running([CountDown])])
    case Status(notImplemented) =>
      var c1 := if notImplemented && control.Controls? then c.(flags := c.flags.Set(control.flag, false)) else c;
      var c2 := CountFailure(c1, what);
      if control == Controls(AdaptersFlag) then
        (c2.(overpayments := c2.overpayments + 1), [Running([CountDown, CountDown])])
      else
        (c2, [Running([CountDown])])
    case Accepted =>
      (if control.Controls? then c.(flags := c.flags.Set(control.flag, true)) else c, [Parsing(what)])
  }

  function Parsed(c: Client, what: Endpoint, o: Outcome): (Client, seq<Task>) {
    if o.Accepted? then (c, [Queued(what)]) else (CountFailure(c, what), [Running([CountDown])])
  }

  function Handled(c: Client, what: Endpoint, o: Outcome): (Client, seq<Task>)
    requires what == System ==> o.Message?
  {
    match what
    case System => (c.(hostname := o.hostname), [Running([CountDown])])
    case Service => (c, [Running([CountDown, Issue(Services, DontCare)])])
    case _ => (c, [Running([CountDown])])
  }

  predicate Accepts(t: Task, o: Outcome) {
    match t
    case Pinging => o.PingAnswer?
    case Switching(_) => o.Proceed?
    case Running(code) => o.Proceed? && code != []
    case Fetching(_, _) => o.Throws? || o.Status? || o.Accepted?
    case Parsing(_) => o.Throws? || o.Accepted?
    case Queued(w) => if w == System then o.Message? else o.Proceed?
  }

  // The fields after task t's next action, and the tasks that replace t.
  function Perform(c: Client, t: Task, o: Outcome): (Client, seq<Task>)
    requires Accepts(t, o)
  {
    match t
    case Pinging => Pinged(c, if o.up then Online else Offline)
    case Switching(s) =>
      (c.(state := s, history := c.history + [s]), Start(if s == Offline then OFFLINE_CODE else ONLINE_CODE))
    case Running(code) => Run(c, code)
    case Fetching(w, k) => Fetched(c, w, k, o)
    case Parsing(w) => Parsed(c, w, o)
    case Queued(w) => Handled(c, w, o)
  }

  predicate Enabled(c: Client, e: Event) {
    e.Go? ==> e.task < |c.tasks| && Accepts(c.tasks[e.task], e.outcome)
  }

  function Apply(c: Client, e: Event): Client
    requires Enabled(c, e)
  {
    match e
    case Tick =>
      if c.latch != 0 then c
      else c.(latch := MAX_STEPS, tasks := c.tasks + [Pinging], cycles := c.cycles + 1)
    case Go(i, o) =>
      var (c', after) := Perform(c, c.tasks[i], o);
      c'.(tasks := Replace(c.tasks, i, after))
  }

  // A schedule is legal when each of its events is enabled in turn.
  predicate Legal(c: Client, schedule: seq<Event>)
    decreases |schedule|
  {
    schedule == [] || (Enabled(c, schedule[0]) && Legal(Apply(c, schedule[0]), schedule[1..]))
  }

  function Exec(c: Client, schedule: seq<Event>): Client
    requires Legal(c, schedule)
    decreases |schedule|
  {
    if schedule == [] then c else Exec(Apply(c, schedule[0]), schedule[1..])
  }
}
