/**
  What the availability flags and the hostname of a client say, over every run: what the network told
  last.
*/
module RefreshFlags {
  import opened Sums
  import opened RefreshProtocol

  // The field that a flag names.
  function Field(flags: Flags, f: Flag): bool {
    match f
    case AdaptersFlag => flags.adapters
    case DrivesFlag => flags.drives
    case UpdatesFlag => flags.updates
    case ServicesFlag => flags.services
  }

  // Setting a flag sets the field of that name and no other, and getting it reads that field.
  lemma SetIsReadBack(flags: Flags, f: Flag, g: Flag, b: bool)
    ensures flags.Set(f, b).Get(g) == if g == f then b else flags.Get(g)
    ensures flags.Get(g) == Field(flags, g)
  {
  }

  // ----- the writes of a run -----

  // What an action writes to a flag, and on whose account.
  datatype Write = NoWrite | AcceptedFetch(what: Endpoint) | NotImplemented(what: Endpoint) | Reset

  function TaskWrite(t: Task, o: Outcome, f: Flag): Write
    requires Accepts(t, o)
  {
    match t
    case Fetching(w, k) =>
      if k != Controls(f) then NoWrite
      else if o.Accepted? then AcceptedFetch(w)
      else if o == Status(true) then NotImplemented(w)
      else NoWrite
    case Running(code) => if code[0] == Clear(f) then Reset else NoWrite
    case _ => NoWrite
  }

  function WriteOf(c: Client, e: Event, f: Flag): Write
    requires Enabled(c, e)
  {
    if e.Tick? then NoWrite else TaskWrite(c.tasks[e.task], e.outcome, f)
  }

  function LastWrite(c: Client, schedule: seq<Event>, f: Flag): Write
    requires Legal(c, schedule)
    decreases |schedule|
  {
    if schedule == [] then NoWrite
    else
      var later := LastWrite(Apply(c, schedule[0]), schedule[1..], f);
      if later.NoWrite? then WriteOf(c, schedule[0], f) else later
  }

  // The hostname after a run: that of the last /system answer, or the configured one after a reset.
  function LastName(c: Client, schedule: seq<Event>, name: string): string
    requires Legal(c, schedule)
    decreases |schedule|
  {
    if schedule == [] then name
    else
      var e := schedule[0];
      var next :=
        if e.Tick? then name
        else
          match c.tasks[e.task]
          case Queued(w) => if w == System then e.outcome.hostname else name
          case Running(code) => if code[0] == ResetHostname then c.defaultHostname else name
          case _ => name;
      LastName(Apply(c, e), schedule[1..], next)
  }

  // ----- every flag has one endpoint that writes it -----

  predicate OwnFlag(what: Endpoint, control: Control) {
    control.Controls? ==>
      match control.flag
      case AdaptersFlag => what == Adapters
      case DrivesFlag => what == Drives
      case UpdatesFlag => what == Updates
      case ServicesFlag => what == Service
  }

  predicate IssuesOwn(i: Instr) {
    i.Issue? ==> OwnFlag(i.what, i.control)
  }

  predicate WritesOwn(t: Task) {
    match t
    case Fetching(w, k) => OwnFlag(w, k)
    case Running(code) => forall k :: 0 <= k < |code| ==> IssuesOwn(code[k])
    case _ => true
  }

  predicate AllWriteOwn(ts: seq<Task>) {
    forall i :: 0 <= i < |ts| ==> WritesOwn(ts[i])
  }

  lemma StepWritesOwn(c: Client, e: Event)
    requires Enabled(c, e) && AllWriteOwn(c.tasks)
    ensures AllWriteOwn(Apply(c, e).tasks)
  {
    if e.Go? {
      assert WritesOwn(c.tasks[e.task]);
      assert AllWriteOwn(Perform(c, c.tasks[e.task], e.outcome).1);
    }
  }

  // The endpoint that a flag is named after.
  function Named(f: Flag): Endpoint {
    match f
    case AdaptersFlag => Adapters
    case DrivesFlag => Drives
    case UpdatesFlag => Updates
    case ServicesFlag => Service
  }

  // A flag after its last write: as it was if there is none, or true exactly if it is an accepted fetch.
  predicate Shows(after: Flags, before: Flags, w: Write, f: Flag) {
    Field(after, f) <==> if w.NoWrite? then Field(before, f) else w == AcceptedFetch(Named(f))
  }

  lemma TaskShows(c: Client, t: Task, o: Outcome, f: Flag)
    requires Accepts(t, o) && WritesOwn(t)
    ensures Shows(Perform(c, t, o).0.flags, c.flags, TaskWrite(t, o, f), f)
  {
    if t.Fetching? && t.control.Controls? {
      SetIsReadBack(c.flags, t.control.flag, f, o.Accepted?);
      SetIsReadBack(c.flags.Set(t.control.flag, o.Accepted?), f, f, true);
    }
    if t.Running? && t.code[0].Clear? {
      SetIsReadBack(c.flags, t.code[0].flag, f, false);
      SetIsReadBack(c.flags.Set(t.code[0].flag, false), f, f, true);
    }
  }

  lemma {:induction false} RunShows(c: Client, schedule: seq<Event>, f: Flag)
    requires Legal(c, schedule) && AllWriteOwn(c.tasks)
    ensures Shows(Exec(c, schedule).flags, c.flags, LastWrite(c, schedule, f), f)
    decreases |schedule|
  {
    if schedule != [] {
      var e := schedule[0];
      StepWritesOwn(c, e);
      if e.Go? {
        TaskShows(c, c.tasks[e.task], e.outcome, f);
      }
      RunShows(Apply(c, e), schedule[1..], f);
    }
  }

  lemma {:induction false} RunNames(c: Client, schedule: seq<Event>)
    requires Legal(c, schedule)
    ensures Exec(c, schedule).hostname == LastName(c, schedule, c.hostname)
    decreases |schedule|
  {
    if schedule != [] {
      RunNames(Apply(c, schedule[0]), schedule[1..]);
    }
  }

  /**
    Over every run from the start, whatever its cycles do to each other: each flag is true if and only
    if the last write to it was an accepted fetch of the endpoint it is named after, and the hostname is
    the one last told, or the configured one.
  */
  lemma FlagsAreLastTold(hostname: string, schedule: seq<Event>)
    requires Legal(Init(hostname), schedule)
    ensures
      var c0 := Init(hostname);
      var c := Exec(c0, schedule);
      && (c.flags.adapters <==> LastWrite(c0, schedule, AdaptersFlag) == AcceptedFetch(Adapters))
      && (c.flags.drives <==> LastWrite(c0, schedule, DrivesFlag) == AcceptedFetch(Drives))
      && (c.flags.updates <==> LastWrite(c0, schedule, UpdatesFlag) == AcceptedFetch(Updates))
      && (c.flags.services <==> LastWrite(c0, schedule, ServicesFlag) == AcceptedFetch(Service))
      && c.hostname == LastName(c0, schedule, hostname)
  {
    var c0 := Init(hostname);
    RunShows(c0, schedule, AdaptersFlag);
    RunShows(c0, schedule, DrivesFlag);
    RunShows(c0, schedule, UpdatesFlag);
    RunShows(c0, schedule, ServicesFlag);
    RunNames(c0, schedule);
  }
}
