/**
  Straight-line code of update_info, the handlers and the catch blocks, running alone: the schedule it
  makes, and where it ends.
*/
module RefreshCode {
  import opened RefreshProtocol
  import opened RefreshTheorems
  import opened Sums

  // A task at a place in the list.  The pool has no order; a fetch is kept where the code that issued it is.
  function Spawn(c: Client, at: nat, t: Task): Client
    requires at <= |c.tasks|
  {
    c.(tasks := c.tasks[..at] + [t] + c.tasks[at..])
  }

  // What one action does.
  function After(c: Client, at: nat, i: Instr): (c': Client)
    requires at <= |c.tasks|
    ensures at <= |c'.tasks| && c'.tasks[..at] == c.tasks[..at]
  {
    match i
    case CountDown => CountDownLatch(c)
    case ResetHostname => c.(hostname := c.defaultHostname)
    case Clear(f) => c.(flags := c.flags.Set(f, false))
    case Issue(w, k) => Spawn(c, at, Fetching(w, k))
    case IssueIf(f, w) => if c.flags.Get(f) then Spawn(c, at, Fetching(w, DontCare)) else CountDownLatch(c)
  }

  // What the first n actions of some code do.
  function AfterFirst(c: Client, at: nat, code: seq<Instr>, n: nat): (c': Client)
    requires at <= |c.tasks| && n <= |code|
    ensures at <= |c'.tasks|
  {
    if n == 0 then c else After(AfterFirst(c, at, code, n - 1), at, code[n - 1])
  }

  // The client while code still runs at that place.
  function Busy(c: Client, at: nat, code: seq<Instr>): Client
    requires at <= |c.tasks|
  {
    c.(tasks := c.tasks[..at] + Start(code) + c.tasks[at..])
  }

  // A schedule that gets from c0 to c and lets only the task at that place act after its first event.
  ghost predicate Gets(c0: Client, s: seq<Event>, c: Client, at: nat) {
    && Legal(c0, s) && Exec(c0, s) == c
    && s != [] && forall k :: 1 <= k < |s| ==> s[k].Go? && s[k].task == at
  }

  lemma Extend(c0: Client, s: seq<Event>, c: Client, at: nat, o: Outcome) returns (s': seq<Event>)
    requires Gets(c0, s, c, at) && Enabled(c, Go(at, o))
    ensures s' == s + [Go(at, o)] && Gets(c0, s', Apply(c, Go(at, o)), at)
  {
    s' := s + [Go(at, o)];
    Single(c, Go(at, o));
    ExecConcat(c0, s, [Go(at, o)]);
  }

  lemma Single(c: Client, e: Event)
    requires Enabled(c, e)
    ensures Legal(c, [e]) && Exec(c, [e]) == Apply(c, e)
  {
    var c' := Apply(c, e);
    assert [e][1..] == [];
    assert Legal(c', []) && Exec(c', []) == c';
  }

  lemma OneAction(c: Client, e: Event, at: nat) returns (s: seq<Event>)
    requires Enabled(c, e)
    ensures s == [e] && Gets(c, s, Apply(c, e), at)
  {
    s := [e];
    Single(c, e);
  }

  lemma PutBack(tasks: seq<Task>, at: nat, t: Task, more: seq<Task>)
    requires at <= |tasks|
    ensures
      var busy := tasks[..at] + [t] + tasks[at..];
      at < |busy| && busy[at] == t && Replace(busy, at, more) == tasks[..at] + more + tasks[at..]
  {
    var busy := tasks[..at] + [t] + tasks[at..];
    assert busy[..at] == tasks[..at] && busy[at + 1..] == tasks[at..];
  }

  // A fetch that the code starts stands behind the rest of the code.
  lemma SpawnedBehind(tasks: seq<Task>, at: nat, rest: seq<Task>, t: Task)
    requires at <= |tasks|
    ensures
      var spawned := tasks[..at] + [t] + tasks[at..];
      at <= |spawned| && spawned[..at] + rest + spawned[at..] == tasks[..at] + (rest + [t]) + tasks[at..]
  {
    var spawned := tasks[..at] + [t] + tasks[at..];
    assert spawned[..at] == tasks[..at] && spawned[at..] == [t] + tasks[at..];
  }

  lemma NextAction(c: Client, at: nat, code: seq<Instr>)
    requires at <= |c.tasks| && code != []
    ensures Enabled(Busy(c, at, code), Go(at, Proceed))
    ensures Apply(Busy(c, at, code), Go(at, Proceed)) == Busy(After(c, at, code[0]), at, code[1..])
  {
    var busy, rest := Busy(c, at, code), Start(code[1..]);
    PutBack(c.tasks, at, Running(code), Run(busy, code).1);
    match code[0]
    case Issue(w, k) => SpawnedBehind(c.tasks, at, rest, Fetching(w, k));
    case IssueIf(_, w) => SpawnedBehind(c.tasks, at, rest, Fetching(w, DontCare));
    case _ =>
  }

  lemma {:induction false} RunsOn(c0: Client, s: seq<Event>, c: Client, at: nat, code: seq<Instr>, n: nat)
    returns (s': seq<Event>)
    requires at <= |c.tasks| && n <= |code| && Gets(c0, s, Busy(c, at, code), at)
    ensures s <= s' && Gets(c0, s', Busy(AfterFirst(c, at, code, n), at, code[n..]), at)
  {
    if n == 0 {
      assert code[0..] == code;
      s' := s;
    } else {
      s' := RunsOn(c0, s, c, at, code, n - 1);
      NextAction(AfterFirst(c, at, code, n - 1), at, code[n - 1..]);
      assert code[n - 1..][1..] == code[n..];
      s' := Extend(c0, s', Busy(AfterFirst(c, at, code, n - 1), at, code[n - 1..]), at, Proceed);
    }
  }

  // Code that runs to its end.
  lemma RunsOut(c0: Client, s: seq<Event>, c: Client, at: nat, code: seq<Instr>) returns (s': seq<Event>)
    requires at <= |c.tasks| && Gets(c0, s, Busy(c, at, code), at)
    ensures s <= s' && Gets(c0, s', AfterFirst(c, at, code, |code|), at)
  {
    s' := RunsOn(c0, s, c, at, code, |code|);
    var end := AfterFirst(c, at, code, |code|);
    assert end.tasks[..at] + [] + end.tasks[at..] == end.tasks;
  }

  // ----- where each code ends -----

  // The latch after n count_downs.
  function Paid(latch: SizeT, n: nat): SizeT {
    (latch - n) % SIZE_T
  }

  lemma PagesAre(flags: Flags)
    ensures PagesOf(flags) ==
      (if flags.services then [Fetching(Services, DontCare)] else [])
      + (if flags.updates then [Fetching(Adapters, DontCare)] else [])
      + (if flags.drives then [Fetching(Updates, DontCare)] else [])
      + (if flags.adapters then [Fetching(Drives, DontCare)] else [])
  {
  }

  // The count_downs that end a task.
  function CountDowns(count: nat): seq<Instr> {
    if count == 1 then [CountDown] else [CountDown, CountDown]
  }

  // The codes, action by action.
  predicate IsStayOnline(code: seq<Instr>) {
    && |code| == 6 && code[0] == code[1] == CountDown
    && code[2] == IssueIf(AdaptersFlag, Drives) && code[3] == IssueIf(DrivesFlag, Updates)
    && code[4] == IssueIf(UpdatesFlag, Adapters) && code[5] == IssueIf(ServicesFlag, Services)
  }

  predicate IsReset(code: seq<Instr>) {
    && |code| == 5 + MAX_STEPS && code[0] == ResetHostname
    && code[1] == Clear(AdaptersFlag) && code[2] == Clear(DrivesFlag)
    && code[3] == Clear(UpdatesFlag) && code[4] == Clear(ServicesFlag)
    && forall k :: 5 <= k < |code| ==> code[k] == CountDown
  }

  lemma CodesAre()
    ensures IsStayOnline(STAY_ONLINE_CODE)
    ensures IsReset(OFFLINE_CODE)
  {
  }

  // The fetches of update_info, the last one first, as they stand in the list.
  const FETCHES := [
    Fetching(Adapters, Controls(AdaptersFlag)),
    Fetching(Updates, Controls(UpdatesFlag)),
    Fetching(Drives, Controls(DrivesFlag)),
    Fetching(Service, Controls(ServicesFlag)),
    Fetching(System, DontCare)]

  function If(available: bool, what: Endpoint): seq<Task> {
    if available then [Fetching(what, DontCare)] else []
  }

  function PagesOf(flags: Flags): seq<Task> {
    If(flags.services, Services) + If(flags.updates, Adapters) + If(flags.drives, Updates) + If(flags.adapters, Drives)
  }

  function With(c: Client, at: nat, more: seq<Task>, latch: SizeT): Client
    requires at <= |c.tasks|
  {
    c.(tasks := c.tasks[..at] + more + c.tasks[at..], latch := latch)
  }

  lemma CountDownsPay(c: Client, at: nat, count: nat)
    requires at <= |c.tasks| && (count == 1 || count == 2)
    ensures var c' := AfterFirst(c, at, CountDowns(count), count);
      c' == c.(latch := Paid(c.latch, count), wraps := c'.wraps)
  {
    var c1 := AfterFirst(c, at, CountDowns(count), 1);
    assert AfterFirst(c, at, CountDowns(count), 0) == c;
    assert c1 == CountDownLatch(c);
    assert count == 2 ==> AfterFirst(c, at, CountDowns(count), 2) == CountDownLatch(c1);
  }

  // Two tasks put at the same place, one after the other.
  lemma SpawnTwice(c: Client, at: nat, more: seq<Task>, t: Task)
    requires at <= |c.tasks|
    ensures
      var c1 := c.(tasks := c.tasks[..at] + more + c.tasks[at..]);
      Spawn(c1, at, t) == c.(tasks := c.tasks[..at] + ([t] + more) + c.tasks[at..])
  {
    var c1 := c.(tasks := c.tasks[..at] + more + c.tasks[at..]);
    assert c1.tasks[..at] == c.tasks[..at] && c1.tasks[at..] == more + c.tasks[at..];
  }

  // One fetch of the branch for a machine that has come online.
  lemma Fetches(c: Client, at: nat, code: seq<Instr>, n: nat, more: seq<Task>)
    requires at <= |c.tasks| && n < |code| && code[n].Issue?
    requires AfterFirst(c, at, code, n) == With(c, at, more, c.latch)
    ensures AfterFirst(c, at, code, n + 1) == With(c, at, [Fetching(code[n].what, code[n].control)] + more, c.latch)
  {
    SpawnTwice(c, at, more, Fetching(code[n].what, code[n].control));
  }

  lemma OnlineFetches(c: Client, at: nat)
    requires at <= |c.tasks|
    ensures AfterFirst(c, at, ONLINE_CODE, |ONLINE_CODE|) == With(c, at, FETCHES, c.latch)
  {
    assert AfterFirst(c, at, ONLINE_CODE, 0) == c == With(c, at, [], c.latch);
    hide AfterFirst, With;
    Fetches(c, at, ONLINE_CODE, 0, []);
    var one := [Fetching(System, DontCare)] + [];
    Fetches(c, at, ONLINE_CODE, 1, one);
    var two := [Fetching(Service, Controls(ServicesFlag))] + one;
    Fetches(c, at, ONLINE_CODE, 2, two);
    var three := [Fetching(Drives, Controls(DrivesFlag))] + two;
    Fetches(c, at, ONLINE_CODE, 3, three);
    var four := [Fetching(Updates, Controls(UpdatesFlag))] + three;
    Fetches(c, at, ONLINE_CODE, 4, four);
    assert [Fetching(Adapters, Controls(AdaptersFlag))] + four == FETCHES;
  }

  // One line of the branch for a machine that is still online.
  lemma GetsOrPays(c: Client, at: nat, code: seq<Instr>, n: nat, more: seq<Task>, latch: SizeT)
    requires at <= |c.tasks| && n < |code| && latch > 0 && code[n].IssueIf?
    requires AfterFirst(c, at, code, n) == With(c, at, more, latch)
    ensures
      var got := If(c.flags.Get(code[n].flag), code[n].plain);
      AfterFirst(c, at, code, n + 1) == With(c, at, got + more, latch - 1 + |got|)
  {
    SpawnTwice(c.(latch := latch), at, more, Fetching(code[n].plain, DontCare));
    assert [] + more == more;
  }

  lemma OnlinePays(c: Client, at: nat)
    requires at <= |c.tasks| && c.latch == MAX_STEPS
    ensures AfterFirst(c, at, STAY_ONLINE_CODE, 2) == With(c, at, [], 4)
  {
    AllPaid(c, at, STAY_ONLINE_CODE, 0, 2);
    assert c.tasks[..at] + [] + c.tasks[at..] == c.tasks;
  }

  lemma OnlinePages(c: Client, at: nat)
    requires at <= |c.tasks| && c.latch == MAX_STEPS
    ensures AfterFirst(c, at, STAY_ONLINE_CODE, |STAY_ONLINE_CODE|) == With(c, at, PagesOf(c.flags), |PagesOf(c.flags)|)
  {
    hide AfterFirst, With;
    var code, g := STAY_ONLINE_CODE, c.flags;
    var a, b, d, e := If(g.adapters, Drives), If(g.drives, Updates), If(g.updates, Adapters), If(g.services, Services);
    OnlinePays(c, at);
    GetsOrPays(c, at, code, 2, [], 4);
    assert a + [] == a;
    GetsOrPays(c, at, code, 3, a, 3 + |a|);
    GetsOrPays(c, at, code, 4, b + a, 2 + |b + a|);
    GetsOrPays(c, at, code, 5, d + (b + a), 1 + |d + (b + a)|);
    assert e + (d + (b + a)) == PagesOf(g);
  }

  lemma {:induction false} AllPaid(c: Client, at: nat, code: seq<Instr>, n: nat, k: nat)
    requires at <= |c.tasks| && n + k <= |code| && k <= AfterFirst(c, at, code, n).latch
    requires forall j :: n <= j < n + k ==> code[j] == CountDown
    ensures var c1 := AfterFirst(c, at, code, n); AfterFirst(c, at, code, n + k) == c1.(latch := c1.latch - k)
    decreases k
  {
    if k > 0 {
      AllPaid(c, at, code, n, k - 1);
    }
  }

  lemma OfflineResets(c: Client, at: nat)
    requires at <= |c.tasks| && c.latch == MAX_STEPS
    ensures AfterFirst(c, at, OFFLINE_CODE, |OFFLINE_CODE|)
      == c.(hostname := c.defaultHostname, flags := Flags(false, false, false, false), latch := 0)
  {
    var code := OFFLINE_CODE;
    CodesAre();
    assert AfterFirst(c, at, code, 0) == c;
    var c1 := AfterFirst(c, at, code, 1);
    assert c1 == c.(hostname := c.defaultHostname);
    var c2 := AfterFirst(c, at, code, 2);
    var c3 := AfterFirst(c, at, code, 3);
    var c4 := AfterFirst(c, at, code, 4);
    var c5 := AfterFirst(c, at, code, 5);
    assert c5 == c1.(flags := Flags(false, false, false, false));
    AllPaid(c, at, code, 5, 6);
  }

  lemma SameStatePays(c: Client, at: nat)
    requires at <= |c.tasks| && c.latch == MAX_STEPS
    ensures AfterFirst(c, at, PAY_ALL_CODE, |PAY_ALL_CODE|) == c.(latch := 0)
  {
    AllPaid(c, at, PAY_ALL_CODE, 0, 6);
  }
}
