/**
 Every run of atomic events is an interleaved run in which each request passes through its
 steps undisturbed, with the same table and the same answers. What holds of all interleaved
 runs therefore holds of the atomic ones, the window bound first of all.
 */
module AtomicRefinement {
  import opened TokenBucket
  import opened RateLimiter
  import opened InterleavedLimiter
  import opened LimiterTuning
  import opened LimiterWindow
  import Atomic = AtomicRuns

  /** The requests of `ip` served within [from, to]. */
  function ServedWithin(w: Atomic.World, run: seq<Atomic.Event>, ip: Ip, from: nat, to: nat): nat {
    if run == [] then 0 else
    var front, e := run[..|run| - 1], run[|run| - 1];
    ServedWithin(w, front, ip, from, to) + if Counted(Atomic.After(w, front), e, ip, from, to) then 1 else 0
  }

  predicate Counted(w: Atomic.World, e: Atomic.Event, ip: Ip, from: nat, to: nat) {
    e.Request? && e.ip == ip && from <= e.at <= to && Atomic.Served(w, e)
  }

  ghost predicate Simulates(s: State, w: Atomic.World) {
    Shape(s) && s.mutex.Free? && View(s) == w.table && s.published == w.limit
  }

  /** Nothing is reloaded and nobody calls Allow. */
  ghost predicate Quiet(run: seq<Step>) {
    forall step | step in run :: !step.Publish? && !step.Allow?
  }

  ghost predicate PublishesOnly(run: seq<Step>, e: Atomic.Event) {
    forall step | step in run && step.Publish? :: e.Publish? && step.limit == e.limit
  }

  /** The loop of getLimiter, up to the point where the request can leave. */
  lemma Loop(s: State, pid: Pid) returns (loop: seq<Step>, s': State, leave: Step)
    requires Shape(s) && Enabled(s, Enter(pid))
    ensures Reaches(Apply(s, Enter(pid)), loop, 0, s') && TuningBy(loop, pid)
    ensures Shape(s') && leave.Leave? && leave.pid == pid && Enabled(s', leave)
    ensures s'.now == s.now && s'.published == s.published && s'.workers[pid].ip == s.workers[pid].ip
    ensures s'.workers.Keys == s.workers.Keys && forall p | p in s.workers && p != pid :: s'.workers[p] == s.workers[p]
  {
    ShapeStep(s, Enter(pid));
    loop, s' := FinishLoop(Apply(s, Enter(pid)), [], 0, Apply(s, Enter(pid)));
    leave := Leave(pid, FreshRef(s'.buckets.Keys));
  }

  /** One goroutine enters getLimiter, loops and leaves, uninterrupted. */
  ghost predicate Passage(run: seq<Step>, pid: Pid) {
    && |run| >= 2 && run[0] == Enter(pid) && TuningBy(run[1..|run| - 1], pid)
    && run[|run| - 1].Leave? && run[|run| - 1].pid == pid
  }

  lemma PassageIsQuiet(run: seq<Step>, pid: Pid)
    requires Passage(run, pid)
    ensures Quiet(run)
  {
    forall step | step in run ensures !step.Publish? && !step.Allow? {
      if step != run[0] && step != run[|run| - 1] {
        assert step in run[1..|run| - 1];
      }
    }
  }

  lemma EnterLoopLeave(s: State, pid: Pid, loop: seq<Step>, s1: State, leave: Step) returns (run: seq<Step>)
    requires Enabled(s, Enter(pid)) && Reaches(Apply(s, Enter(pid)), loop, 0, s1) && TuningBy(loop, pid)
    requires leave.Leave? && leave.pid == pid && Enabled(s1, leave)
    ensures Reaches(s, run, 0, Apply(s1, leave)) && Passage(run, pid)
  {
    run := Extend(s, [], 0, s, Enter(pid));
    run := Append(s, run, 0, Apply(s, Enter(pid)), loop, s1);
    run := Extend(s, run, 0, s1, leave);
    assert run[1..|run| - 1] == loop;
  }

  lemma LeaveHandsOut(s: State, s1: State, pid: Pid, newRef: Ref)
    requires Enabled(s1, Leave(pid, newRef)) && s1.workers.Keys == s.workers.Keys
    requires forall p | p in s.workers && p != pid :: s1.workers[p] == s.workers[p]
    ensures var s', ip := Apply(s1, Leave(pid, newRef)), s1.workers[pid].ip;
            && s'.mutex.Free? && s'.now == s1.now && s'.published == s1.published && ip in s'.clients
            && s'.workers == s.workers[pid := Worker(ip, Holding(s'.clients[ip].ref, s1.now))]
  {
  }

  /** From entering getLimiter to the bucket in hand, without interruption. */
  lemma PassThrough(s: State, pid: Pid) returns (run: seq<Step>, s': State)
    requires Shape(s) && Enabled(s, Enter(pid))
    ensures Reaches(s, run, 0, s') && Passage(run, pid)
    ensures Shape(s') && s'.mutex.Free? && s'.now == s.now && s'.published == s.published
    ensures var w := s.workers[pid];
            && View(s') == AfterLookup(View(s), w.ip, w.phase.limit, s.now) && w.ip in s'.clients
            && s'.workers == s.workers[pid := Worker(w.ip, Holding(s'.clients[w.ip].ref, s.now))]
  {
    var loop, s1, leave := Loop(s, pid);
    run := EnterLoopLeave(s, pid, loop, s1, leave);
    s' := Apply(s1, leave);
    assert View(s') == AfterLookup(View(s), s.workers[pid].ip, s.workers[pid].phase.limit, s.now) by {
      CriticalSectionIsAtomic(s, pid, loop, leave.newRef, 0);
    }
    ShapeStep(s1, leave);
    LeaveHandsOut(s, s1, pid, leave.newRef);
  }

  lemma WorkerTwice(workers: map<Pid, Worker>, pid: Pid, first: Worker, second: Worker)
    ensures workers[pid := first][pid := second] == workers[pid := second]
  {
  }

  // ----- what the requests are told -----

  /** In the run the requests of `ip` call Allow at these times and get these answers. */
  ghost predicate Tells(s: State, run: seq<Step>, ip: Ip, times: seq<nat>, verdicts: seq<bool>) {
    CallTimes(s, run, ip) == times && Verdicts(s, run, ip) == verdicts
  }

  lemma {:induction false} QuietTellsNothing(s: State, run: seq<Step>, ip: Ip)
    requires Quiet(run)
    ensures Tells(s, run, ip, [], [])
  {
    if run != [] {
      QuietTellsNothing(s, run[..|run| - 1], ip);
      assert run[|run| - 1] in run;
    }
  }

  lemma {:induction false} TellsInTurn(s: State, run1: seq<Step>, gap: nat, mid: State, run2: seq<Step>, ip: Ip,
                                       times: seq<nat>, verdicts: seq<bool>)
    requires Reaches(s, run1, gap, mid) && Tells(mid, run2, ip, times, verdicts)
    ensures After(s, run1 + run2) == After(mid, run2)
    ensures Tells(s, run1 + run2, ip, CallTimes(s, run1, ip) + times, Verdicts(s, run1, ip) + verdicts)
  {
    if run2 == [] {
      assert run1 + run2 == run1;
    } else {
      var front, step := run2[..|run2| - 1], run2[|run2| - 1];
      TellsInTurn(s, run1, gap, mid, front, ip, CallTimes(mid, front, ip), Verdicts(mid, front, ip));
      assert (run1 + run2)[..|run1 + run2| - 1] == run1 + front;
    }
  }

  /** What the event tells `ip`. */
  function TimesOf(e: Atomic.Event, ip: Ip): seq<nat> {
    if e.Request? && e.ip == ip then [e.at] else []
  }

  function VerdictsOf(w: Atomic.World, e: Atomic.Event, ip: Ip): seq<bool> {
    if e.Request? && e.ip == ip then [Atomic.Served(w, e)] else []
  }

  ghost predicate TellsAs(s: State, run: seq<Step>, w: Atomic.World, e: Atomic.Event) {
    forall ip :: Tells(s, run, ip, TimesOf(e, ip), VerdictsOf(w, e, ip))
  }

  lemma QuietTellsAs(s: State, run: seq<Step>, w: Atomic.World, e: Atomic.Event)
    requires Quiet(run) && !e.Request?
    ensures TellsAs(s, run, w, e)
  {
    forall ip ensures Tells(s, run, ip, TimesOf(e, ip), VerdictsOf(w, e, ip)) {
      QuietTellsNothing(s, run, ip);
    }
  }

  lemma AllowTells(s: State, quiet: seq<Step>, s1: State, pid: Pid, ip: Ip)
    requires Reaches(s, quiet, 0, s1) && Quiet(quiet) && Enabled(s1, Allow(pid))
    ensures Tells(s, quiet + [Allow(pid)], ip,
                  if s1.workers[pid].ip == ip then [s1.now] else [],
                  if s1.workers[pid].ip == ip then [Admits(s1.buckets[s1.workers[pid].phase.ref], s1.now)] else [])
  {
    QuietTellsNothing(s, quiet, ip);
    assert (quiet + [Allow(pid)])[..|quiet|] == quiet;
  }

  // ----- event by event -----

  /** With the bucket in hand, Allow answers what the atomic request does. */
  lemma AllowDecides(s: State, pid: Pid, w: Atomic.World, e: Atomic.Event)
    requires Shape(s) && s.mutex.Free? && e.Request? && s.now == e.at
    requires View(s) == AfterLookup(w.table, e.ip, w.limit, e.at) && e.ip in s.clients
    requires pid in s.workers && s.workers[pid] == Worker(e.ip, Holding(s.clients[e.ip].ref, e.at))
    ensures Enabled(s, Allow(pid)) && Admits(s.buckets[s.clients[e.ip].ref], s.now) == Atomic.Served(w, e)
    ensures var s' := Apply(s, Allow(pid));
            && Shape(s') && View(s') == Atomic.Next(w, e).table
            && s'.workers == s.workers[pid := Worker(e.ip, Decided(Atomic.Served(w, e), e.at))]
  {
    assert s.clients[e.ip].ref in Refs(s);
    AllowIsAtomic(s, pid);
    ShapeStep(s, Allow(pid));
  }

  /** The request of a worker, under the limit it has read. */
  function AsEvent(s: State, pid: Pid): Atomic.Event
    requires pid in s.workers
  {
    Atomic.Request(s.workers[pid].ip, s.now)
  }

  function AsWorld(s: State, pid: Pid): Atomic.World
    requires pid in s.workers && s.workers[pid].phase.Snapped?
  {
    Atomic.World(s.workers[pid].phase.limit, View(s))
  }

  /** A request with its snapshot in hand, old or new, goes through the rest alone. */
  lemma Ask(s: State, pid: Pid) returns (passage: seq<Step>, s1: State, s': State)
    requires Shape(s) && Enabled(s, Enter(pid))
    ensures Reaches(s, passage, 0, s1) && Passage(passage, pid) && s1.now == s.now
    ensures Enabled(s1, Allow(pid)) && Timely(s1, Allow(pid), 0) && s1.workers[pid].ip == s.workers[pid].ip
    ensures s' == Apply(s1, Allow(pid)) && Reaches(s, passage + [Allow(pid)], 0, s')
    ensures Admits(s1.buckets[s1.workers[pid].phase.ref], s1.now) == Atomic.Served(AsWorld(s, pid), AsEvent(s, pid))
    ensures Shape(s') && s'.mutex.Free? && s'.now == s.now && s'.published == s.published
    ensures View(s') == Atomic.Next(AsWorld(s, pid), AsEvent(s, pid)).table
    ensures var served := Atomic.Served(AsWorld(s, pid), AsEvent(s, pid));
            s'.workers == s.workers[pid := Worker(s.workers[pid].ip, Decided(served, s.now))]
  {
    passage, s1 := PassThrough(s, pid);
    AllowDecides(s1, pid, AsWorld(s, pid), AsEvent(s, pid));
    var run := Extend(s, passage, 0, s1, Allow(pid));
    s' := Apply(s1, Allow(pid));
    WorkerTwice(s.workers, pid, s1.workers[pid], s'.workers[pid]);
  }

  /** A request that reads the configuration now sees the limit in force. */
  lemma FreshSnapshot(s: State, w: Atomic.World, e: Atomic.Event) returns (s1: State, pid: Pid)
    requires Simulates(s, w) && e.Request? && s.now == e.at
    ensures Reaches(s, [Snapshot(pid, e.ip)], 0, s1) && Shape(s1) && Enabled(s1, Enter(pid))
    ensures AsWorld(s1, pid) == w && AsEvent(s1, pid) == e && s1.now == s.now && s1.published == s.published
    ensures pid !in s.workers && s1.workers == s.workers[pid := s1.workers[pid]]
  {
    pid := FreshRef(s.workers.Keys);
    ShapeStep(s, Snapshot(pid, e.ip));
    s1 := Apply(s, Snapshot(pid, e.ip));
    var run := Extend(s, [], 0, s, Snapshot(pid, e.ip));
    assert run == [Snapshot(pid, e.ip)];
  }

  lemma ThreeParts(s: State, snap: seq<Step>, s0: State, passage: seq<Step>, s1: State, pid: Pid)
    returns (quiet: seq<Step>)
    requires Reaches(s, snap, 0, s0) && Quiet(snap) && Reaches(s0, passage, 0, s1) && Passage(passage, pid)
    requires Enabled(s1, Allow(pid)) && Timely(s1, Allow(pid), 0)
    ensures Reaches(s, quiet, 0, s1) && Quiet(quiet) && Reaches(s, quiet + [Allow(pid)], 0, Apply(s1, Allow(pid)))
  {
    PassageIsQuiet(passage, pid);
    quiet := Append(s, snap, 0, s0, passage, s1);
    var run := Extend(s, quiet, 0, s1, Allow(pid));
  }

  lemma SimulateRequest(s: State, w: Atomic.World, e: Atomic.Event)
    returns (quiet: seq<Step>, s1: State, s': State, pid: Pid)
    requires Simulates(s, w) && e.Request? && s.now == e.at
    ensures Reaches(s, quiet, 0, s1) && Quiet(quiet) && s1.now == e.at
    ensures Enabled(s1, Allow(pid)) && s' == Apply(s1, Allow(pid)) && s1.workers[pid].ip == e.ip
    ensures Admits(s1.buckets[s1.workers[pid].phase.ref], s1.now) == Atomic.Served(w, e)
    ensures Reaches(s, quiet + [Allow(pid)], 0, s') && Simulates(s', Atomic.Next(w, e))
    ensures pid !in s.workers && s'.workers == s.workers[pid := Worker(e.ip, Decided(Atomic.Served(w, e), e.at))]
  {
    var s0, passage;
    s0, pid := FreshSnapshot(s, w, e);
    passage, s1, s' := Ask(s0, pid);
    quiet := ThreeParts(s, [Snapshot(pid, e.ip)], s0, passage, s1, pid);
    WorkerTwice(s.workers, pid, s0.workers[pid], s'.workers[pid]);
  }

  lemma {:induction false} EvictAll(from: State, run: seq<Step>, s: State) returns (run': seq<Step>, s': State)
    requires Reaches(from, run, 0, s) && s.mutex.Free? && forall step | step in run :: step.Evict?
    ensures Reaches(from, run', 0, s') && (forall step | step in run' :: step.Evict?)
    ensures s' == s.(clients := s'.clients) && forall ip :: !Enabled(s', Evict(ip))
    decreases s.clients.Keys
  {
    if ip :| Enabled(s, Evict(ip)) {
      run' := Extend(from, run, 0, s, Evict(ip));
      run', s' := EvictAll(from, run', Apply(s, Evict(ip)));
    } else {
      run', s' := run, s;
    }
  }

  lemma AdmittedBy(s: State, s': State, pid: Pid, ip: Ip, ok: bool, at: nat, client: Ip, from: nat, to: nat)
    requires pid !in s.workers && s'.workers == s.workers[pid := Worker(ip, Decided(ok, at))]
    ensures |Admitted(s', client, from, to)|
            == |Admitted(s, client, from, to)| + if ok && client == ip && from <= at <= to then 1 else 0
  {
    if ok && client == ip && from <= at <= to {
      assert Admitted(s', client, from, to) == Admitted(s, client, from, to) + {pid};
    } else {
      assert Admitted(s', client, from, to) == Admitted(s, client, from, to);
    }
  }

  /** One event more was admitted, or none, for whatever address and interval one counts. */
  ghost predicate CountsAs(s: State, s': State, w: Atomic.World, e: Atomic.Event) {
    forall ip, from, to ::
      |Admitted(s', ip, from, to)| == |Admitted(s, ip, from, to)| + if Counted(w, e, ip, from, to) then 1 else 0
  }

  lemma SameAdmissions(s: State, s': State, w: Atomic.World, e: Atomic.Event)
    requires s'.workers == s.workers && !e.Request?
    ensures CountsAs(s, s', w, e)
  {
    forall ip, from, to
      ensures |Admitted(s', ip, from, to)| == |Admitted(s, ip, from, to)| + if Counted(w, e, ip, from, to) then 1 else 0
    {
      assert Admitted(s', ip, from, to) == Admitted(s, ip, from, to);
    }
  }

  lemma RequestEvent(s: State, w: Atomic.World, e: Atomic.Event) returns (run: seq<Step>, s': State)
    requires Simulates(s, w) && e.Request? && s.now == e.at
    ensures Reaches(s, run, 0, s') && PublishesOnly(run, e) && Simulates(s', Atomic.Next(w, e)) && s'.now == e.at
    ensures CountsAs(s, s', w, e) && TellsAs(s, run, w, e)
  {
    var quiet, s1, pid;
    quiet, s1, s', pid := SimulateRequest(s, w, e);
    run := quiet + [Allow(pid)];
    forall ip ensures Tells(s, run, ip, TimesOf(e, ip), VerdictsOf(w, e, ip)) {
      AllowTells(s, quiet, s1, pid, ip);
    }
    forall ip, from, to
      ensures |Admitted(s', ip, from, to)| == |Admitted(s, ip, from, to)| + if Counted(w, e, ip, from, to) then 1 else 0
    {
      AdmittedBy(s, s', pid, e.ip, Atomic.Served(w, e), e.at, ip, from, to);
    }
  }

  lemma PublishEvent(s: State, w: Atomic.World, e: Atomic.Event) returns (run: seq<Step>, s': State)
    requires Simulates(s, w) && e.Publish? && s.now == e.at
    ensures Reaches(s, run, 0, s') && PublishesOnly(run, e) && Simulates(s', Atomic.Next(w, e)) && s'.now == e.at
    ensures CountsAs(s, s', w, e) && TellsAs(s, run, w, e)
  {
    var step := Step.Publish(e.limit);
    ShapeStep(s, step);
    run := Extend(s, [], 0, s, step);
    s' := Apply(s, step);
    assert View(s') == View(s);
    SameAdmissions(s, s', w, e);
    forall ip ensures Tells(s, run, ip, TimesOf(e, ip), VerdictsOf(w, e, ip)) {
      assert run[..|run| - 1] == [];
    }
  }

  lemma CleanupEvent(s: State, w: Atomic.World, e: Atomic.Event) returns (run: seq<Step>, s': State)
    requires Simulates(s, w) && e.CleanupPass? && s.now == e.at
    ensures Reaches(s, run, 0, s') && PublishesOnly(run, e) && Simulates(s', Atomic.Next(w, e)) && s'.now == e.at
    ensures CountsAs(s, s', w, e) && TellsAs(s, run, w, e)
  {
    run, s' := EvictAll(s, [], s);
    EvictionsOnlyRemoveIdle(s, run, 0);
    CleanupPassIsAtomic(s, run, 0);
    SameAdmissions(s, s', w, e);
    QuietTellsAs(s, run, w, e);
  }

  lemma SimulateEvent(s: State, w: Atomic.World, e: Atomic.Event) returns (run: seq<Step>, s': State)
    requires Simulates(s, w) && s.now == e.at
    ensures Reaches(s, run, 0, s') && PublishesOnly(run, e) && Simulates(s', Atomic.Next(w, e)) && s'.now == e.at
    ensures CountsAs(s, s', w, e) && TellsAs(s, run, w, e)
  {
    match e
    case Request(_, _) => run, s' := RequestEvent(s, w, e);
    case Publish(_, _) => run, s' := PublishEvent(s, w, e);
    case CleanupPass(_) => run, s' := CleanupEvent(s, w, e);
  }

  lemma TickIsUnseen(s: State, elapsed: nat)
    requires Shape(s)
    ensures var s' := s.(now := s.now + elapsed);
            Shape(s') && View(s') == View(s)
            && forall ip, from, to :: Admitted(s', ip, from, to) == Admitted(s, ip, from, to)
  {
    ShapeStep(s, Tick(elapsed));
  }

  lemma Wait(s: State, until: nat) returns (run: seq<Step>)
    requires s.now <= until
    ensures Reaches(s, run, 0, s.(now := until)) && Quiet(run)
  {
    run := Extend(s, [], 0, s, Tick(until - s.now));
  }

  /** Time passes until the event, then the event happens. */
  lemma SimulateNext(s: State, w: Atomic.World, e: Atomic.Event) returns (run: seq<Step>, s': State)
    requires Simulates(s, w) && s.now <= e.at
    ensures Reaches(s, run, 0, s') && PublishesOnly(run, e) && Simulates(s', Atomic.Next(w, e)) && s'.now == e.at
    ensures CountsAs(s, s', w, e) && TellsAs(s, run, w, e)
  {
    TickIsUnseen(s, e.at - s.now);
    var s1 := s.(now := e.at);
    var wait := Wait(s, e.at);
    var rest;
    rest, s' := SimulateEvent(s1, w, e);
    run := Append(s, wait, 0, s1, rest, s');
    WaitTellsNothing(s, wait, s1, rest, w, e);
  }

  lemma WaitTellsNothing(s: State, wait: seq<Step>, s1: State, rest: seq<Step>, w: Atomic.World, e: Atomic.Event)
    requires Reaches(s, wait, 0, s1) && Quiet(wait) && TellsAs(s1, rest, w, e)
    ensures TellsAs(s, wait + rest, w, e)
  {
    forall ip ensures Tells(s, wait + rest, ip, TimesOf(e, ip), VerdictsOf(w, e, ip)) {
      QuietTellsNothing(s, wait, ip);
      TellsInTurn(s, wait, 0, s1, rest, ip, TimesOf(e, ip), VerdictsOf(w, e, ip));
    }
  }

  // ----- whole runs -----

  ghost predicate EventsAtMost(run: seq<Atomic.Event>, most: nat) {
    forall e | e in run && e.Publish? :: e.limit <= most
  }

  /** Every address calls at the same times, is told the same, and is admitted as often in any interval. */
  ghost predicate SameAnswers(limit: nat, run: seq<Atomic.Event>, steps: seq<Step>, s: State) {
    && (forall ip :: Tells(Start(limit), steps, ip, Atomic.Times(run, ip),
                           Atomic.Decisions(Atomic.Start(limit), run, ip)))
    && (forall ip, from, to :: |Admitted(s, ip, from, to)| == ServedWithin(Atomic.Start(limit), run, ip, from, to))
  }

  lemma OneMoreEvent(w0: Atomic.World, front: seq<Atomic.Event>, e: Atomic.Event, ip: Ip)
    ensures Atomic.Times(front + [e], ip) == Atomic.Times(front, ip) + TimesOf(e, ip)
    ensures Atomic.Decisions(w0, front + [e], ip)
            == Atomic.Decisions(w0, front, ip) + VerdictsOf(Atomic.After(w0, front), e, ip)
    ensures forall from, to ::
              ServedWithin(w0, front + [e], ip, from, to) == ServedWithin(w0, front, ip, from, to)
                + if Counted(Atomic.After(w0, front), e, ip, from, to) then 1 else 0
  {
    assert (front + [e])[..|front|] == front;
  }

  lemma SameAnswersStep(limit: nat, front: seq<Atomic.Event>, e: Atomic.Event, steps: seq<Step>, s0: State,
                        more: seq<Step>, s: State, w: Atomic.World)
    requires SameAnswers(limit, front, steps, s0) && Reaches(Start(limit), steps, 0, s0)
    requires w == Atomic.After(Atomic.Start(limit), front) && CountsAs(s0, s, w, e) && TellsAs(s0, more, w, e)
    ensures SameAnswers(limit, front + [e], steps + more, s)
  {
    var run, w0 := front + [e], Atomic.Start(limit);
    forall ip ensures Tells(Start(limit), steps + more, ip, Atomic.Times(run, ip), Atomic.Decisions(w0, run, ip)) {
      OneMoreEvent(w0, front, e, ip);
      TellsInTurn(Start(limit), steps, 0, s0, more, ip, TimesOf(e, ip), VerdictsOf(w, e, ip));
    }
    forall ip, from, to ensures |Admitted(s, ip, from, to)| == ServedWithin(w0, run, ip, from, to) {
      OneMoreEvent(w0, front, e, ip);
    }
  }

  /**
   Refinement: each atomic run has one interleaved counterpart that ends with the same table,
   publishes only what the atomic run does, and gives every address the same answers at the
   same times.
   */
  lemma {:induction false} AtomicRunIsInterleaved(limit: nat, run: seq<Atomic.Event>, most: nat)
    returns (steps: seq<Step>, s: State)
    requires Atomic.Ordered(run) && EventsAtMost(run, most)
    ensures Reaches(Start(limit), steps, 0, s) && AtMost(steps, most)
    ensures Simulates(s, Atomic.After(Atomic.Start(limit), run)) && s.now == Atomic.Clock(run)
    ensures SameAnswers(limit, run, steps, s)
  {
    if run == [] {
      steps, s := [], Start(limit);
      assert forall ip, from, to :: Admitted(s, ip, from, to) == {};
    } else {
      var front, e := run[..|run| - 1], run[|run| - 1];
      var steps0, s0, more;
      steps0, s0 := AtomicRunIsInterleaved(limit, front, most);
      var w := Atomic.After(Atomic.Start(limit), front);
      more, s := SimulateNext(s0, w, e);
      assert e in run;
      steps := Append(Start(limit), steps0, 0, s0, more, s);
      SameAnswersStep(limit, front, e, steps0, s0, more, s, w);
      assert run == front + [e];
    }
  }

  /** The window bound for runs of atomic requests, reloads and cleanup passes. */
  lemma AtomicWindowBound(limit: nat, run: seq<Atomic.Event>, ip: Ip, from: nat, to: nat, most: nat)
    requires Atomic.Ordered(run) && limit <= most && from <= to
    requires EventsAtMost(run, most)
    ensures ServedWithin(Atomic.Start(limit), run, ip, from, to) * 60_000_000_000
            <= most * 60_000_000_000 + most * (to - from)
  {
    var steps, s := AtomicRunIsInterleaved(limit, run, most);
    WindowBound(limit, steps, ip, from, to, most, 0);
  }
}
