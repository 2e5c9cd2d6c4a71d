/**
 Building two interleaved runs side by side that differ in cleanup only: steps that both take
 alike, evictions of "a" that only the first takes, and whole requests, for which each run
 retunes what it has to.
 */
module UnfoldingPairs {
  import opened AtomicRefinement
  import opened InterleavedLimiter
  import opened LimiterTuning
  import opened PairedRuns
  import opened RateLimiter
  import opened TokenBucket
  import Atomic = AtomicRuns

  /** Two runs from `limit` on, the second without evictions, and what "a" was told in both. */
  datatype Pair = Pair(limit: nat, least: nat, reloads: seq<nat>, run: seq<Step>, bare: seq<Step>,
                       s: State, t: State, inRun: seq<bool>, inBare: seq<bool>)

  /** These are such runs wherever a gap of `least` is allowed. */
  ghost predicate Unfolds(p: Pair) {
    && (forall gap | p.least <= gap ::
          Reaches(Start(p.limit), p.run, gap, p.s) && Reaches(Start(p.limit), p.bare, gap, p.t))
    && Skeleton(p.run) == Skeleton(p.bare) && WithoutEvictions(p.bare) && Reloads(p.run) == p.reloads
    && Verdicts(Start(p.limit), p.run, "a") == p.inRun && Verdicts(Start(p.limit), p.bare, "a") == p.inBare
  }

  /** And nobody is inside getLimiter, clock and configuration agree. */
  ghost predicate Aligned(p: Pair) {
    && Unfolds(p) && p.s.mutex.Free? && p.t.mutex.Free?
    && p.s.now == p.t.now && p.s.published == p.t.published && p.s.workers.Keys == p.t.workers.Keys
  }

  /** The pair goes on without a reload. */
  predicate Continues(p: Pair, p': Pair) {
    p'.limit == p.limit && p'.least == p.least && p'.reloads == p.reloads
  }

  /** Nothing is told and the tables stay as they are. */
  predicate Silent(p: Pair, p': Pair) {
    p'.inRun == p.inRun && p'.inBare == p.inBare && View(p'.s) == View(p.s) && View(p'.t) == View(p.t)
  }

  lemma InShape(p: Pair)
    requires Unfolds(p)
    ensures Shape(p.s) && Shape(p.t)
  {
    assert Reaches(Start(p.limit), p.run, p.least, p.s) && Reaches(Start(p.limit), p.bare, p.least, p.t);
    ShapeAlways(p.limit, p.run, p.least);
    ShapeAlways(p.limit, p.bare, p.least);
  }

  // ----- joining stretches -----

  lemma {:induction false} LongerGap(s: State, run: seq<Step>, least: nat, gap: nat)
    requires Run(s, run, least) && least <= gap
    ensures Run(s, run, gap)
  {
    if run != [] {
      LongerGap(s, run[..|run| - 1], least, gap);
    }
  }

  lemma Lengthen(from: State, run: seq<Step>, s: State, more: seq<Step>, s': State, least: nat, gap: nat)
    requires Reaches(from, run, gap, s) && Reaches(s, more, least, s') && least <= gap
    ensures Reaches(from, run + more, gap, s')
    ensures Verdicts(from, run + more, "a") == Verdicts(from, run, "a") + Verdicts(s, more, "a")
  {
    LongerGap(s, more, least, gap);
    var run' := Append(from, run, gap, s, more, s');
    TellsInTurn(from, run, gap, s, more, "a", CallTimes(s, more, "a"), Verdicts(s, more, "a"));
  }

  datatype Stretch = Stretch(more: seq<Step>, to: State, told: seq<bool>)

  ghost predicate Leads(from: State, x: Stretch, least: nat, bones: seq<Step>, news: seq<nat>) {
    && Reaches(from, x.more, least, x.to) && Skeleton(x.more) == bones && Reloads(x.more) == news
    && Verdicts(from, x.more, "a") == x.told
  }

  function Joined(p: Pair, x: Stretch, y: Stretch, news: seq<nat>): Pair {
    Pair(p.limit, p.least, p.reloads + news, p.run + x.more, p.bare + y.more, x.to, y.to,
         p.inRun + x.told, p.inBare + y.told)
  }

  lemma JoinedTold(p: Pair, x: Stretch, y: Stretch, bones: seq<Step>, news: seq<nat>)
    requires Unfolds(p) && Leads(p.s, x, p.least, bones, news) && Leads(p.t, y, p.least, bones, news)
    ensures Verdicts(Start(p.limit), p.run + x.more, "a") == p.inRun + x.told
    ensures Verdicts(Start(p.limit), p.bare + y.more, "a") == p.inBare + y.told
  {
    assert Reaches(Start(p.limit), p.run, p.least, p.s) && Reaches(Start(p.limit), p.bare, p.least, p.t);
    Lengthen(Start(p.limit), p.run, p.s, x.more, x.to, p.least, p.least);
    Lengthen(Start(p.limit), p.bare, p.t, y.more, y.to, p.least, p.least);
  }

  /** A stretch of each run with the same skeleton. */
  lemma Join(p: Pair, x: Stretch, y: Stretch, bones: seq<Step>, news: seq<nat>)
    requires Unfolds(p) && Leads(p.s, x, p.least, bones, news) && Leads(p.t, y, p.least, bones, news)
    requires WithoutEvictions(y.more)
    ensures Unfolds(Joined(p, x, y, news))
  {
    forall gap | p.least <= gap
      ensures Reaches(Start(p.limit), p.run + x.more, gap, x.to)
      ensures Reaches(Start(p.limit), p.bare + y.more, gap, y.to)
    {
      assert Reaches(Start(p.limit), p.run, gap, p.s) && Reaches(Start(p.limit), p.bare, gap, p.t);
      Lengthen(Start(p.limit), p.run, p.s, x.more, x.to, p.least, gap);
      Lengthen(Start(p.limit), p.bare, p.t, y.more, y.to, p.least, gap);
    }
    JoinedTold(p, x, y, bones, news);
    SkeletonConcat(p.run, x.more);
    SkeletonConcat(p.bare, y.more);
    ReloadsConcat(p.run, x.more);
  }

  // ----- single steps -----

  /** A step that both runs take alike and that tells nobody anything. */
  predicate Plain(step: Step) {
    step.Tick? || step.Publish? || step.Snapshot?
  }

  /** What "a" is told in the step. */
  function Told(s: State, step: Step): seq<bool> {
    if Calls(s, step, "a") then [Admits(s.buckets[s.workers[step.pid].phase.ref], s.now)] else []
  }

  lemma OneStepTells(s: State, step: Step)
    requires Enabled(s, step)
    ensures Verdicts(s, [step], "a") == Told(s, step)
  {
    assert [step][..0] == [];
  }

  lemma OneStepReaches(s: State, step: Step, least: nat)
    requires Enabled(s, step) && Timely(s, step, least)
    ensures Reaches(s, [step], least, Apply(s, step))
  {
    var run := Extend(s, [], least, s, step);
    assert run == [step];
  }

  lemma OneStep(s: State, step: Step, least: nat)
    requires Enabled(s, step) && Timely(s, step, least)
    ensures Leads(s, Stretch([step], Apply(s, step), Told(s, step)), least, Bones(step), Reload(step))
  {
    OneStepReaches(s, step, least);
    OneStepTells(s, step);
    OneStepAlone(step);
  }

  lemma JoinStep(p: Pair, step: Step) returns (p': Pair)
    requires Unfolds(p) && Plain(step) && Enabled(p.s, step) && Enabled(p.t, step)
    ensures Unfolds(p') && p' == p'.(limit := p.limit, least := p.least, reloads := p.reloads + Reload(step))
    ensures p'.s == Apply(p.s, step) && p'.t == Apply(p.t, step) && p'.inRun == p.inRun && p'.inBare == p.inBare
  {
    var x, y := Stretch([step], Apply(p.s, step), []), Stretch([step], Apply(p.t, step), []);
    OneStep(p.s, step, p.least);
    OneStep(p.t, step, p.least);
    Join(p, x, y, Bones(step), Reload(step));
    p' := Joined(p, x, y, Reload(step));
  }

  lemma WaitBoth(p: Pair, elapsed: nat) returns (p': Pair)
    requires Aligned(p)
    ensures Aligned(p') && Continues(p, p') && Silent(p, p')
    ensures p'.s == p.s.(now := p.s.now + elapsed) && p'.t == p.t.(now := p.t.now + elapsed)
  {
    p' := JoinStep(p, Tick(elapsed));
    assert p.reloads + [] == p.reloads;
  }

  lemma PublishBoth(p: Pair, value: nat) returns (p': Pair)
    requires Aligned(p)
    ensures Aligned(p') && Continues(p.(reloads := p.reloads + [value]), p') && Silent(p, p')
    ensures p'.s == p.s.(published := value) && p'.t == p.t.(published := value)
  {
    p' := JoinStep(p, Publish(value));
  }

  lemma ReadBoth(p: Pair, pid: Pid, ip: Ip) returns (p': Pair)
    requires Aligned(p) && pid !in p.s.workers
    ensures Aligned(p') && Continues(p, p') && Silent(p, p')
    ensures p'.s == p.s.(workers := p.s.workers[pid := Worker(ip, Snapped(p.s.published))])
    ensures p'.t == p.t.(workers := p.t.workers[pid := Worker(ip, Snapped(p.s.published))])
  {
    p' := JoinStep(p, Snapshot(pid, ip));
    assert p.reloads + [] == p.reloads;
  }

  lemma EvictsA(s: State)
    requires Enabled(s, Evict("a"))
    ensures View(Apply(s, Evict("a"))) == View(s).(clients := View(s).clients - {"a"})
  {
    assert View(Apply(s, Evict("a"))).clients == View(s).clients - {"a"};
  }

  /** Only the first run evicts. */
  lemma EvictFirst(p: Pair) returns (p': Pair)
    requires Aligned(p) && Enabled(p.s, Evict("a"))
    ensures Aligned(p') && Continues(p, p') && p'.inRun == p.inRun && p'.inBare == p.inBare
    ensures p'.s == Apply(p.s, Evict("a")) && p'.t == p.t
    ensures View(p'.s) == View(p.s).(clients := View(p.s).clients - {"a"})
  {
    var x, y := Stretch([Evict("a")], Apply(p.s, Evict("a")), []), Stretch([], p.t, []);
    OneStep(p.s, Evict("a"), p.least);
    Join(p, x, y, [], []);
    p' := Joined(p, x, y, []);
    assert p.reloads + [] == p.reloads && p.inRun + [] == p.inRun && p.inBare + [] == p.inBare;
    EvictsA(p.s);
  }

  // ----- whole requests -----

  lemma {:induction false} QuietPublishesNothing(run: seq<Step>)
    requires Quiet(run)
    ensures Reloads(run) == []
  {
    if run != [] {
      QuietPublishesNothing(run[..|run| - 1]);
      ReloadsEnd(run);
      assert run[|run| - 1] in run;
    }
  }

  lemma PassageBones(passage: seq<Step>, pid: Pid)
    requires Passage(passage, pid)
    ensures Skeleton(passage) == [Enter(pid), Leave(pid, 0)]
  {
    var loop, leave := passage[1..|passage| - 1], passage[|passage| - 1];
    assert passage == [Enter(pid)] + (loop + [leave]);
    OneStepAlone(Enter(pid));
    OneStepAlone(leave);
    TuningHasNoBones(loop, pid);
    SkeletonConcat(loop, [leave]);
    SkeletonConcat([Enter(pid)], loop + [leave]);
  }

  lemma PassageEvictsNothing(passage: seq<Step>, pid: Pid)
    requires Passage(passage, pid)
    ensures WithoutEvictions(passage)
  {
    forall step | step in passage ensures !step.Evict? {
      if step != passage[0] && step != passage[|passage| - 1] {
        assert step in passage[1..|passage| - 1];
      }
    }
  }

  /** A passage through getLimiter and nothing else is a stretch in which "a" is told nothing. */
  lemma PassageLeads(s: State, passage: seq<Step>, s1: State, pid: Pid, least: nat)
    requires Reaches(s, passage, 0, s1) && Passage(passage, pid)
    ensures Leads(s, Stretch(passage, s1, []), least, [Enter(pid), Leave(pid, 0)], []) && WithoutEvictions(passage)
  {
    PassageBones(passage, pid);
    PassageEvictsNothing(passage, pid);
    PassageIsQuiet(passage, pid);
    QuietPublishesNothing(passage);
    QuietTellsNothing(s, passage, "a");
    LongerGap(s, passage, 0, least);
  }

  /** The answer if it is "a" who asks. */
  function ToldA(ip: Ip, served: bool): seq<bool> {
    if ip == "a" then [served] else []
  }

  lemma CallBones(passage: seq<Step>, pid: Pid)
    requires Passage(passage, pid)
    ensures Skeleton(passage + [Allow(pid)]) == [Enter(pid), Leave(pid, 0), Allow(pid)]
    ensures Reloads(passage + [Allow(pid)]) == [] && WithoutEvictions(passage + [Allow(pid)])
  {
    PassageBones(passage, pid);
    PassageEvictsNothing(passage, pid);
    PassageIsQuiet(passage, pid);
    QuietPublishesNothing(passage);
    OneStepAlone(Allow(pid));
    SkeletonConcat(passage, [Allow(pid)]);
    ReloadsConcat(passage, [Allow(pid)]);
  }

  lemma CallTells(s: State, passage: seq<Step>, s1: State, pid: Pid)
    requires Reaches(s, passage, 0, s1) && Passage(passage, pid) && Enabled(s1, Allow(pid))
    ensures Verdicts(s, passage + [Allow(pid)], "a")
            == ToldA(s1.workers[pid].ip, Admits(s1.buckets[s1.workers[pid].phase.ref], s1.now))
  {
    PassageIsQuiet(passage, pid);
    AllowTells(s, passage, s1, pid, "a");
  }

  lemma CallLeads(s: State, passage: seq<Step>, s1: State, pid: Pid, s': State, served: bool, least: nat)
    requires Reaches(s, passage, 0, s1) && Passage(passage, pid) && Enabled(s1, Allow(pid))
    requires Reaches(s, passage + [Allow(pid)], 0, s')
    requires served == Admits(s1.buckets[s1.workers[pid].phase.ref], s1.now)
    ensures Leads(s, Stretch(passage + [Allow(pid)], s', ToldA(s1.workers[pid].ip, served)), least,
                  [Enter(pid), Leave(pid, 0), Allow(pid)], [])
  {
    CallBones(passage, pid);
    CallTells(s, passage, s1, pid);
    LongerGap(s, passage + [Allow(pid)], 0, least);
  }

  /** What becomes of a request that goes through the rest alone. */
  ghost predicate Asked(s: State, s': State, pid: Pid)
    requires pid in s.workers && s.workers[pid].phase.Snapped?
  {
    && s'.mutex.Free? && s'.now == s.now && s'.published == s.published
    && View(s') == Atomic.Next(AsWorld(s, pid), AsEvent(s, pid)).table
    && s'.workers.Keys == s.workers.Keys && forall q | q in s.workers && q != pid :: s'.workers[q] == s.workers[q]
  }

  lemma AskOnce(s: State, pid: Pid, least: nat) returns (x: Stretch)
    requires Shape(s) && Enabled(s, Enter(pid))
    ensures Leads(s, x, least, [Enter(pid), Leave(pid, 0), Allow(pid)], []) && WithoutEvictions(x.more)
    ensures Asked(s, x.to, pid)
    ensures x.told == ToldA(s.workers[pid].ip, Atomic.Served(AsWorld(s, pid), AsEvent(s, pid)))
  {
    var passage, s1, s' := Ask(s, pid);
    var served := Atomic.Served(AsWorld(s, pid), AsEvent(s, pid));
    CallLeads(s, passage, s1, pid, s', served, least);
    CallBones(passage, pid);
    x := Stretch(passage + [Allow(pid)], s', ToldA(s.workers[pid].ip, served));
  }

  lemma AskBoth(p: Pair, pid: Pid) returns (p': Pair)
    requires Aligned(p) && Enabled(p.s, Enter(pid)) && Enabled(p.t, Enter(pid))
    ensures Aligned(p') && Continues(p, p') && Asked(p.s, p'.s, pid) && Asked(p.t, p'.t, pid)
    ensures p'.inRun == p.inRun + ToldA(p.s.workers[pid].ip, Atomic.Served(AsWorld(p.s, pid), AsEvent(p.s, pid)))
    ensures p'.inBare == p.inBare + ToldA(p.t.workers[pid].ip, Atomic.Served(AsWorld(p.t, pid), AsEvent(p.t, pid)))
  {
    InShape(p);
    var x := AskOnce(p.s, pid, p.least);
    var y := AskOnce(p.t, pid, p.least);
    Join(p, x, y, [Enter(pid), Leave(pid, 0), Allow(pid)], []);
    assert p.reloads + [] == p.reloads;
    p' := Joined(p, x, y, []);
  }

  // ----- many requests of one address -----

  /** These requests of "a" have read this limit and nothing more. */
  ghost predicate Waiting(s: State, limit: nat, first: Pid, n: nat) {
    forall pid | first <= pid < first + n :: pid in s.workers && s.workers[pid] == Worker("a", Snapped(limit))
  }

  ghost predicate Below(s: State, pid: Pid) {
    forall q | q in s.workers :: q < pid
  }

  ghost predicate BothWaiting(p: Pair, limit: nat, first: Pid, n: nat) {
    Waiting(p.s, limit, first, n) && Waiting(p.t, limit, first, n)
  }

  lemma OneMoreWaits(s: State, s': State, limit: nat, first: Pid, n: nat)
    requires Waiting(s, limit, first, n) && Below(s, first + n)
    requires s'.workers == s.workers[first + n := Worker("a", Snapped(limit))]
    ensures Waiting(s', limit, first, n + 1) && Below(s', first + n + 1)
  {
  }

  lemma ReadOneMore(p: Pair, first: Pid, n: nat) returns (p': Pair)
    requires Aligned(p) && BothWaiting(p, p.s.published, first, n) && Below(p.s, first + n)
    ensures Aligned(p') && BothWaiting(p', p.s.published, first, n + 1) && Below(p'.s, first + n + 1)
    ensures Continues(p, p') && Silent(p, p') && p'.s.now == p.s.now && p'.s.published == p.s.published
  {
    p' := ReadBoth(p, first + n, "a");
    OneMoreWaits(p.s, p'.s, p.s.published, first, n);
    OneMoreWaits(p.t, p'.t, p.s.published, first, n);
  }

  lemma {:induction false} ReadAll(p: Pair, first: Pid, n: nat) returns (p': Pair)
    requires Aligned(p) && Below(p.s, first)
    ensures Aligned(p') && BothWaiting(p', p.s.published, first, n) && Below(p'.s, first + n)
    ensures Continues(p, p') && Silent(p, p') && p'.s.now == p.s.now && p'.s.published == p.s.published
  {
    p' := p;
    if n > 0 {
      p' := ReadAll(p, first, n - 1);
      p' := ReadOneMore(p', first, n - 1);
    }
  }
}
