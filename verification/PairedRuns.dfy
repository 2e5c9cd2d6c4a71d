/**
 Two interleaved runs that differ in cleanup only: the same requests take the same steps at
 the same times. An eviction changes which buckets there are to retune and which are created,
 so retunings and the identity of new buckets are left out of the comparison.
 */
module PairedRuns {
  import opened InterleavedLimiter
  import opened LimiterWindow
  import opened RateLimiter

  /** What remains of a step. */
  function Bones(step: Step): seq<Step> {
    match step
    case Evict(_) => []
    case SetLimit(_, _) => []
    case SetBurst(_, _) => []
    case Leave(pid, _) => [Leave(pid, 0)]
    case _ => [step]
  }

  function Skeleton(run: seq<Step>): seq<Step> {
    if run == [] then [] else Skeleton(run[..|run| - 1]) + Bones(run[|run| - 1])
  }

  ghost predicate WithoutEvictions(run: seq<Step>) {
    forall step | step in run :: !step.Evict?
  }

  /** The run, and one like it in which nothing is ever evicted. */
  ghost predicate Paired(limit: nat, run: seq<Step>, bare: seq<Step>, gap: nat) {
    && Run(Start(limit), run, gap) && Run(Start(limit), bare, gap)
    && Skeleton(run) == Skeleton(bare) && WithoutEvictions(bare)
  }

  function Reload(step: Step): seq<nat> {
    if step.Publish? then [step.limit] else []
  }

  /** The limits published in the run, in order. */
  function Reloads(run: seq<Step>): seq<nat> {
    if run == [] then [] else Reloads(run[..|run| - 1]) + Reload(run[|run| - 1])
  }

  lemma Associate<T>(x: seq<T>, y: seq<T>, z: seq<T>)
    ensures (x + y) + z == x + (y + z)
  {
  }

  lemma SkeletonEnds(run: seq<Step>)
    requires run != []
    ensures Skeleton(run) == Skeleton(run[..|run| - 1]) + Bones(run[|run| - 1])
  {
  }

  lemma {:induction false} SkeletonConcat(run1: seq<Step>, run2: seq<Step>)
    ensures Skeleton(run1 + run2) == Skeleton(run1) + Skeleton(run2)
  {
    if run2 == [] {
      assert run1 + run2 == run1;
    } else {
      var front, run := run2[..|run2| - 1], run1 + run2;
      SkeletonConcat(run1, front);
      assert run[..|run| - 1] == run1 + front && run[|run| - 1] == run2[|run2| - 1];
      SkeletonEnds(run);
      Associate(Skeleton(run1), Skeleton(front), Bones(run2[|run2| - 1]));
    }
  }

  lemma ReloadsEnd(run: seq<Step>)
    requires run != []
    ensures Reloads(run) == Reloads(run[..|run| - 1]) + Reload(run[|run| - 1])
  {
  }

  lemma {:induction false} ReloadsConcat(run1: seq<Step>, run2: seq<Step>)
    ensures Reloads(run1 + run2) == Reloads(run1) + Reloads(run2)
  {
    if run2 == [] {
      assert run1 + run2 == run1;
    } else {
      var front, run := run2[..|run2| - 1], run1 + run2;
      ReloadsConcat(run1, front);
      assert run[..|run| - 1] == run1 + front && run[|run| - 1] == run2[|run2| - 1];
      ReloadsEnd(run);
      Associate(Reloads(run1), Reloads(front), Reload(run2[|run2| - 1]));
    }
  }

  lemma OneStepAlone(step: Step)
    ensures Skeleton([step]) == Bones(step) && Reloads([step]) == Reload(step)
  {
    var run := [step];
    assert run[..|run| - 1] == [] && run[|run| - 1] == step;
    SkeletonEnds(run);
    ReloadsEnd(run);
  }

  lemma {:induction false} TuningHasNoBones(run: seq<Step>, pid: Pid)
    requires TuningBy(run, pid)
    ensures Skeleton(run) == [] && Reloads(run) == []
  {
    if run != [] {
      TuningHasNoBones(run[..|run| - 1], pid);
      assert run[|run| - 1] in run;
    }
  }

  lemma BonesReload(step: Step)
    ensures Reloads(Bones(step)) == Reload(step)
  {
    var bones := Bones(step);
    if bones != [] {
      ReloadsEnd(bones);
      assert bones[..|bones| - 1] == [];
    }
  }

  lemma {:induction false} ReloadsOfSkeleton(run: seq<Step>)
    ensures Reloads(Skeleton(run)) == Reloads(run)
  {
    if run != [] {
      ReloadsOfSkeleton(run[..|run| - 1]);
      ReloadsConcat(Skeleton(run[..|run| - 1]), Bones(run[|run| - 1]));
      BonesReload(run[|run| - 1]);
    }
  }

  lemma {:induction false} PublishedIsAReload(run: seq<Step>, step: Step)
    requires step in run && step.Publish?
    ensures step.limit in Reloads(run)
  {
    if step != run[|run| - 1] {
      PublishedIsAReload(run[..|run| - 1], step);
    }
  }

  // ----- what the skeleton fixes -----

  function ClockOf(bones: seq<Step>): nat {
    if bones == [] then 0 else
    ClockOf(bones[..|bones| - 1]) + if bones[|bones| - 1].Tick? then bones[|bones| - 1].elapsed else 0
  }

  /** Whose request `pid` is. */
  function Owner(bones: seq<Step>, pid: Pid): Ip {
    if bones == [] then "" else
    var step := bones[|bones| - 1];
    if step.Snapshot? && step.pid == pid then step.ip else Owner(bones[..|bones| - 1], pid)
  }

  function TimesIn(bones: seq<Step>, ip: Ip): seq<nat> {
    if bones == [] then [] else
    var front, step := bones[..|bones| - 1], bones[|bones| - 1];
    TimesIn(front, ip) + if step.Allow? && Owner(front, step.pid) == ip then [ClockOf(front)] else []
  }

  /** The clock, the requests' addresses and the times of Allow are those of the skeleton. */
  ghost predicate FixedBy(s: State, bones: seq<Step>) {
    s.now == ClockOf(bones) && forall pid | pid in s.workers :: Owner(bones, pid) == s.workers[pid].ip
  }

  lemma FixedEnd(bones: seq<Step>, step: Step, pid: Pid)
    ensures ClockOf(bones + [step]) == ClockOf(bones) + if step.Tick? then step.elapsed else 0
    ensures Owner(bones + [step], pid) == if step.Snapshot? && step.pid == pid then step.ip else Owner(bones, pid)
  {
    assert (bones + [step])[..|bones|] == bones;
  }

  /** Only Tick moves the clock, and only Snapshot brings a request. */
  lemma ClockAndOwners(s: State, step: Step)
    requires Enabled(s, step)
    ensures var s' := Apply(s, step);
            && s'.now == s.now + (if step.Tick? then step.elapsed else 0)
            && forall pid | pid in s'.workers ::
                 if step.Snapshot? && step.pid == pid then s'.workers[pid].ip == step.ip
                 else pid in s.workers && s'.workers[pid].ip == s.workers[pid].ip
  {
  }

  lemma BonesOfOne(step: Step)
    ensures Bones(step) == [] ==> !step.Tick? && !step.Snapshot?
    ensures Bones(step) != [] ==> Bones(step) == [if step.Leave? then Leave(step.pid, 0) else step]
  {
  }

  lemma FixedByStep(s: State, step: Step, bones: seq<Step>)
    requires FixedBy(s, bones) && Enabled(s, step)
    ensures FixedBy(Apply(s, step), bones + Bones(step))
  {
    ClockAndOwners(s, step);
    BonesOfOne(step);
    if Bones(step) == [] {
      assert bones + Bones(step) == bones;
    } else {
      FixedEnd(bones, Bones(step)[0], 0);
      forall pid | pid in Apply(s, step).workers
        ensures Owner(bones + Bones(step), pid) == Apply(s, step).workers[pid].ip
      {
        FixedEnd(bones, Bones(step)[0], pid);
      }
    }
  }

  lemma TimesEnd(bones: seq<Step>, step: Step, ip: Ip)
    ensures TimesIn(bones + [step], ip)
            == TimesIn(bones, ip) + if step.Allow? && Owner(bones, step.pid) == ip then [ClockOf(bones)] else []
  {
    assert (bones + [step])[..|bones|] == bones;
  }

  lemma TimesStep(s: State, step: Step, bones: seq<Step>, ip: Ip)
    requires FixedBy(s, bones) && Enabled(s, step)
    ensures TimesIn(bones + Bones(step), ip) == TimesIn(bones, ip) + if Calls(s, step, ip) then [s.now] else []
  {
    var last := Bones(step);
    if last == [] {
      assert bones + last == bones;
    } else {
      assert last == [last[0]] && last[0].Allow? == step.Allow?;
      TimesEnd(bones, last[0], ip);
    }
  }

  lemma {:induction false} SkeletonFixesTimes(limit: nat, run: seq<Step>, gap: nat, ip: Ip)
    requires Run(Start(limit), run, gap)
    ensures FixedBy(After(Start(limit), run), Skeleton(run))
    ensures CallTimes(Start(limit), run, ip) == TimesIn(Skeleton(run), ip)
  {
    if run != [] {
      var front, step := run[..|run| - 1], run[|run| - 1];
      SkeletonFixesTimes(limit, front, gap, ip);
      FixedByStep(After(Start(limit), front), step, Skeleton(front));
      TimesStep(After(Start(limit), front), step, Skeleton(front), ip);
    }
  }

  /** Paired runs have the same reloads, and each address calls Allow at the same times. */
  lemma PairedAgree(limit: nat, run: seq<Step>, bare: seq<Step>, gap: nat, ip: Ip)
    requires Paired(limit, run, bare, gap)
    ensures Reloads(run) == Reloads(bare)
    ensures CallTimes(Start(limit), run, ip) == CallTimes(Start(limit), bare, ip)
  {
    ReloadsOfSkeleton(run);
    ReloadsOfSkeleton(bare);
    SkeletonFixesTimes(limit, run, gap, ip);
    SkeletonFixesTimes(limit, bare, gap, ip);
  }
}
