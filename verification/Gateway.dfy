/**
 The whole gateway: the rate limiter in front, the handlers behind it. The router runs the
 limiter before it routes, so a request reaches a handler only after it was admitted, and
 once. The window bound of the one part becomes a bound on the database load of the other.
 */
module Gateway {
  import opened TokenBucket
  import Limiter = InterleavedLimiter
  import LimiterWindow
  import Protocol
  import Database
  import RateLimiter

  datatype State = State(limiter: Limiter.State, sys: Protocol.Sys)

  datatype Step = Front(limiterStep: Limiter.Step) | Back(handlerStep: Protocol.Step)

  function Start(limit: nat, db: Database.Db): State {
    State(Limiter.Start(limit), Protocol.Start(db))
  }

  /** The limiter let the request through. */
  predicate Passed(s: State, num: nat) {
    num in s.limiter.workers && s.limiter.workers[num].phase.Decided? && s.limiter.workers[num].phase.admitted
  }

  predicate Forwarded(s: State, num: nat) {
    exists r :: r in s.sys.reqs && r.num == num
  }

  /** A request arrives at its handler under the number it had at the limiter. */
  predicate Enabled(s: State, step: Step) {
    match step
    case Front(l) => Limiter.Enabled(s.limiter, l)
    case Back(h) =>
      && Protocol.Enabled(s.sys, h)
      && (h.Arrive? ==> Passed(s, h.req.num) && !Forwarded(s, h.req.num))
  }

  function Apply(s: State, step: Step): State
    requires Enabled(s, step)
  {
    match step
    case Front(l) => s.(limiter := Limiter.Apply(s.limiter, l))
    case Back(h) => s.(sys := Protocol.Apply(s.sys, h))
  }

  function After(s: State, run: seq<Step>): State {
    if run == [] then s else
    var t, step := After(s, run[..|run| - 1]), run[|run| - 1];
    if Enabled(t, step) then Apply(t, step) else t
  }

  predicate Run(s: State, run: seq<Step>, gap: nat) {
    run == [] ||
    var front, step := run[..|run| - 1], run[|run| - 1];
    && Run(s, front, gap) && Enabled(After(s, front), step)
    && (step.Front? ==> Limiter.Timely(After(s, front).limiter, step.limiterStep, gap))
  }

  // ----- the limiter does not notice the handlers -----

  function Fronts(run: seq<Step>): seq<Limiter.Step> {
    if run == [] then [] else
    var step := run[|run| - 1];
    Fronts(run[..|run| - 1]) + if step.Front? then [step.limiterStep] else []
  }

  lemma {:induction false} LimiterRunsAlone(limit: nat, db: Database.Db, run: seq<Step>, gap: nat)
    requires Run(Start(limit, db), run, gap)
    ensures Limiter.Run(Limiter.Start(limit), Fronts(run), gap)
    ensures Limiter.After(Limiter.Start(limit), Fronts(run)) == After(Start(limit, db), run).limiter
    ensures forall l | l in Fronts(run) :: Front(l) in run
  {
    if run != [] {
      var front, step := run[..|run| - 1], run[|run| - 1];
      LimiterRunsAlone(limit, db, front, gap);
      assert forall st | st in front :: st in run;
      assert step in run;
      if step.Front? {
        assert Fronts(run)[..|Fronts(run)| - 1] == Fronts(front);
      } else {
        assert Fronts(run) == Fronts(front);
      }
    }
  }

  // ----- nor the handlers the limiter -----

  function Backs(run: seq<Step>): seq<Protocol.Step> {
    if run == [] then [] else
    var step := run[|run| - 1];
    Backs(run[..|run| - 1]) + if step.Back? then [step.handlerStep] else []
  }

  /** The handlers take the steps of a run of their own on the same database. */
  lemma {:induction false} HandlersRunAlone(limit: nat, db: Database.Db, run: seq<Step>, gap: nat)
    requires Run(Start(limit, db), run, gap)
    ensures Protocol.Run(Protocol.Start(db), Backs(run))
    ensures Protocol.After(Protocol.Start(db), Backs(run)) == After(Start(limit, db), run).sys
  {
    if run != [] {
      var front, step := run[..|run| - 1], run[|run| - 1];
      HandlersRunAlone(limit, db, front, gap);
      if step.Back? {
        assert Backs(run)[..|Backs(run)| - 1] == Backs(front);
      } else {
        assert Backs(run) == Backs(front);
      }
    }
  }

  // ----- statements -----

  /** The statements a request issues: the first, and the read-back. */
  predicate Issues(step: Step, pids: set<nat>) {
    step.Back? && (step.handlerStep.Exec? || step.handlerStep.ReadBack?) && step.handlerStep.req.num in pids
  }

  /** How many statements the requests with these numbers issued. */
  function Statements(run: seq<Step>, pids: set<nat>): nat {
    if run == [] then 0
    else Statements(run[..|run| - 1], pids) + if Issues(run[|run| - 1], pids) then 1 else 0
  }

  function IssuedFirst(sys: Protocol.Sys, pids: set<nat>): set<Protocol.Req> {
    set r | r in sys.reqs && r.num in pids && !Protocol.Malformed(r.op) && !sys.reqs[r].Received?
  }

  function IssuedSecond(sys: Protocol.Sys, pids: set<nat>): set<Protocol.Req> {
    set r | r in sys.reqs && r.num in pids && sys.reqs[r].Answered? && sys.reqs[r].status in {409, 423}
  }

  /** What one step makes of the phases: only Exec leaves Received, only ReadBack gives 409 or 423. */
  lemma PhaseStep(sys: Protocol.Sys, step: Protocol.Step, q: Protocol.Req)
    requires Protocol.WellFormed(sys) && Protocol.Enabled(sys, step) && q in Protocol.Apply(sys, step).reqs
    ensures q != step.req ==> q in sys.reqs && Protocol.Apply(sys, step).reqs[q] == sys.reqs[q]
    ensures q == step.req ==>
              var phase := Protocol.Apply(sys, step).reqs[q];
              match step
              case Arrive(_) =>
                q !in sys.reqs
                && (phase.Received? || (Protocol.Malformed(q.op) && phase.Answered? && phase.status == 400))
              case Exec(_, _) =>
                q in sys.reqs && sys.reqs[q].Received? && !Protocol.Malformed(q.op)
                && (phase.Missed? || (phase.Answered? && phase.status in {200, 404, 500}))
              case ReadBack(_, _) =>
                q in sys.reqs && sys.reqs[q].Missed? && phase.Answered? && phase.status in {409, 423}
              case Land(_) => q in sys.reqs && phase == sys.reqs[q]
  {
  }

  lemma FirstOnce(sys: Protocol.Sys, step: Protocol.Step, pids: set<nat>)
    requires Protocol.WellFormed(sys) && Protocol.Enabled(sys, step)
    ensures |IssuedFirst(Protocol.Apply(sys, step), pids)|
            == |IssuedFirst(sys, pids)| + if step.Exec? && step.req.num in pids then 1 else 0
  {
    var sys', r := Protocol.Apply(sys, step), step.req;
    forall q | q in sys'.reqs
      ensures q in IssuedFirst(sys', pids)
              <==> q in IssuedFirst(sys, pids) || (q == r && step.Exec? && r.num in pids)
    {
      PhaseStep(sys, step, q);
    }
    if step.Exec? && r.num in pids {
      assert IssuedFirst(sys', pids) == IssuedFirst(sys, pids) + {r};
    } else {
      assert IssuedFirst(sys', pids) == IssuedFirst(sys, pids);
    }
  }

  lemma SecondOnce(sys: Protocol.Sys, step: Protocol.Step, pids: set<nat>)
    requires Protocol.WellFormed(sys) && Protocol.Enabled(sys, step)
    ensures |IssuedSecond(Protocol.Apply(sys, step), pids)|
            == |IssuedSecond(sys, pids)| + if step.ReadBack? && step.req.num in pids then 1 else 0
  {
    var sys', r := Protocol.Apply(sys, step), step.req;
    assert r in IssuedSecond(sys, pids) ==> !step.ReadBack?;
    forall q | q in sys'.reqs
      ensures q in IssuedSecond(sys', pids)
              <==> q in IssuedSecond(sys, pids) || (q == r && step.ReadBack? && r.num in pids)
    {
      PhaseStep(sys, step, q);
    }
    if step.ReadBack? && r.num in pids {
      assert IssuedSecond(sys', pids) == IssuedSecond(sys, pids) + {r};
    } else {
      assert IssuedSecond(sys', pids) == IssuedSecond(sys, pids);
    }
  }

  ghost predicate OneHandlerEach(s: State) {
    && (forall r | r in s.sys.reqs :: Passed(s, r.num))
    && (forall q, r | q in s.sys.reqs && r in s.sys.reqs && q.num == r.num :: q == r)
  }

  lemma WellFormedStep(sys: Protocol.Sys, step: Protocol.Step)
    requires Protocol.WellFormed(sys) && Protocol.Enabled(sys, step)
    ensures Protocol.WellFormed(Protocol.Apply(sys, step))
  {
  }

  lemma OneHandlerEachStep(s: State, step: Step)
    requires OneHandlerEach(s) && Enabled(s, step)
    ensures OneHandlerEach(Apply(s, step))
  {
    var s' := Apply(s, step);
    forall r | r in s'.sys.reqs ensures Passed(s', r.num) {
      assert Passed(s, r.num);
    }
  }

  /**
   Nothing reaches a handler that the limiter rejected, nothing reaches one twice, and the
   statements are exactly one per executed request and one per conflict read.
   */
  lemma {:induction false} StatementsAreCounted(limit: nat, db: Database.Db, run: seq<Step>, gap: nat, pids: set<nat>)
    requires Run(Start(limit, db), run, gap)
    ensures var s := After(Start(limit, db), run);
            && OneHandlerEach(s) && Protocol.WellFormed(s.sys)
            && Statements(run, pids) == |IssuedFirst(s.sys, pids)| + |IssuedSecond(s.sys, pids)|
  {
    if run != [] {
      var front, step := run[..|run| - 1], run[|run| - 1];
      StatementsAreCounted(limit, db, front, gap, pids);
      var s := After(Start(limit, db), front);
      OneHandlerEachStep(s, step);
      if step.Back? {
        WellFormedStep(s.sys, step.handlerStep);
        FirstOnce(s.sys, step.handlerStep, pids);
        SecondOnce(s.sys, step.handlerStep, pids);
      }
    }
  }

  /** The limiter let this request through, and answered at this time. */
  ghost predicate WasAdmitted(s: State, num: nat) {
    num in s.limiter.workers && exists at :: s.limiter.workers[num].phase == Limiter.Decided(true, at)
  }

  /** Every request at a handler, in any run, was admitted by the limiter; a rejected one never gets there. */
  lemma HandledMeansAdmitted(limit: nat, db: Database.Db, run: seq<Step>, gap: nat)
    requires Run(Start(limit, db), run, gap)
    ensures var s := After(Start(limit, db), run);
            forall r | r in s.sys.reqs :: WasAdmitted(s, r.num)
  {
    StatementsAreCounted(limit, db, run, gap, {});
    var s := After(Start(limit, db), run);
    forall r | r in s.sys.reqs ensures WasAdmitted(s, r.num) {
      var phase := s.limiter.workers[r.num].phase;
      assert phase == Limiter.Decided(true, phase.at);
    }
  }

  /** And every admitted request can go on to its handler, whatever it asks for, unless it already has. */
  lemma ForwardedExactlyIfAdmitted(s: State, r: Protocol.Req)
    ensures Enabled(s, Back(Protocol.Arrive(r))) <==>
              WasAdmitted(s, r.num) && forall q | q in s.sys.reqs :: q.num != r.num
  {
    if Passed(s, r.num) {
      var phase := s.limiter.workers[r.num].phase;
      assert phase == Limiter.Decided(true, phase.at);
    }
    if r in s.sys.reqs {
      assert r.num == r.num;
    }
  }

  /** Limiter and handlers hold each other up in nothing else. */
  lemma StepsAreIndependent(s: State, l: Limiter.Step, h: Protocol.Step)
    requires !h.Arrive?
    ensures Enabled(s, Front(l)) <==> Limiter.Enabled(s.limiter, l)
    ensures Enabled(s, Back(h)) <==> Protocol.Enabled(s.sys, h)
  {
  }

  lemma {:induction false} NumbersBound(reqs: set<Protocol.Req>, pids: set<nat>)
    requires forall r | r in reqs :: r.num in pids
    requires forall q, r | q in reqs && r in reqs && q.num == r.num :: q == r
    ensures |reqs| <= |pids|
  {
    if reqs != {} {
      var r :| r in reqs;
      NumbersBound(reqs - {r}, pids - {r.num});
    }
  }

  /** The requests of `ip` that the limiter answered within [from, to], admitted or not. */
  function AnsweredWithin(s: Limiter.State, ip: RateLimiter.Ip, from: nat, to: nat): set<nat> {
    set pid | pid in s.workers && s.workers[pid].ip == ip && s.workers[pid].phase.Decided?
              && from <= s.workers[pid].phase.at <= to
  }

  /** Of the requests answered in an interval only the admitted ones have issued statements. */
  lemma OnlyAdmittedIssue(limit: nat, db: Database.Db, run: seq<Step>, gap: nat,
                          ip: RateLimiter.Ip, from: nat, to: nat)
    requires Run(Start(limit, db), run, gap)
    ensures var s := After(Start(limit, db), run);
            var all, pids := AnsweredWithin(s.limiter, ip, from, to), LimiterWindow.Admitted(s.limiter, ip, from, to);
            && IssuedFirst(s.sys, all) == IssuedFirst(s.sys, pids)
            && IssuedSecond(s.sys, all) == IssuedSecond(s.sys, pids)
  {
    HandledMeansAdmitted(limit, db, run, gap);
    var s := After(Start(limit, db), run);
    var all, pids := AnsweredWithin(s.limiter, ip, from, to), LimiterWindow.Admitted(s.limiter, ip, from, to);
    forall r | r in s.sys.reqs ensures r.num in all <==> r.num in pids {
      assert WasAdmitted(s, r.num);
    }
  }

  /**
   Admission composed with the handlers: all the requests for the state API from one address
   that arrive at the limiter and are answered by it in [from, to], admitted or not, issue over
   the whole run at most 2 * (M + M * (to - from) / minute) statements.
   */
  lemma DatabaseLoadIsBounded(limit: nat, db: Database.Db, run: seq<Step>, gap: nat,
                              ip: RateLimiter.Ip, from: nat, to: nat, most: nat)
    requires Run(Start(limit, db), run, gap) && limit <= most && from <= to && gap <= 240_000_000_001
    requires forall step | step in run && step.Front? && step.limiterStep.Publish? :: step.limiterStep.limit <= most
    ensures Statements(run, AnsweredWithin(After(Start(limit, db), run).limiter, ip, from, to)) * 60_000_000_000
            <= 2 * (most * 60_000_000_000 + most * (to - from))
  {
    var s := After(Start(limit, db), run);
    var all, pids := AnsweredWithin(s.limiter, ip, from, to), LimiterWindow.Admitted(s.limiter, ip, from, to);
    LimiterRunsAlone(limit, db, run, gap);
    forall l | l in Fronts(run) && l.Publish? ensures l.limit <= most {
      assert Front(l) in run;
    }
    LimiterWindow.WindowBound(limit, Fronts(run), ip, from, to, most, gap);
    StatementsAreCounted(limit, db, run, gap, all);
    OnlyAdmittedIssue(limit, db, run, gap, ip, from, to);
    NumbersBound(IssuedFirst(s.sys, pids), pids);
    NumbersBound(IssuedSecond(s.sys, pids), pids);
    assert Statements(run, all) <= 2 * |pids|;
  }
}
