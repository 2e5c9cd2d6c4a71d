/**
 What every request is told, in any run: its answer is fixed by the tables and the fate at its
 own statements, and by nothing else. Also what a request can do next, at any moment.
 */
module Outcomes {
  import opened Database
  import opened Options
  import opened Protocol

  /** The answer to the first statement on these tables; Missed if the current lock is to be read. */
  function FirstOutcome(op: Op, db: Db, fate: Fate): Phase
    requires !Malformed(op)
  {
    if !fate.Acked? then Answered(500, Text) else
    match op
    case Lock(w, _) => if w in db.locks then Missed else Answered(200, NoBody)
    case Unlock(w, id) =>
      if w in db.locks && db.locks[w].lockId == id.value then Answered(200, NoBody) else Missed
    case Get(w) => if w in db.states then Answered(200, Content(db.states[w].document)) else Answered(404, NoBody)
    case Post(_, body) => if body.value.document.Some? then Answered(200, NoBody) else Answered(500, Text)
    case Delete(_) => Answered(200, NoBody)
  }

  /** The answer to a refused LOCK or UNLOCK that reads these tables: the holder if there is one. */
  function ConflictOutcome(op: Op, db: Db, fate: Fate): Phase {
    var status := if op.Lock? then 423 else 409;
    if !fate.Acked? then Answered(status, Text)
    else if op.workspace in db.locks then Answered(status, Holder(db.locks[op.workspace]))
    else if op.Lock? then Answered(423, NoBody)
    else Answered(409, LockNotFound)
  }

  /** The request ran its first statement at `point`, and nothing has changed its phase since. */
  ghost predicate Ran(db: Db, run: seq<Step>, r: Req, point: nat) {
    && point < |run| && run[point].Exec? && run[point].req == r && !Malformed(r.op)
    && r in After(Start(db), run).reqs
    && After(Start(db), run).reqs[r] == FirstOutcome(r.op, After(Start(db), run[..point]).db, run[point].fate)
  }

  /** The request missed at `point`, and read the current lock at `read`. */
  ghost predicate ReadTheLock(db: Db, run: seq<Step>, r: Req, point: nat, read: nat) {
    && point < read < |run| && run[point].Exec? && run[point].req == r && !Malformed(r.op)
    && FirstOutcome(r.op, After(Start(db), run[..point]).db, run[point].fate) == Missed
    && run[read].ReadBack? && run[read].req == r && r in After(Start(db), run).reqs
    && After(Start(db), run).reqs[r] == ConflictOutcome(r.op, After(Start(db), run[..read]).db, run[read].fate)
  }

  lemma ExecOutcome(s: Sys, step: Step)
    requires Enabled(s, step) && step.Exec?
    ensures Apply(s, step).reqs[step.req] == FirstOutcome(step.req.op, s.db, step.fate)
  {
  }

  lemma ReadBackOutcome(s: Sys, step: Step)
    requires Enabled(s, step) && step.ReadBack?
    ensures Apply(s, step).reqs[step.req] == ConflictOutcome(step.req.op, s.db, step.fate)
  {
  }

  /**
   The whole story of every request: 400 exactly if it cannot be used; otherwise the answer is
   the outcome of its first statement or, if that missed, of its second.
   */
  lemma {:induction false} AnswersAreExact(db: Db, run: seq<Step>, r: Req) returns (point: nat, read: nat)
    requires Run(Start(db), run) && r in After(Start(db), run).reqs
    ensures var phase := After(Start(db), run).reqs[r];
            if Malformed(r.op) then phase == Answered(400, Text)
            else phase == Received || Ran(db, run, r, point) || ReadTheLock(db, run, r, point, read)
  {
    point, read := 0, 0;
    var front, step := run[..|run| - 1], run[|run| - 1];
    var s := After(Start(db), front);
    WellFormedAlways(db, front);
    if r in s.reqs {
      point, read := AnswersAreExact(db, front, r);
    }
    if !Malformed(r.op) && step.req == r && step.Exec? {
      ExecOutcome(s, step);
      point := |front|;
    } else if !Malformed(r.op) && step.req == r && step.ReadBack? {
      assert Ran(db, front, r, point);
      ReadBackOutcome(s, step);
      read := |front|;
      assert run[..point] == front[..point] && run[..read] == front;
    } else if !Malformed(r.op) && r in s.reqs && !s.reqs[r].Received? {
      assert After(Start(db), run).reqs[r] == s.reqs[r] && run[..point] == front[..point];
      if !Ran(db, front, r, point) {
        assert run[..read] == front[..read];
      }
    }
  }

  lemma AnswerStays(db: Db, run: seq<Step>, r: Req, k: nat)
    requires Run(Start(db), run) && k <= |run|
    requires r in After(Start(db), run[..k]).reqs && After(Start(db), run[..k]).reqs[r].Answered?
    ensures r in After(Start(db), run).reqs && After(Start(db), run).reqs[r] == After(Start(db), run[..k]).reqs[r]
  {
    Between(Start(db), run, k, |run|);
    assert run[..|run|] == run;
    PhasesAdvance(After(Start(db), run[..k]), run[k..], r);
  }

  /** Whenever a first statement runs, its outcome, unless it missed, is the answer for good. */
  lemma FirstStatementDecides(db: Db, run: seq<Step>, point: nat)
    requires Run(Start(db), run) && point < |run| && run[point].Exec?
    ensures var r := run[point].req;
            && r in After(Start(db), run).reqs && !Malformed(r.op)
            && var outcome := FirstOutcome(r.op, After(Start(db), run[..point]).db, run[point].fate);
               outcome.Answered? ==> After(Start(db), run).reqs[r] == outcome
  {
    var r := run[point].req;
    PrefixRuns(Start(db), run, point);
    PrefixRuns(Start(db), run, point + 1);
    ExecOutcome(After(Start(db), run[..point]), run[point]);
    Between(Start(db), run, point + 1, |run|);
    assert run[..|run|] == run;
    PhasesAdvance(After(Start(db), run[..point + 1]), run[point + 1..], r);
  }

  /**
   Whenever a refused request reads the current lock, the answer names the holder there is at
   that moment; without one it is empty for LOCK and says so for UNLOCK.
   */
  lemma ConflictsNameTheHolder(db: Db, run: seq<Step>, read: nat)
    requires Run(Start(db), run) && read < |run| && run[read].ReadBack?
    ensures var r := run[read].req;
            && r in After(Start(db), run).reqs
            && After(Start(db), run).reqs[r]
               == ConflictOutcome(r.op, After(Start(db), run[..read]).db, run[read].fate)
  {
    PrefixRuns(Start(db), run, read);
    ReadBackOutcome(After(Start(db), run[..read]), run[read]);
    AnswerStays(db, run, run[read].req, read + 1);
  }

  lemma SuccessWasAcknowledged(db: Db, run: seq<Step>, r: Req)
    requires Run(Start(db), run) && r in After(Start(db), run).reqs
    requires After(Start(db), run).reqs[r] == Answered(200, NoBody)
    ensures Exec(r, Acked) in run
  {
    var point, read := AnswersAreExact(db, run, r);
    if Ran(db, run, r, point) {
      assert run[point] == Exec(r, Acked);
    }
  }

  /** A DELETE is told 200 exactly when its statement was acknowledged. */
  lemma DeleteIsToldTheTruth(db: Db, run: seq<Step>, r: Req)
    requires Run(Start(db), run) && r in After(Start(db), run).reqs && r.op.Delete?
    ensures After(Start(db), run).reqs[r] == Answered(200, NoBody) <==> Exec(r, Acked) in run
  {
    if Exec(r, Acked) in run {
      var k :| 0 <= k < |run| && run[k] == Exec(r, Acked);
      FirstStatementDecides(db, run, k);
    } else if After(Start(db), run).reqs[r] == Answered(200, NoBody) {
      SuccessWasAcknowledged(db, run, r);
    }
  }

  /** And the row is absent right after. */
  lemma DeletedIsGone(db: Db, run: seq<Step>, k: nat)
    requires Run(Start(db), run) && k < |run| && run[k].Exec? && run[k].fate.Acked? && run[k].req.op.Delete?
    ensures run[k].req.op.workspace !in After(Start(db), run[..k + 1]).db.states
  {
    PrefixRuns(Start(db), run, k);
  }

  // ----- what can happen next -----

  lemma {:induction false} LandedIsOver(db: Db, run: seq<Step>, r: Req)
    requires Run(Start(db), run) && (Land(r) in run || exists fate :: Exec(r, fate) in run)
    ensures r in After(Start(db), run).reqs && !After(Start(db), run).reqs[r].Received?
  {
    var front, step := run[..|run| - 1], run[|run| - 1];
    WellFormedAlways(db, front);
    if step.req != r || !(step.Land? || step.Exec?) {
      LandedIsOver(db, front, r);
    }
  }

  /** The statements still to come are those that were late and have not landed, of every kind. */
  lemma {:induction false} LateIsExact(db: Db, run: seq<Step>, r: Req)
    requires Run(Start(db), run)
    ensures r in After(Start(db), run).late <==> Exec(r, Late) in run && Land(r) !in run
  {
    if run != [] {
      var front, step := run[..|run| - 1], run[|run| - 1];
      LateIsExact(db, front, r);
      assert run == front + [step];
      if step == Exec(r, Late) && Land(r) in front {
        LandedIsOver(db, front, r);
      }
    }
  }

  /** Nothing holds a request up: each can arrive, run its statements with any fate, and land late. */
  lemma NothingBlocks(db: Db, run: seq<Step>, r: Req)
    requires Run(Start(db), run)
    ensures var s := After(Start(db), run);
            && (r !in s.reqs ==> Enabled(s, Arrive(r)))
            && (r in s.reqs && s.reqs[r].Received? ==> forall fate :: Enabled(s, Exec(r, fate)))
            && (r in s.reqs && s.reqs[r].Missed? ==> forall fate :: Enabled(s, ReadBack(r, fate)))
            && (Exec(r, Late) in run && Land(r) !in run ==> Enabled(s, Land(r)))
  {
    WellFormedAlways(db, run);
    LateIsExact(db, run, r);
  }
}
