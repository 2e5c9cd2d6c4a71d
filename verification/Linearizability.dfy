/**
 The two-statement handlers look like one atomic lock object: a map from workspace to lock
 with an acquire and a release. A request takes effect at its first statement, and its
 status is what the object answers there, whatever happens before it reads the holder back.
 */
module Linearizability {
  import opened Database
  import opened Options
  import opened Protocol

  type Locks = map<string, LockRow>

  /** The object: a mutex-protected map, as the in-memory repository implements it. */
  function Acquire(locks: Locks, workspace: string, row: LockRow): (Locks, bool) {
    if workspace in locks then (locks, false) else (locks[workspace := row], true)
  }

  function Release(locks: Locks, workspace: string, lockId: string): (Locks, bool) {
    if workspace !in locks || locks[workspace].lockId != lockId then (locks, false)
    else (locks - {workspace}, true)
  }

  predicate OnLocks(op: Op) {
    !Malformed(op) && (op.Lock? || op.Unlock?)
  }

  /** One operation on the object, and the status it stands for. */
  function Perform(locks: Locks, op: Op): (Locks, nat)
    requires OnLocks(op)
  {
    if op.Lock? then
      var (locks', ok) := Acquire(locks, op.workspace, op.row.value);
      (locks', if ok then 200 else 423)
    else
      var (locks', ok) := Release(locks, op.workspace, op.lockId.value);
      (locks', if ok then 200 else 409)
  }

  /** The object's contents after the operations that took effect in the run, in that order. */
  function Replay(locks: Locks, run: seq<Step>): Locks {
    if run == [] then locks else
    var front, step := Replay(locks, run[..|run| - 1]), run[|run| - 1];
    if TakesEffect(step) && OnLocks(step.req.op) then Perform(front, step.req.op).0 else front
  }

  lemma TableStep(s: Sys, step: Step)
    requires Enabled(s, step)
    ensures Apply(s, step).db.locks ==
              if TakesEffect(step) && OnLocks(step.req.op) then Perform(s.db.locks, step.req.op).0 else s.db.locks
  {
  }

  /** With lost and late acknowledgements too, the lock table is the object's map. */
  lemma {:induction false} TableIsTheObject(db: Db, run: seq<Step>)
    requires Run(Start(db), run)
    ensures After(Start(db), run).db.locks == Replay(db.locks, run)
  {
    if run != [] {
      TableIsTheObject(db, run[..|run| - 1]);
      TableStep(After(Start(db), run[..|run| - 1]), run[|run| - 1]);
    }
  }

  lemma {:induction false} ArrivedAt(db: Db, run: seq<Step>, r: Req) returns (i: nat)
    requires Run(Start(db), run) && r in After(Start(db), run).reqs
    ensures i < |run| && run[i] == Arrive(r)
  {
    var front, step := run[..|run| - 1], run[|run| - 1];
    if r in After(Start(db), front).reqs {
      i := ArrivedAt(db, front, r);
    } else {
      i := |run| - 1;
    }
  }

  /** The status a request has been given or, with only the body left to read, will be given. */
  function Verdict(op: Op, phase: Phase): nat
    requires !phase.Received?
  {
    if phase.Missed? then (if op.Lock? then 423 else 409) else phase.status
  }

  /** The request reached the tables and was told so: it did not fail with 400 or 500. */
  predicate Decided(s: Sys, r: Req) {
    r in s.reqs && OnLocks(r.op) && !s.reqs[r].Received? && Verdict(r.op, s.reqs[r]) != 500
  }

  /**
   Linearizability. In every run, with any database errors, each 200, 423 and 409 is what the
   atomic object answers at a moment inside the request: after it arrived, at its insert or
   delete. What happens before a second query cannot change it.
   */
  lemma {:induction false} StatusIsTheObjectsAnswer(db: Db, run: seq<Step>, r: Req) returns (arrived: nat, point: nat)
    requires Run(Start(db), run) && Decided(After(Start(db), run), r)
    ensures arrived < point < |run| && run[arrived] == Arrive(r) && run[point] == Exec(r, Acked)
    ensures Perform(Replay(db.locks, run[..point]), r.op).1 == Verdict(r.op, After(Start(db), run).reqs[r])
  {
    var front, step := run[..|run| - 1], run[|run| - 1];
    var s := After(Start(db), front);
    if step.Exec? && step.req == r {
      TableIsTheObject(db, front);
      arrived := ArrivedAt(db, front, r);
      point := |run| - 1;
    } else {
      arrived, point := StatusIsTheObjectsAnswer(db, front, r);
      assert front[..point] == run[..point];
    }
  }

  /** What PhasesAdvance says between two moments of a run, the second followed by a step. */
  lemma Later(s: Sys, run: seq<Step>, i: nat, j: nat, r: Req)
    requires Run(s, run) && i <= j < |run|
    ensures Run(s, run[..i]) && Run(s, run[..j])
    ensures Enabled(After(s, run[..i]), run[i]) && Enabled(After(s, run[..j]), run[j])
    ensures r in After(s, run[..i]).reqs ==>
              && r in After(s, run[..j]).reqs
              && (After(s, run[..i]).reqs[r].Answered? ==> After(s, run[..j]).reqs[r].Answered?)
  {
    PrefixRuns(s, run, i);
    PrefixRuns(s, run, j);
    Between(s, run, i, j);
    if r in After(s, run[..i]).reqs {
      PhasesAdvance(After(s, run[..i]), run[i..j], r);
    }
  }

  /** The order of the linearization points respects real time. */
  lemma RealTimeOrder(db: Db, run: seq<Step>, r1: Req, r2: Req, k: nat, arrived: nat, point1: nat, point2: nat,
                      f1: Fate, f2: Fate)
    requires Run(Start(db), run) && k <= arrived < |run| && point1 < |run| && point2 < |run|
    requires r1 in After(Start(db), run[..k]).reqs && After(Start(db), run[..k]).reqs[r1].Answered?
    requires run[arrived] == Arrive(r2) && run[point1] == Exec(r1, f1) && run[point2] == Exec(r2, f2)
    ensures point1 < k <= arrived < point2
  {
    if k <= point1 {
      Later(Start(db), run, k, point1, r1);
      assert false;
    }
    if point2 <= arrived {
      Later(Start(db), run, point2, arrived, r2);
      assert false;
    }
  }
}
