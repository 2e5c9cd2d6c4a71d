/** What losers are told: the N-way race, the holder named in a conflict, and the counters. */
module LockConflicts {
  import opened Database
  import opened Options
  import opened Protocol
  import opened Linearizability
  import opened LockOwnership

  // ----- the N-way race -----

  /** Only well-formed LOCKs of `w`, and no database error. */
  ghost predicate Race(run: seq<Step>, w: string) {
    forall step | step in run ::
      && step.req.op.Lock? && step.req.op.workspace == w && !Malformed(step.req.op)
      && (step.Exec? ==> step.fate.Acked?) && (step.ReadBack? ==> step.fate.Acked?)
  }

  ghost predicate Undecided(s: Sys, w: string) {
    w !in s.db.locks && s.late == {} && forall r | r in s.reqs :: s.reqs[r].Received?
  }

  ghost predicate WonBy(s: Sys, w: string, winner: Req) {
    && s.late == {} && winner in s.reqs && s.reqs[winner] == Answered(200, NoBody)
    && winner.op.Lock? && winner.op.row.Some? && Find(s.db.locks, w) == winner.op.row
    && forall r | r in s.reqs && r != winner ::
         s.reqs[r].Received? || s.reqs[r].Missed? || s.reqs[r] == Answered(423, Holder(winner.op.row.value))
  }

  lemma {:induction false} RaceDecides(db: Db, run: seq<Step>, w: string)
    requires Run(Start(db), run) && Race(run, w) && w !in db.locks
    ensures var s := After(Start(db), run);
            Undecided(s, w) || exists winner :: WonBy(s, w, winner)
  {
    if run != [] {
      var front, step := run[..|run| - 1], run[|run| - 1];
      RaceDecides(db, front, w);
      var s, s' := After(Start(db), front), After(Start(db), run);
      assert step in run;
      if Undecided(s, w) {
        assert step.Exec? ==> WonBy(s', w, step.req);
      } else {
        var winner :| WonBy(s, w, winner);
        assert WonBy(s', w, winner);
      }
    }
  }

  /**
   However N LOCKs of a free workspace interleave, once all are answered exactly one was told
   200 and the other N - 1 were told 423, all naming the winner.
   */
  lemma ExactlyOneWins(db: Db, run: seq<Step>, w: string) returns (winner: Req)
    requires Run(Start(db), run) && Race(run, w) && w !in db.locks
    requires var s := After(Start(db), run); s.reqs.Keys != {} && forall r | r in s.reqs :: s.reqs[r].Answered?
    ensures var s := After(Start(db), run);
            && winner in s.reqs && winner.op.Lock? && winner.op.row.Some?
            && (set r | r in s.reqs && s.reqs[r].status == 200) == {winner}
            && |set r | r in s.reqs && s.reqs[r] == Answered(423, Holder(winner.op.row.value))| == |s.reqs| - 1
  {
    RaceDecides(db, run, w);
    var s := After(Start(db), run);
    assert exists r :: r in s.reqs;
    winner :| WonBy(s, w, winner);
    assert (set r | r in s.reqs && s.reqs[r] == Answered(423, Holder(winner.op.row.value))) == s.reqs.Keys - {winner};
  }

  // ----- the holder named in a conflict -----

  /** The holder in a 423 or 409 was in the table at a moment inside that request. */
  lemma {:induction false} NamedHolderWasThere(db: Db, run: seq<Step>, r: Req, row: LockRow)
    returns (arrived: nat, read: nat)
    requires Run(Start(db), run) && r in After(Start(db), run).reqs
    requires After(Start(db), run).reqs[r].Answered? && After(Start(db), run).reqs[r].reply == Holder(row)
    ensures arrived < read < |run| && run[arrived] == Arrive(r) && run[read] == ReadBack(r, Acked)
    ensures Find(After(Start(db), run[..read]).db.locks, r.op.workspace) == Some(row)
  {
    var front, step := run[..|run| - 1], run[|run| - 1];
    if step.ReadBack? && step.req == r {
      arrived := ArrivedAt(db, front, r);
      read := |run| - 1;
    } else {
      arrived, read := NamedHolderWasThere(db, front, r, row);
      assert front[..read] == run[..read];
    }
  }

  /** Each id is used in one LOCK of a workspace, and UNLOCK is sent only after that LOCK's 200. */
  ghost predicate PoliteArrival(db: Db, s: Sys, op: Op) {
    && (op.Lock? ==>
          && (op.workspace in db.locks ==> LockIdOf(op) != Some(db.locks[op.workspace].lockId))
          && forall r | r in s.reqs && r.op.Lock? && r.op.workspace == op.workspace :: LockIdOf(r.op) != LockIdOf(op))
    && (op.Unlock? ==>
          exists r :: r in s.reqs && r.op.Lock? && r.op.workspace == op.workspace
                      && LockIdOf(r.op) == LockIdOf(op) && s.reqs[r] == Answered(200, NoBody))
  }

  ghost predicate Polite(db: Db, run: seq<Step>) {
    run == [] ||
    var front, step := run[..|run| - 1], run[|run| - 1];
    && Polite(db, front)
    && (step.Arrive? && !Malformed(step.req.op) ==> PoliteArrival(db, After(Start(db), front), step.req.op))
  }

  /** The lock this request speaks of is not in the table. */
  predicate Away(s: Sys, op: Op) {
    op.workspace in s.db.locks ==> LockIdOf(op) != Some(s.db.locks[op.workspace].lockId)
  }

  ghost predicate SameLock(r1: Req, r2: Req) {
    r1.op.workspace == r2.op.workspace && LockIdOf(r1.op) == LockIdOf(r2.op)
  }

  /** A LOCK whose insert has not happened, or never will, has no row; nor has a refused UNLOCK. */
  predicate OwesNoRow(s: Sys, r: Req) {
    r in s.reqs && !Malformed(r.op) &&
    if r.op.Lock? then s.reqs[r].Received? || s.reqs[r].Missed? || r in s.late
    else r.op.Unlock? && s.reqs[r].Missed?
  }

  ghost predicate RowsAway(s: Sys) {
    forall r | OwesNoRow(s, r) :: Away(s, r.op)
  }

  /** The 200 that entitles a client to send this UNLOCK. */
  ghost predicate HasGrant(s: Sys, r: Req) {
    exists l :: l in s.reqs && l.op.Lock? && !Malformed(l.op) && SameLock(l, r) && s.reqs[l] == Answered(200, NoBody)
  }

  ghost predicate UnlocksGranted(s: Sys) {
    forall r | r in s.reqs && r.op.Unlock? && !Malformed(r.op) :: HasGrant(s, r)
  }

  ghost predicate OneLockPerId(s: Sys) {
    forall r1, r2 | r1 in s.reqs && r2 in s.reqs && r1.op.Lock? && r2.op.Lock?
                    && !Malformed(r1.op) && !Malformed(r2.op) && SameLock(r1, r2) :: r1 == r2
  }

  /** Every row in the table was there at the start or is that of a LOCK that arrived. */
  ghost predicate RowsHaveSource(db: Db, s: Sys) {
    forall w | w in s.db.locks ::
      Find(db.locks, w) == Some(s.db.locks[w]) || LockSent(s, w, s.db.locks[w].lockId)
  }

  ghost predicate LockSent(s: Sys, w: string, id: string) {
    exists l :: l in s.reqs && l.op.Lock? && l.op.workspace == w && LockIdOf(l.op) == Some(id)
  }

  lemma LockSentStays(s: Sys, step: Step, w: string, id: string)
    requires Enabled(s, step) && LockSent(s, w, id)
    ensures LockSent(Apply(s, step), w, id)
  {
    var l :| l in s.reqs && l.op.Lock? && l.op.workspace == w && LockIdOf(l.op) == Some(id);
    assert l in Apply(s, step).reqs;
  }

  lemma RowsHaveSourceStep(db: Db, s: Sys, step: Step)
    requires WellFormed(s) && RowsHaveSource(db, s) && Enabled(s, step)
    ensures RowsHaveSource(db, Apply(s, step))
  {
    var s' := Apply(s, step);
    forall w | w in s'.db.locks
      ensures Find(db.locks, w) == Some(s'.db.locks[w]) || LockSent(s', w, s'.db.locks[w].lockId)
    {
      RowStep(s, step, w);
      if Inserts(s, step, w) {
        assert step.req in s'.reqs;
      } else if LockSent(s, w, s.db.locks[w].lockId) {
        LockSentStays(s, step, w, s.db.locks[w].lockId);
      }
    }
  }

  lemma UnlocksGrantedStep(db: Db, s: Sys, step: Step)
    requires UnlocksGranted(s) && OneLockPerId(s) && Enabled(s, step)
    requires step.Arrive? && !Malformed(step.req.op) ==> PoliteArrival(db, s, step.req.op)
    requires forall r | r in s.reqs && s.reqs[r] == Answered(200, NoBody) :: !Malformed(r.op)
    ensures UnlocksGranted(Apply(s, step)) && OneLockPerId(Apply(s, step))
  {
    var s' := Apply(s, step);
    forall r | r in s'.reqs && r.op.Unlock? && !Malformed(r.op) ensures HasGrant(s', r) {
      var l :| l in s.reqs && l.op.Lock? && SameLock(l, r) && s.reqs[l] == Answered(200, NoBody);
      assert s'.reqs[l] == s.reqs[l];
    }
  }

  /** No insert brings back the row of a request that owes none. */
  lemma InsertIsForeign(s: Sys, step: Step, r: Req)
    requires WellFormed(s) && UnlocksGranted(s) && OneLockPerId(s) && Enabled(s, step)
    requires OwesNoRow(s, r) && r != step.req && Inserts(s, step, r.op.workspace)
    ensures LockIdOf(step.req.op) != LockIdOf(r.op)
  {
    if r.op.Unlock? {
      var l :| l in s.reqs && l.op.Lock? && !Malformed(l.op) && SameLock(l, r) && s.reqs[l] == Answered(200, NoBody);
      assert l != step.req;
    }
  }

  lemma RowsAwayStep(s: Sys, step: Step)
    requires WellFormed(s) && RowsAway(s) && UnlocksGranted(s) && OneLockPerId(s) && Enabled(s, step) && !step.Arrive?
    ensures RowsAway(Apply(s, step))
  {
    var s' := Apply(s, step);
    forall r | OwesNoRow(s', r) ensures Away(s', r.op) {
      RowStep(s, step, r.op.workspace);
      if r != step.req && Inserts(s, step, r.op.workspace) {
        InsertIsForeign(s, step, r);
      }
    }
  }

  lemma RowsAwayArrival(db: Db, s: Sys, r: Req)
    requires RowsAway(s) && RowsHaveSource(db, s) && Enabled(s, Arrive(r))
    requires !Malformed(r.op) ==> PoliteArrival(db, s, r.op)
    ensures RowsAway(Apply(s, Arrive(r)))
  {
    var s' := Apply(s, Arrive(r));
    forall q | OwesNoRow(s', q) ensures Away(s', q.op) {
      if q == r {
        assert r.op.Lock?;
      } else {
        assert OwesNoRow(s, q);
      }
    }
  }

  ghost predicate PoliteState(db: Db, s: Sys) {
    && WellFormed(s) && RowsHaveSource(db, s) && RowsAway(s) && UnlocksGranted(s) && OneLockPerId(s)
    && (forall r | r in s.reqs && s.reqs[r] == Answered(200, NoBody) :: !Malformed(r.op))
  }

  lemma {:induction false} PoliteAlways(db: Db, run: seq<Step>)
    requires Run(Start(db), run) && Polite(db, run)
    ensures PoliteState(db, After(Start(db), run))
  {
    WellFormedAlways(db, run);
    if run != [] {
      var front, step := run[..|run| - 1], run[|run| - 1];
      var s := After(Start(db), front);
      PoliteAlways(db, front);
      RowsHaveSourceStep(db, s, step);
      UnlocksGrantedStep(db, s, step);
      if step.Arrive? {
        RowsAwayArrival(db, s, step.req);
      } else {
        RowsAwayStep(s, step);
      }
    }
  }

  /**
   Among polite clients - each id in one LOCK, UNLOCK only after its 200 - no conflict ever
   names the caller's own id, with any interleaving and any database errors.
   */
  lemma NeverNamesTheCaller(db: Db, run: seq<Step>, r: Req, row: LockRow)
    requires Run(Start(db), run) && Polite(db, run) && r in After(Start(db), run).reqs
    requires After(Start(db), run).reqs[r].Answered? && After(Start(db), run).reqs[r].reply == Holder(row)
    ensures LockIdOf(r.op) != Some(row.lockId)
  {
    var arrived, read := NamedHolderWasThere(db, run, r, row);
    PrefixRuns(Start(db), run, read);
    PolitePrefix(db, run, read);
    PoliteAlways(db, run[..read]);
    assert OwesNoRow(After(Start(db), run[..read]), r);
  }

  lemma {:induction false} PolitePrefix(db: Db, run: seq<Step>, k: nat)
    requires Polite(db, run) && k <= |run|
    ensures Polite(db, run[..k])
  {
    if k < |run| {
      PolitePrefix(db, run[..|run| - 1], k);
      assert run[..|run| - 1][..k] == run[..k];
    } else {
      assert run[..k] == run;
    }
  }

  // ----- conservation -----

  /** How many of the run's steps inserted, or removed, a lock row. */
  function InsertCount(s: Sys, run: seq<Step>): nat {
    if run == [] then 0 else
    var front, step := run[..|run| - 1], run[|run| - 1];
    InsertCount(s, front) + if Inserts(After(s, front), step, step.req.op.workspace) then 1 else 0
  }

  function RemovalCount(s: Sys, run: seq<Step>): nat {
    if run == [] then 0 else
    var front, step := run[..|run| - 1], run[|run| - 1];
    RemovalCount(s, front) + if Removes(After(s, front), step, step.req.op.workspace) then 1 else 0
  }

  /** The lock table after a step, as a whole. */
  lemma LocksStep(s: Sys, step: Step)
    requires Enabled(s, step)
    ensures var w, locks := step.req.op.workspace, s.db.locks;
            Apply(s, step).db.locks ==
              if Inserts(s, step, w) then locks[w := step.req.op.row.value]
              else if Removes(s, step, w) then locks - {w} else locks
  {
  }

  lemma OneRowMore(locks: Locks, w: string, row: LockRow)
    requires w !in locks
    ensures |locks[w := row]| == |locks| + 1
  {
    assert locks[w := row].Keys == locks.Keys + {w};
  }

  lemma OneRowLess(locks: Locks, w: string)
    requires w in locks
    ensures |locks - {w}| + 1 == |locks|
  {
    assert (locks - {w}).Keys + {w} == locks.Keys;
  }

  /** Conservation: the lock_count gauge is inserts minus deletes, in every reachable state. */
  lemma {:induction false} LockRowsAreConserved(db: Db, run: seq<Step>)
    requires Run(Start(db), run)
    ensures |After(Start(db), run).db.locks| + RemovalCount(Start(db), run) == |db.locks| + InsertCount(Start(db), run)
  {
    if run != [] {
      var front, step := run[..|run| - 1], run[|run| - 1];
      LockRowsAreConserved(db, front);
      var s, w := After(Start(db), front), step.req.op.workspace;
      LocksStep(s, step);
      if Inserts(s, step, w) {
        OneRowMore(s.db.locks, w, step.req.op.row.value);
      } else if Removes(s, step, w) {
        OneRowLess(s.db.locks, w);
      }
    }
  }

  /** The LOCKs that were refused by the table, whether or not they have been answered yet. */
  function Refused(s: Sys): set<Req> {
    set r | r in s.reqs && r.op.Lock? && (s.reqs[r].Missed? || (s.reqs[r].Answered? && s.reqs[r].status == 423))
  }

  lemma RefusedStep(s: Sys, step: Step)
    requires Enabled(s, step)
    ensures var s' := Apply(s, step);
            var refused := step.Exec? && step.req.op.Lock? && s'.reqs[step.req].Missed?;
            && Refused(s') == (if refused then Refused(s) + {step.req} else Refused(s))
            && (refused ==> step.req !in Refused(s))
            && s'.conflicts == s.conflicts + if refused then 1 else 0
  {
  }

  /** The conflict counter counts exactly the refused LOCKs; when none is in flight, the 423s. */
  lemma {:induction false} CounterCountsConflicts(db: Db, run: seq<Step>)
    requires Run(Start(db), run)
    ensures var s := After(Start(db), run);
            && s.conflicts == |Refused(s)|
            && ((forall r | r in s.reqs :: s.reqs[r].Answered?) ==>
                  s.conflicts == |set r | r in s.reqs && s.reqs[r].status == 423|)
  {
    var s' := After(Start(db), run);
    if run != [] {
      var front, step := run[..|run| - 1], run[|run| - 1];
      CounterCountsConflicts(db, front);
      RefusedStep(After(Start(db), front), step);
    }
    if forall r | r in s'.reqs :: s'.reqs[r].Answered? {
      OnlyLocksAre423(db, run);
      assert Refused(s') == set r | r in s'.reqs && s'.reqs[r].status == 423;
    }
  }

  lemma {:induction false} OnlyLocksAre423(db: Db, run: seq<Step>)
    requires Run(Start(db), run)
    ensures forall r | r in After(Start(db), run).reqs && After(Start(db), run).reqs[r].Answered?
                       && After(Start(db), run).reqs[r].status == 423 :: r.op.Lock?
  {
    if run != [] {
      OnlyLocksAre423(db, run[..|run| - 1]);
    }
  }
}
