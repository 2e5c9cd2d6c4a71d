/**
 Who holds a workspace, and for how long, when acknowledgements may be lost, statements may
 land late, and UNLOCKs may be stale, duplicated or forged.
 */
module LockOwnership {
  import opened Database
  import opened Options
  import opened Protocol
  import opened Linearizability

  /** The step inserts the row of a LOCK on `w`. */
  predicate Inserts(s: Sys, step: Step, w: string) {
    TakesEffect(step) && step.req.op.Lock? && step.req.op.workspace == w && step.req.op.row.Some? && w !in s.db.locks
  }

  /** The step removes the row of `w`, on behalf of an UNLOCK carrying its id. */
  predicate Removes(s: Sys, step: Step, w: string) {
    TakesEffect(step) && step.req.op.Unlock? && step.req.op.workspace == w
    && w in s.db.locks && step.req.op.lockId == Some(s.db.locks[w].lockId)
  }

  /** A row only ever changes by being inserted where there is none, or removed by its own id. */
  lemma RowStep(s: Sys, step: Step, w: string)
    requires Enabled(s, step)
    ensures var locks, locks' := s.db.locks, Apply(s, step).db.locks;
            if Inserts(s, step, w) then w in locks' && locks'[w] == step.req.op.row.value
            else if Removes(s, step, w) then w !in locks'
            else Find(locks', w) == Find(locks, w)
  {
  }

  // ----- alternation -----

  datatype Effect = Inserted(id: string) | Removed(id: string)

  /** The effective inserts and deletes on `w`, each with the id its request carried. */
  function EffectsOn(s: Sys, run: seq<Step>, w: string): seq<Effect> {
    if run == [] then [] else
    var front, step := run[..|run| - 1], run[|run| - 1];
    var t := After(s, front);
    EffectsOn(s, front, w) +
    if Inserts(t, step, w) then [Inserted(step.req.op.row.value.lockId)]
    else if Removes(t, step, w) then [Removed(step.req.op.lockId.value)]
    else []
  }

  /** Even positions insert; an odd one removes what the position before it inserted. */
  predicate InTurn(es: seq<Effect>, i: nat)
    requires i < |es|
  {
    if i % 2 == 0 then es[i].Inserted? else es[i] == Removed(es[i - 1].id)
  }

  ghost predicate Alternating(es: seq<Effect>) {
    forall i: nat | i < |es| :: InTurn(es, i)
  }

  lemma AlternatingExtends(es: seq<Effect>, e: Effect)
    requires Alternating(es)
    requires if |es| % 2 == 0 then e.Inserted? else e == Removed(es[|es| - 1].id)
    ensures Alternating(es + [e])
  {
    var es' := es + [e];
    forall i: nat | i < |es'| ensures InTurn(es', i) {
      if i < |es| {
        assert InTurn(es, i);
      }
    }
  }

  /**
   Inserts and deletes on a workspace strictly alternate, each delete carries the id of the
   insert before it, and the row present at any time is the one inserted last.
   */
  lemma {:induction false} EffectsAlternate(db: Db, run: seq<Step>, w: string)
    requires Run(Start(db), run) && w !in db.locks
    ensures Alternating(EffectsOn(Start(db), run, w))
    ensures var es, locks := EffectsOn(Start(db), run, w), After(Start(db), run).db.locks;
            && (w in locks <==> |es| % 2 == 1)
            && (w in locks ==> locks[w].lockId == es[|es| - 1].id)
  {
    if run != [] {
      var front, step := run[..|run| - 1], run[|run| - 1];
      EffectsAlternate(db, front, w);
      var s, es := After(Start(db), front), EffectsOn(Start(db), front, w);
      RowStep(s, step, w);
      if Inserts(s, step, w) {
        var e := Inserted(step.req.op.row.value.lockId);
        assert EffectsOn(Start(db), run, w) == es + [e];
        AlternatingExtends(es, e);
      } else if Removes(s, step, w) {
        var e := Removed(step.req.op.lockId.value);
        assert EffectsOn(Start(db), run, w) == es + [e];
        AlternatingExtends(es, e);
      } else {
        assert EffectsOn(Start(db), run, w) == es;
      }
    }
  }

  // ----- mutual exclusion -----

  /** Only an UNLOCK with the holder's own id, taking effect, ends the holder's tenure. */
  lemma {:induction false} TenureEnds(s: Sys, run: seq<Step>, w: string) returns (k: nat)
    requires Run(s, run) && w in s.db.locks && Find(After(s, run).db.locks, w) != Some(s.db.locks[w])
    ensures k < |run| && Find(After(s, run[..k]).db.locks, w) == Some(s.db.locks[w])
    ensures Removes(After(s, run[..k]), run[k], w) && LockIdOf(run[k].req.op) == Some(s.db.locks[w].lockId)
  {
    var front := run[..|run| - 1];
    if Find(After(s, front).db.locks, w) != Some(s.db.locks[w]) {
      k := TenureEnds(s, front, w);
      assert front[..k] == run[..k];
    } else {
      k := |run| - 1;
      RowStep(After(s, front), run[k], w);
    }
  }

  /** The step at which a LOCK is told 200. */
  predicate GrantedAt(s: Sys, run: seq<Step>, r: Req, j: nat) {
    && j < |run| && run[j] == Exec(r, Acked) && r.op.Lock?
    && r in After(s, run[..j + 1]).reqs && After(s, run[..j + 1]).reqs[r] == Answered(200, NoBody)
  }

  /** An answer of 200 to a LOCK was given at such a step, and is still the answer. */
  lemma {:induction false} AnswerIsAGrant(db: Db, run: seq<Step>, r: Req) returns (j: nat)
    requires Run(Start(db), run) && r in After(Start(db), run).reqs && r.op.Lock?
    requires After(Start(db), run).reqs[r].Answered? && After(Start(db), run).reqs[r].status == 200
    ensures GrantedAt(Start(db), run, r, j)
  {
    var front, step := run[..|run| - 1], run[|run| - 1];
    if step.Exec? && step.req == r {
      j := |run| - 1;
      assert run[..j + 1] == run;
    } else {
      j := AnswerIsAGrant(db, front, r);
      assert front[..j + 1] == run[..j + 1];
    }
  }

  lemma GrantInserts(s: Sys, run: seq<Step>, r: Req, j: nat)
    requires Run(s, run) && GrantedAt(s, run, r, j)
    ensures Inserts(After(s, run[..j]), run[j], r.op.workspace)
    ensures r.op.row.Some? && Find(After(s, run[..j + 1]).db.locks, r.op.workspace) == r.op.row
  {
    PrefixRuns(s, run, j);
    RowStep(After(s, run[..j]), run[j], r.op.workspace);
  }

  /** A row that is gone at `m` was removed by its own id at some moment from `i` on. */
  lemma GoneIsRemoved(s: Sys, run: seq<Step>, w: string, i: nat, m: nat) returns (k: nat)
    requires Run(s, run) && i <= m <= |run| && w in After(s, run[..i]).db.locks
    requires Find(After(s, run[..m]).db.locks, w) != Some(After(s, run[..i]).db.locks[w])
    ensures i <= k < m && Removes(After(s, run[..k]), run[k], w)
    ensures LockIdOf(run[k].req.op) == Some(After(s, run[..i]).db.locks[w].lockId)
  {
    Between(s, run, i, m);
    var j := TenureEnds(After(s, run[..i]), run[i..m], w);
    k := i + j;
    Between(s, run, i, k);
    assert run[i..m][..j] == run[i..k] && run[i..m][j] == run[k];
  }

  /**
   A client whose LOCK was answered 200 owns the row from that statement on, until an UNLOCK
   with its id takes effect: at every later moment `m`, either the row is still there or such
   an UNLOCK has removed it in between.
   */
  lemma GrantHolds(s: Sys, run: seq<Step>, r: Req, j: nat, m: nat) returns (k: nat)
    requires Run(s, run) && GrantedAt(s, run, r, j) && j < m <= |run|
    ensures Find(After(s, run[..m]).db.locks, r.op.workspace) == r.op.row ||
            (j < k < m && Removes(After(s, run[..k]), run[k], r.op.workspace)
             && LockIdOf(run[k].req.op) == LockIdOf(r.op))
  {
    GrantInserts(s, run, r, j);
    k := 0;
    if Find(After(s, run[..m]).db.locks, r.op.workspace) != r.op.row {
      k := GoneIsRemoved(s, run, r.op.workspace, j + 1, m);
    }
  }

  /**
   Mutual exclusion: between two LOCKs of one workspace that were both told 200, an UNLOCK
   with the id of the first has taken effect.
   */
  lemma GrantsExclude(s: Sys, run: seq<Step>, r1: Req, j1: nat, r2: Req, j2: nat) returns (k: nat)
    requires Run(s, run) && j1 < j2 && GrantedAt(s, run, r1, j1) && GrantedAt(s, run, r2, j2)
    requires r1.op.workspace == r2.op.workspace
    ensures j1 < k < j2 && Removes(After(s, run[..k]), run[k], r1.op.workspace)
    ensures LockIdOf(run[k].req.op) == LockIdOf(r1.op)
  {
    GrantInserts(s, run, r1, j1);
    GrantInserts(s, run, r2, j2);
    k := GrantHolds(s, run, r1, j1, j2);
  }

  /**
   Stale UNLOCKs are harmless: whatever UNLOCKs with other ids run, in whatever number and
   however late, the holder's row stays as long as no UNLOCK carries its id.
   */
  lemma {:induction false} StaleUnlocksAreHarmless(s: Sys, run: seq<Step>, w: string)
    requires Run(s, run) && w in s.db.locks
    requires forall step | step in run && step.req.op.Unlock? && step.req.op.workspace == w ::
               LockIdOf(step.req.op) != Some(s.db.locks[w].lockId)
    ensures Find(After(s, run).db.locks, w) == Some(s.db.locks[w])
  {
    if run != [] {
      var front, step := run[..|run| - 1], run[|run| - 1];
      assert step in run && forall st | st in front :: st in run;
      StaleUnlocksAreHarmless(s, front, w);
      RowStep(After(s, front), step, w);
    }
  }
}
