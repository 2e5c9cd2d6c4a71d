/** What the state table holds and what a GET returns, with or without locks. */
module StateCoherence {
  import opened Database
  import opened Options
  import opened Protocol

  /** The step overwrites or deletes the state of `w`. A body that is not JSON is refused. */
  predicate Writes(step: Step, w: string) {
    TakesEffect(step) && step.req.op.workspace == w && !Malformed(step.req.op)
    && (step.req.op.Delete? || (step.req.op.Post? && step.req.op.body.value.document.Some?))
  }

  /** The row a write leaves: document and serial of one and the same body. */
  function RowOf(op: Op): Option<StateRow>
  {
    if op.Post? && op.body.Some? && op.body.value.document.Some?
    then Some(StateRow(op.body.value.document.value, op.body.value.serial)) else None
  }

  /** `k` is the last write to `w` in the run, or |run| if there is none. */
  ghost predicate LastWrite(run: seq<Step>, w: string, k: nat) {
    && k <= |run| && (k < |run| ==> Writes(run[k], w))
    && (forall i | 0 <= i < |run| && (k == |run| || k < i) :: !Writes(run[i], w))
  }

  lemma WriteStep(s: Sys, step: Step, w: string)
    requires Enabled(s, step)
    ensures Find(Apply(s, step).db.states, w) == if Writes(step, w) then RowOf(step.req.op) else Find(s.db.states, w)
  {
  }

  lemma LastWriteExtends(front: seq<Step>, step: Step, w: string, j: nat)
    requires LastWrite(front, w, j)
    ensures LastWrite(front + [step], w, if Writes(step, w) then |front| else if j == |front| then |front| + 1 else j)
  {
  }

  /** At any time the row of a workspace is the one its last effective write left. */
  lemma {:induction false} RowIsTheLastWrite(db: Db, run: seq<Step>, w: string) returns (k: nat)
    requires Run(Start(db), run)
    ensures LastWrite(run, w, k)
    ensures Find(After(Start(db), run).db.states, w) == if k == |run| then Find(db.states, w) else RowOf(run[k].req.op)
  {
    if run == [] {
      k := 0;
    } else {
      var front, step := run[..|run| - 1], run[|run| - 1];
      var j := RowIsTheLastWrite(db, front, w);
      WriteStep(After(Start(db), front), step, w);
      LastWriteExtends(front, step, w, j);
      assert run == front + [step];
      k := if Writes(step, w) then |run| - 1 else if j == |front| then |run| else j;
    }
  }

  lemma {:induction false} EffectiveRequestsArrived(db: Db, run: seq<Step>, k: nat)
    requires Run(Start(db), run) && k < |run| && TakesEffect(run[k])
    ensures run[k].req in After(Start(db), run).reqs
  {
    WellFormedAlways(db, run[..|run| - 1]);
    if k < |run| - 1 {
      EffectiveRequestsArrived(db, run[..|run| - 1], k);
    }
  }

  /**
   Coherence: under any interleaving of POST and DELETE, with any database errors, every
   stored row is the document and the serial of one body that some client submitted.
   */
  lemma StoredRowsAreCoherent(db: Db, run: seq<Step>, w: string) returns (r: Req)
    requires Run(Start(db), run) && w !in db.states && w in After(Start(db), run).db.states
    ensures r in After(Start(db), run).reqs && r.op.Post? && r.op.workspace == w && r.op.body.Some?
    ensures var row := After(Start(db), run).db.states[w];
            r.op.body.value.document == Some(row.document) && r.op.body.value.serial == row.serial
  {
    var k := RowIsTheLastWrite(db, run, w);
    r := run[k].req;
    EffectiveRequestsArrived(db, run, k);
  }

  lemma {:induction false} ReadAt(db: Db, run: seq<Step>, r: Req) returns (read: nat)
    requires Run(Start(db), run) && r in After(Start(db), run).reqs && r.op.Get?
    requires After(Start(db), run).reqs[r].Answered? && After(Start(db), run).reqs[r].status in {200, 404}
    ensures read < |run| && run[read] == Exec(r, Acked)
    ensures var found := Find(After(Start(db), run[..read]).db.states, r.op.workspace);
            After(Start(db), run).reqs[r] ==
              if found.Some? then Answered(200, Content(found.value.document)) else Answered(404, NoBody)
  {
    var front, step := run[..|run| - 1], run[|run| - 1];
    WellFormedAlways(db, front);
    if step.Exec? && step.req == r {
      read := |run| - 1;
    } else {
      read := ReadAt(db, front, r);
      assert front[..read] == run[..read];
    }
  }

  /**
   A GET answered 200 returns, up to JSON equality, the document of the last POST to take
   effect before it read, with no write in between; one answered 404 found the workspace
   never written or last deleted.
   */
  lemma GetReturnsTheLastPost(db: Db, run: seq<Step>, r: Req) returns (k: nat, read: nat)
    requires Run(Start(db), run) && r in After(Start(db), run).reqs && r.op.Get?
    requires After(Start(db), run).reqs[r].Answered? && After(Start(db), run).reqs[r].status in {200, 404}
    requires r.op.workspace !in db.states
    ensures read < |run| && run[read] == Exec(r, Acked) && LastWrite(run[..read], r.op.workspace, k)
    ensures After(Start(db), run).reqs[r].status == 200 ==>
              k < read && run[k].req.op.Post? && run[k].req.op.body.Some?
              && run[k].req.op.body.value.document.Some?
              && After(Start(db), run).reqs[r].reply == Content(run[k].req.op.body.value.document.value)
    ensures After(Start(db), run).reqs[r].status == 404 ==> k == read || run[k].req.op.Delete?
  {
    read := ReadAt(db, run, r);
    PrefixRuns(Start(db), run, read);
    k := RowIsTheLastWrite(db, run[..read], r.op.workspace);
  }
}
