/**
 The handlers of /state/{workspace} as interleaved requests. A request executes one
 statement; LOCK and UNLOCK that changed no row go on to read the current lock in a second
 one. Between any two statements of a request, statements of any other may run.
 */
module Protocol {
  import opened Database
  import opened Options

  /**
   What a request asks for. A LOCK or UNLOCK body that cannot be read or is not lock JSON, and
   a POST body that cannot be read, arrive as None.
   */
  datatype Op =
    | Lock(workspace: string, row: Option<LockRow>)
    | Unlock(workspace: string, lockId: Option<string>)
    | Get(workspace: string)
    | Post(workspace: string, body: Option<Body>)
    | Delete(workspace: string)

  /** A request: who sent it, its number, and what it asks for. Two requests may ask for the same. */
  datatype Req = Req(client: string, num: nat, op: Op)

  datatype Reply = NoBody | Text | Holder(row: LockRow) | LockNotFound | Content(document: Document)

  datatype Phase =
    | Received
    | Missed  // the first statement changed no row; the current lock has yet to be read
    | Answered(status: nat, reply: Reply)

  datatype Sys = Sys(db: Db, reqs: map<Req, Phase>, late: set<Req>, conflicts: nat)

  datatype Step =
    | Arrive(req: Req)
    | Exec(req: Req, fate: Fate)      // the first statement
    | ReadBack(req: Req, fate: Fate)  // the second statement of a LOCK or UNLOCK
    | Land(req: Req)                  // a statement reported as failed takes effect after all

  function Start(db: Db): Sys {
    Sys(db, map[], {}, 0)
  }

  predicate Malformed(op: Op) {
    op.workspace == "" ||
    match op
    case Lock(_, row) => row.None?
    case Unlock(_, lockId) => lockId.None?
    case Post(_, body) => body.None?
    case Get(_) => false
    case Delete(_) => false
  }

  function FirstStatement(op: Op): Statement
    requires !Malformed(op)
  {
    match op
    case Lock(ws, row) => InsertLock(ws, row.value)
    case Unlock(ws, lockId) => DeleteLock(ws, lockId.value)
    case Get(ws) => SelectState(ws)
    case Post(ws, body) => UpsertState(ws, body.value.document, body.value.serial)
    case Delete(ws) => DeleteState(ws)
  }

  /** What the handler does with the answer to its first statement. */
  function AfterFirst(op: Op, result: Result): Phase {
    if result.SqlError? then Answered(500, Text) else
    match op
    case Lock(_, _) => if result == RowsAffected(1) then Answered(200, NoBody) else Missed
    case Unlock(_, _) => if result == RowsAffected(1) then Answered(200, NoBody) else Missed
    case Get(_) =>
      if result.StateFound? && result.state.Some? then Answered(200, Content(result.state.value.document))
      else Answered(404, NoBody)
    case Post(_, _) => Answered(200, NoBody)
    case Delete(_) => Answered(200, NoBody)
  }

  /** The conflict answer: the status is fixed, the read only fills in the body. */
  function AfterRead(op: Op, result: Result): Phase {
    var status := if op.Lock? then 423 else 409;
    if !result.LockFound? then Answered(status, Text)
    else if result.lock.Some? then Answered(status, Holder(result.lock.value))
    else Answered(status, if op.Lock? then NoBody else LockNotFound)
  }

  predicate Enabled(s: Sys, step: Step) {
    match step
    case Arrive(r) => r !in s.reqs
    case Exec(r, _) => r in s.reqs && s.reqs[r].Received? && !Malformed(r.op)
    case ReadBack(r, _) => r in s.reqs && s.reqs[r].Missed?
    case Land(r) => r in s.late && !Malformed(r.op)
  }

  function Apply(s: Sys, step: Step): Sys
    requires Enabled(s, step)
  {
    match step
    case Arrive(r) => s.(reqs := s.reqs[r := if Malformed(r.op) then Answered(400, Text) else Received])
    case Exec(r, fate) =>
      var (db, result) := Issue(s.db, FirstStatement(r.op), fate);
      var phase := AfterFirst(r.op, result);
      Sys(db, s.reqs[r := phase], if fate.Late? then s.late + {r} else s.late,
          if r.op.Lock? && phase.Missed? then s.conflicts + 1 else s.conflicts)
    case ReadBack(r, fate) =>
      var (db, result) := Issue(s.db, SelectLock(r.op.workspace), fate);
      s.(db := db, reqs := s.reqs[r := AfterRead(r.op, result)])
    case Land(r) => s.(db := Execute(s.db, FirstStatement(r.op)).0, late := s.late - {r})
  }

  function After(s: Sys, run: seq<Step>): Sys {
    if run == [] then s else
    var t, step := After(s, run[..|run| - 1]), run[|run| - 1];
    if Enabled(t, step) then Apply(t, step) else t
  }

  predicate Run(s: Sys, run: seq<Step>) {
    run == [] ||
    (Run(s, run[..|run| - 1]) && Enabled(After(s, run[..|run| - 1]), run[|run| - 1]))
  }

  /** The row a LOCK or UNLOCK with this id holds or would remove. */
  function LockIdOf(op: Op): Option<string> {
    match op
    case Lock(_, row) => if row.Some? then Some(row.value.lockId) else None
    case Unlock(_, lockId) => lockId
    case _ => None
  }

  /** The step at which a request's first statement reaches the tables. */
  predicate TakesEffect(step: Step) {
    match step
    case Exec(_, fate) => fate.Acked? || fate.Lost?
    case Land(_) => true
    case _ => false
  }

  // ----- runs -----

  lemma {:induction false} PrefixRuns(s: Sys, run: seq<Step>, k: nat)
    requires Run(s, run) && k <= |run|
    ensures Run(s, run[..k])
    ensures k < |run| ==>
              Enabled(After(s, run[..k]), run[k]) && After(s, run[..k + 1]) == Apply(After(s, run[..k]), run[k])
  {
    if k == |run| {
      assert run[..k] == run;
    } else if k == |run| - 1 {
      assert run[..k + 1] == run;
    } else {
      var front := run[..|run| - 1];
      PrefixRuns(s, front, k);
      assert front[..k] == run[..k] && front[..k + 1] == run[..k + 1];
    }
  }

  /** The facts about requests that every step keeps. */
  ghost predicate WellFormed(s: Sys) {
    && (forall r | r in s.reqs && (s.reqs[r].Received? || s.reqs[r].Missed?) :: !Malformed(r.op))
    && (forall r | r in s.reqs && s.reqs[r].Missed? :: r.op.Lock? || r.op.Unlock?)
    && (forall r | r in s.late :: r in s.reqs && !Malformed(r.op) && s.reqs[r] == Answered(500, Text))
  }

  lemma {:induction false} WellFormedAlways(db: Db, run: seq<Step>)
    requires Run(Start(db), run)
    ensures WellFormed(After(Start(db), run))
  {
    if run != [] {
      WellFormedAlways(db, run[..|run| - 1]);
    }
  }

  /** Once a request has left a phase it never comes back; an answer is final. */
  lemma {:induction false} PhasesAdvance(s: Sys, run: seq<Step>, r: Req)
    requires Run(s, run) && r in s.reqs
    ensures r in After(s, run).reqs
    ensures !s.reqs[r].Received? ==> !After(s, run).reqs[r].Received?
    ensures s.reqs[r].Answered? ==> After(s, run).reqs[r] == s.reqs[r]
  {
    if run != [] {
      PhasesAdvance(s, run[..|run| - 1], r);
    }
  }

  /** A run in two parts. */
  lemma {:induction false} Split(s: Sys, first: seq<Step>, rest: seq<Step>)
    requires Run(s, first + rest)
    ensures Run(s, first) && Run(After(s, first), rest)
    ensures After(After(s, first), rest) == After(s, first + rest)
  {
    if rest == [] {
      assert first + rest == first;
    } else {
      assert (first + rest)[..|first + rest| - 1] == first + rest[..|rest| - 1];
      Split(s, first, rest[..|rest| - 1]);
    }
  }

  /** The stretch of a run between two moments is a run from the first to the second. */
  lemma Between(s: Sys, run: seq<Step>, i: nat, j: nat)
    requires Run(s, run) && i <= j <= |run|
    ensures Run(s, run[..i]) && Run(s, run[..j]) && Run(After(s, run[..i]), run[i..j])
    ensures After(After(s, run[..i]), run[i..j]) == After(s, run[..j])
  {
    PrefixRuns(s, run, j);
    assert run[..i] + run[i..j] == run[..j];
    Split(s, run[..i], run[i..j]);
  }
}
