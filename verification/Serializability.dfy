/**
 Serializability under the lock. Clients of a workspace lock it, read the state, write what
 their update function makes of it, and unlock - the order Terraform follows. POST never looks
 at the lock, yet the state is that of the updates applied one at a time, in LOCK order.
 */
module Serializability {
  import opened Database
  import opened Options
  import opened Protocol
  import opened LockOwnership
  import opened StateCoherence

  /** What a client writes under this number, given the state it read; None if there was none. */
  type Update = (string, nat, Option<Document>) -> Body

  /** After which answers to a POST a client goes on, to the next POST or to UNLOCK. */
  type Rule = nat -> bool

  predicate For(r: Req, w: string) {
    r.op.workspace == w && !Malformed(r.op)
  }

  predicate Uses(r: Req, w: string) {
    For(r, w) && (r.op.Get? || r.op.Post?)
  }

  predicate TurnedAway(phase: Phase) {
    phase.Answered? && phase.status == 423
  }

  /** The client's LOCK was answered 200. */
  ghost predicate Granted(s: Sys, w: string, client: string) {
    exists l :: l in s.reqs && For(l, w) && l.op.Lock? && l.client == client && s.reqs[l] == Answered(200, NoBody)
  }

  /** The client has sent its UNLOCK. */
  ghost predicate Closed(s: Sys, w: string, client: string) {
    exists u :: u in s.reqs && For(u, w) && u.op.Unlock? && u.client == client
  }

  /** The state a GET reported, once answered. */
  function Seen(phase: Phase): Option<Option<Document>> {
    if phase.Answered? && phase.status == 200 && phase.reply.Content? then Some(Some(phase.reply.document))
    else if phase.Answered? && phase.status == 404 then Some(None)
    else None
  }

  /** The client read the workspace and found `view`. */
  ghost predicate Read(s: Sys, w: string, client: string, view: Option<Document>) {
    exists g :: g in s.reqs && For(g, w) && g.op.Get? && g.client == client && Seen(s.reqs[g]) == Some(view)
  }

  /** The client waits for no GET or POST, and `may` lets it go on after each POST. */
  ghost predicate Ready(s: Sys, w: string, client: string, may: Rule) {
    forall q | q in s.reqs && Uses(q, w) && q.client == client ::
      s.reqs[q].Answered? && (q.op.Post? ==> may(s.reqs[q].status))
  }

  /**
   The client's side of the protocol, at the moment it sends a request: its own id in its
   LOCK, repeated only while refused; any GETs after that LOCK's 200; then POSTs one after
   the other, numbered upwards, of what it makes of the state it read; then UNLOCK, and
   nothing after. Requests may fail and be given up.
   */
  ghost predicate Follows(s: Sys, r: Req, w: string, f: Update, may: Rule) {
    For(r, w) ==>
      match r.op
      case Lock(_, row) =>
        && row.value.lockId == r.client
        && (forall q | q in s.reqs && For(q, w) && q.client == r.client && q.op.Lock? :: TurnedAway(s.reqs[q]))
      case Get(_) =>
        && Granted(s, w, r.client) && !Closed(s, w, r.client)
        && (forall q | q in s.reqs && For(q, w) && q.client == r.client :: !q.op.Post?)
      case Post(_, body) =>
        && !Closed(s, w, r.client) && Ready(s, w, r.client, may)
        && (forall q | q in s.reqs && For(q, w) && q.client == r.client && q.op.Post? :: q.num < r.num)
        && exists view :: Read(s, w, r.client, view) && body == Some(f(r.client, r.num, view))
      case Unlock(_, id) =>
        id == Some(r.client) && Granted(s, w, r.client) && Ready(s, w, r.client, may)
      case Delete(_) => false
  }

  /** Every client of `w` follows the protocol. */
  ghost predicate Disciplined(db: Db, run: seq<Step>, w: string, f: Update, may: Rule) {
    run == [] ||
    var front, step := run[..|run| - 1], run[|run| - 1];
    Disciplined(db, front, w, f, may) && (step.Arrive? ==> Follows(After(Start(db), front), step.req, w, f, may))
  }

  /** No POST to `w` takes effect after the client was told that it failed. */
  ghost predicate NoPostLands(run: seq<Step>, w: string) {
    forall step | step in run && step.Land? && step.req.op.Post? :: step.req.op.workspace != w
  }

  // ----- the serial execution -----

  /** The clients that got the lock of `w`, in that order, whether or not they were told. */
  function LockOrder(s: Sys, run: seq<Step>, w: string): seq<string> {
    if run == [] then [] else
    var front, step := run[..|run| - 1], run[|run| - 1];
    LockOrder(s, front, w) + if Inserts(After(s, front), step, w) then [step.req.client] else []
  }

  /** The clients whose POST took effect, whether or not they were told, and the number of the last one. */
  function Posted(run: seq<Step>, w: string): map<string, nat> {
    if run == [] then map[] else
    var step := run[|run| - 1];
    if Writes(step, w) && step.req.op.Post? then Posted(run[..|run| - 1], w)[step.req.client := step.req.num]
    else Posted(run[..|run| - 1], w)
  }

  /** The last writes of the clients in `posted`, applied one client at a time in this order. */
  function Serial(f: Update, start: Option<Document>, order: seq<string>, posted: map<string, nat>): Option<Document> {
    if order == [] then start else
    var before, client := Serial(f, start, order[..|order| - 1], posted), order[|order| - 1];
    if client in posted then f(client, posted[client], before).document else before
  }

  /** What the client last in the order found when it got the lock. */
  function Found(f: Update, start: Option<Document>, order: seq<string>, posted: map<string, nat>): Option<Document> {
    if order == [] then start else Serial(f, start, order[..|order| - 1], posted)
  }

  function Doc(db: Db, w: string): Option<Document> {
    if w in db.states then Some(db.states[w].document) else None
  }

  lemma {:induction false} SerialIgnoresStrangers(f: Update, start: Option<Document>, order: seq<string>,
                                                  posted: map<string, nat>, client: string, num: nat)
    requires client !in order
    ensures Serial(f, start, order, posted[client := num]) == Serial(f, start, order, posted)
  {
    if order != [] {
      SerialIgnoresStrangers(f, start, order[..|order| - 1], posted, client, num);
    }
  }

  // ----- the invariant -----

  /** A request that keeps its client from unlocking: unanswered, or a POST that may yet land. */
  predicate Pending(s: Sys, r: Req, may: Rule) {
    r in s.reqs && (!s.reqs[r].Answered? || (r.op.Post? && r in s.late && !may(500)))
  }

  ghost predicate LocksOnce(s: Sys, w: string) {
    forall q, r | q in s.reqs && r in s.reqs && For(q, w) && For(r, w) && q.client == r.client
                  && q.op.Lock? && r.op.Lock? && q != r :: TurnedAway(s.reqs[q]) || TurnedAway(s.reqs[r])
  }

  /** A pending POST is the last of its client. */
  ghost predicate PostsInTurn(s: Sys, w: string, may: Rule) {
    forall p, q | Pending(s, p, may) && q in s.reqs && For(p, w) && For(q, w) && p.client == q.client
                  && p.op.Post? && q.op.Post? && p != q :: q.num < p.num
  }

  ghost predicate ReadsBeforeWrites(s: Sys, w: string) {
    forall g, p | g in s.reqs && p in s.reqs && For(g, w) && For(p, w) && g.client == p.client
                  && g.op.Get? && p.op.Post? :: s.reqs[g].Answered?
  }

  ghost predicate OwnIds(s: Sys, w: string) {
    forall r | r in s.reqs && For(r, w) ::
      !r.op.Delete? && ((r.op.Lock? || r.op.Unlock?) ==> LockIdOf(r.op) == Some(r.client))
  }

  /** A client repeats a LOCK that was refused, waits for its GETs, and for each POST before the next. */
  ghost predicate OneAtATime(s: Sys, w: string, may: Rule) {
    LocksOnce(s, w) && PostsInTurn(s, w, may) && ReadsBeforeWrites(s, w) && OwnIds(s, w)
  }

  /** Every use is by a client that was granted the lock; an open grant is the row in the table. */
  ghost predicate Sessions(s: Sys, w: string, may: Rule) {
    && (forall r | r in s.reqs && For(r, w) && !r.op.Lock? :: Granted(s, w, r.client))
    && (forall r | Pending(s, r, may) && Uses(r, w) :: !Closed(s, w, r.client))
    && (forall client | Granted(s, w, client) && !Closed(s, w, client) ::
          w in s.db.locks && s.db.locks[w].lockId == client)
  }

  /** A LOCK of the client has had its chance to insert, and was not refused. */
  ghost predicate LockDone(s: Sys, w: string, client: string) {
    exists l :: l in s.reqs && For(l, w) && l.op.Lock? && l.client == client
                && s.reqs[l].Answered? && !TurnedAway(s.reqs[l]) && l !in s.late
  }

  ghost predicate PostDone(s: Sys, w: string, client: string, num: nat) {
    exists p :: p in s.reqs && For(p, w) && p.op.Post? && p.client == client && p.num == num
                && s.reqs[p].Answered? && p !in s.late
  }

  ghost predicate NoRepeats(order: seq<string>) {
    forall i, j | 0 <= i < j < |order| :: order[i] != order[j]
  }

  ghost predicate History(s: Sys, w: string, order: seq<string>, posted: map<string, nat>) {
    && NoRepeats(order)
    && (forall client | client in posted :: client in order && PostDone(s, w, client, posted[client]))
    && (forall client | client in order :: LockDone(s, w, client))
    && (w in s.db.locks ==> order != [] && s.db.locks[w].lockId == order[|order| - 1])
  }

  /** What an open session has read, and what it is about to write, is about the state it found. */
  ghost predicate ViewsCurrent(s: Sys, w: string, found: Option<Document>, f: Update, may: Rule) {
    && (forall p | Pending(s, p, may) && For(p, w) && p.op.Post? :: p.op.body == Some(f(p.client, p.num, found)))
    && (forall client, view | Read(s, w, client, view) && !Closed(s, w, client) :: view == found)
  }

  ghost predicate Inv(s: Sys, w: string, order: seq<string>, posted: map<string, nat>, f: Update, may: Rule,
                      start: Option<Document>) {
    && WellFormed(s) && OneAtATime(s, w, may) && Sessions(s, w, may) && History(s, w, order, posted)
    && ViewsCurrent(s, w, Found(f, start, order, posted), f, may)
    && Doc(s.db, w) == Serial(f, start, order, posted)
  }

  /** A client that goes on after a 500 relies on that POST never landing. */
  predicate Safe(step: Step, w: string, may: Rule) {
    Writes(step, w) && step.Land? && step.req.op.Post? ==> !may(500)
  }

  /** What may happen next while the invariant holds. */
  ghost predicate Allowed(s: Sys, step: Step, w: string, f: Update, may: Rule) {
    && Enabled(s, step) && WellFormed(Apply(s, step)) && Safe(step, w, may)
    && (step.Arrive? ==> Follows(s, step.req, w, f, may))
  }

  // ----- what a step does to the sessions -----

  /** Grants, closings, reads and finished requests are never taken back. */
  lemma SessionFactsStay(s: Sys, step: Step, w: string, client: string)
    requires WellFormed(s) && Enabled(s, step)
    ensures Granted(s, w, client) ==> Granted(Apply(s, step), w, client)
    ensures Closed(s, w, client) ==> Closed(Apply(s, step), w, client)
    ensures LockDone(s, w, client) ==> LockDone(Apply(s, step), w, client)
    ensures forall num | PostDone(s, w, client, num) :: PostDone(Apply(s, step), w, client, num)
  {
    var s' := Apply(s, step);
    if Granted(s, w, client) {
      var l :| l in s.reqs && For(l, w) && l.op.Lock? && l.client == client && s.reqs[l] == Answered(200, NoBody);
      assert s'.reqs[l] == s.reqs[l];
    }
    if Closed(s, w, client) {
      var u :| u in s.reqs && For(u, w) && u.op.Unlock? && u.client == client;
      assert u in s'.reqs;
    }
    if LockDone(s, w, client) {
      var l :| l in s.reqs && For(l, w) && l.op.Lock? && l.client == client
               && s.reqs[l].Answered? && !TurnedAway(s.reqs[l]) && l !in s.late;
      assert s'.reqs[l] == s.reqs[l] && l !in s'.late;
    }
    forall num | PostDone(s, w, client, num) ensures PostDone(s', w, client, num) {
      var p :| p in s.reqs && For(p, w) && p.op.Post? && p.client == client && p.num == num
               && s.reqs[p].Answered? && p !in s.late;
      assert s'.reqs[p] == s.reqs[p] && p !in s'.late;
    }
  }

  lemma NewGrant(s: Sys, step: Step, w: string, client: string)
    requires WellFormed(s) && Enabled(s, step) && Granted(Apply(s, step), w, client) && !Granted(s, w, client)
    ensures step.Exec? && step.req.op.Lock? && step.req.client == client && Inserts(s, step, w)
  {
    var s' := Apply(s, step);
    var l :| l in s'.reqs && For(l, w) && l.op.Lock? && l.client == client && s'.reqs[l] == Answered(200, NoBody);
    assert l == step.req;
  }

  lemma NewClosing(s: Sys, step: Step, w: string, client: string)
    requires Enabled(s, step) && Closed(Apply(s, step), w, client) && !Closed(s, w, client)
    ensures step.Arrive? && For(step.req, w) && step.req.op.Unlock? && step.req.client == client
  {
    var s' := Apply(s, step);
    var u :| u in s'.reqs && For(u, w) && u.op.Unlock? && u.client == client;
    assert u == step.req;
  }

  /** A GET reports the state of the moment. */
  lemma NewRead(s: Sys, step: Step, w: string, client: string, view: Option<Document>)
    requires WellFormed(s) && Enabled(s, step) && Read(Apply(s, step), w, client, view) && !Read(s, w, client, view)
    ensures step.Exec? && step.req.op.Get? && step.req.client == client && view == Doc(s.db, w)
    ensures Doc(Apply(s, step).db, w) == Doc(s.db, w)
  {
    var s' := Apply(s, step);
    var g :| g in s'.reqs && For(g, w) && g.op.Get? && g.client == client && Seen(s'.reqs[g]) == Some(view);
    assert g == step.req;
  }

  /** A request becomes pending by arriving, and only then. */
  lemma NewPending(s: Sys, step: Step, r: Req, may: Rule)
    requires WellFormed(s) && Enabled(s, step) && Pending(Apply(s, step), r, may)
    ensures if r in s.reqs then Pending(s, r, may) else step == Arrive(r)
  {
  }

  /** The document of `w` changes only by an effective write. */
  lemma DocStep(s: Sys, step: Step, w: string)
    requires WellFormed(s) && Enabled(s, step)
    ensures Doc(Apply(s, step).db, w) ==
              if !Writes(step, w) then Doc(s.db, w)
              else if step.req.op.Post? then step.req.op.body.value.document else None
  {
  }

  lemma LocksOnceStep(s: Sys, step: Step, w: string, f: Update, may: Rule)
    requires WellFormed(s) && LocksOnce(s, w) && Enabled(s, step)
    requires step.Arrive? ==> Follows(s, step.req, w, f, may)
    ensures LocksOnce(Apply(s, step), w)
  {
  }

  lemma PostsInTurnStep(s: Sys, step: Step, w: string, f: Update, may: Rule)
    requires WellFormed(s) && PostsInTurn(s, w, may) && Enabled(s, step)
    requires step.Arrive? ==> Follows(s, step.req, w, f, may)
    ensures PostsInTurn(Apply(s, step), w, may)
  {
    var s' := Apply(s, step);
    forall p, q | Pending(s', p, may) && q in s'.reqs && For(p, w) && For(q, w) && p.client == q.client
                  && p.op.Post? && q.op.Post? && p != q ensures q.num < p.num
    {
      NewPending(s, step, p, may);
    }
  }

  lemma ReadsBeforeWritesStep(s: Sys, step: Step, w: string, f: Update, may: Rule)
    requires WellFormed(s) && ReadsBeforeWrites(s, w) && Enabled(s, step)
    requires step.Arrive? ==> Follows(s, step.req, w, f, may)
    ensures ReadsBeforeWrites(Apply(s, step), w)
  {
  }

  lemma OwnIdsStep(s: Sys, step: Step, w: string, f: Update, may: Rule)
    requires OwnIds(s, w) && Enabled(s, step) && (step.Arrive? ==> Follows(s, step.req, w, f, may))
    ensures OwnIds(Apply(s, step), w)
  {
  }

  lemma OneAtATimeStep(s: Sys, step: Step, w: string, f: Update, may: Rule)
    requires WellFormed(s) && OneAtATime(s, w, may) && Enabled(s, step)
    requires step.Arrive? ==> Follows(s, step.req, w, f, may)
    ensures OneAtATime(Apply(s, step), w, may)
  {
    LocksOnceStep(s, step, w, f, may);
    PostsInTurnStep(s, step, w, f, may);
    ReadsBeforeWritesStep(s, step, w, f, may);
    OwnIdsStep(s, step, w, f, may);
  }

  /** The requests whose statement may still reach the tables. */
  lemma EffectiveIsUnanswered(s: Sys, step: Step)
    requires WellFormed(s) && Enabled(s, step) && TakesEffect(step)
    ensures step.req in s.reqs && !Malformed(step.req.op)
    ensures s.reqs[step.req].Received? || (step.Land? && step.req in s.late)
  {
  }

  lemma SessionsStep(s: Sys, step: Step, w: string, f: Update, may: Rule)
    requires WellFormed(s) && OneAtATime(s, w, may) && Sessions(s, w, may)
    requires Enabled(s, step) && (step.Arrive? ==> Follows(s, step.req, w, f, may))
    ensures Sessions(Apply(s, step), w, may)
  {
    var s' := Apply(s, step);
    forall r | r in s'.reqs && For(r, w) && !r.op.Lock? ensures Granted(s', w, r.client) {
      GrantedAtArrival(s, step, w, f, may, r);
      SessionFactsStay(s, step, w, r.client);
    }
    forall r | Pending(s', r, may) && Uses(r, w) ensures !Closed(s', w, r.client) {
      PendingKeepsOpen(s, step, w, f, may, r);
    }
    forall client | Granted(s', w, client) && !Closed(s', w, client)
      ensures w in s'.db.locks && s'.db.locks[w].lockId == client
    {
      OpenGrantHolds(s, step, w, may, client);
    }
  }

  lemma GrantedAtArrival(s: Sys, step: Step, w: string, f: Update, may: Rule, r: Req)
    requires Sessions(s, w, may) && Enabled(s, step) && (step.Arrive? ==> Follows(s, step.req, w, f, may))
    requires r in Apply(s, step).reqs && For(r, w) && !r.op.Lock?
    ensures Granted(s, w, r.client)
  {
    if r !in s.reqs && r.op.Post? {
      var view :| Read(s, w, r.client, view) && r.op.body == Some(f(r.client, r.num, view));
      var g :| g in s.reqs && For(g, w) && g.op.Get? && g.client == r.client && Seen(s.reqs[g]) == Some(view);
    }
  }

  /** A client that is still waiting, or whose failed POST may land, does not unlock. */
  lemma PendingKeepsOpen(s: Sys, step: Step, w: string, f: Update, may: Rule, r: Req)
    requires WellFormed(s) && Sessions(s, w, may) && Enabled(s, step)
    requires step.Arrive? ==> Follows(s, step.req, w, f, may)
    requires Pending(Apply(s, step), r, may) && Uses(r, w)
    ensures !Closed(Apply(s, step), w, r.client)
  {
    NewPending(s, step, r, may);
    if Closed(Apply(s, step), w, r.client) && !Closed(s, w, r.client) {
      NewClosing(s, step, w, r.client);
      assert false;
    }
  }

  /** An open session's row is removed by nobody: only its own UNLOCK could, and it sent none. */
  lemma OpenGrantHolds(s: Sys, step: Step, w: string, may: Rule, client: string)
    requires WellFormed(s) && OneAtATime(s, w, may) && Sessions(s, w, may) && Enabled(s, step)
    requires Granted(Apply(s, step), w, client) && !Closed(Apply(s, step), w, client)
    ensures w in Apply(s, step).db.locks && Apply(s, step).db.locks[w].lockId == client
  {
    RowStep(s, step, w);
    SessionFactsStay(s, step, w, client);
    if !Granted(s, w, client) {
      NewGrant(s, step, w, client);
    } else if Removes(s, step, w) {
      EffectiveIsUnanswered(s, step);
      assert false;
    }
  }

  // ----- the history -----

  function OrderStep(s: Sys, step: Step, w: string, order: seq<string>): seq<string> {
    order + if Inserts(s, step, w) then [step.req.client] else []
  }

  function PostedStep(step: Step, w: string, posted: map<string, nat>): map<string, nat> {
    if Writes(step, w) && step.req.op.Post? then posted[step.req.client := step.req.num] else posted
  }

  /** A client enters the lock order once. */
  lemma InsertsOnce(s: Sys, step: Step, w: string, order: seq<string>, posted: map<string, nat>, may: Rule)
    requires WellFormed(s) && OneAtATime(s, w, may) && History(s, w, order, posted) && Enabled(s, step)
    requires Inserts(s, step, w)
    ensures step.req.client !in order && step.req.client !in posted
  {
    EffectiveIsUnanswered(s, step);
    if step.req.client in order {
      assert false;
    }
  }

  /**
   Whoever writes is the client last in the lock order, and it writes its update of the state
   it found, under a higher number than before, be it at once or late.
   */
  lemma WriterHoldsTheLock(s: Sys, step: Step, w: string, order: seq<string>, posted: map<string, nat>, f: Update,
                           may: Rule, start: Option<Document>)
    requires Inv(s, w, order, posted, f, may, start) && Enabled(s, step) && Writes(step, w) && Safe(step, w, may)
    ensures step.req in s.reqs && step.req.op.Post?
    ensures w in s.db.locks && s.db.locks[w].lockId == step.req.client
    ensures order != [] && order[|order| - 1] == step.req.client
    ensures step.req.client in posted ==> posted[step.req.client] < step.req.num
    ensures step.req.op.body == Some(f(step.req.client, step.req.num, Found(f, start, order, posted)))
  {
    EffectiveIsUnanswered(s, step);
    assert Pending(s, step.req, may);
  }

  lemma OrderDone(s: Sys, step: Step, w: string, order: seq<string>, client: string)
    requires WellFormed(s) && Enabled(s, step) && (client in order ==> LockDone(s, w, client))
    requires client in OrderStep(s, step, w, order)
    ensures LockDone(Apply(s, step), w, client)
  {
    if client in order {
      SessionFactsStay(s, step, w, client);
    } else {
      EffectiveIsUnanswered(s, step);
      var s', l := Apply(s, step), step.req;
      assert l in s'.reqs && s'.reqs[l].Answered? && !TurnedAway(s'.reqs[l]) && l !in s'.late;
    }
  }

  lemma PostedDone(s: Sys, step: Step, w: string, posted: map<string, nat>, client: string)
    requires WellFormed(s) && Enabled(s, step)
    requires client in posted ==> PostDone(s, w, client, posted[client])
    requires client in PostedStep(step, w, posted)
    ensures PostDone(Apply(s, step), w, client, PostedStep(step, w, posted)[client])
  {
    if Writes(step, w) && step.req.op.Post? && step.req.client == client {
      EffectiveIsUnanswered(s, step);
      var s', p := Apply(s, step), step.req;
      assert p in s'.reqs && s'.reqs[p].Answered? && p !in s'.late;
    } else {
      SessionFactsStay(s, step, w, client);
    }
  }

  lemma OrderGrows(s: Sys, step: Step, w: string, order: seq<string>, posted: map<string, nat>, may: Rule)
    requires WellFormed(s) && OneAtATime(s, w, may) && History(s, w, order, posted) && Enabled(s, step)
    ensures var locks, order' := Apply(s, step).db.locks, OrderStep(s, step, w, order);
            && NoRepeats(order') && (forall client | client in order :: client in order')
            && (w in locks ==> order' != [] && locks[w].lockId == order'[|order'| - 1])
  {
    RowStep(s, step, w);
    if Inserts(s, step, w) {
      InsertsOnce(s, step, w, order, posted, may);
      EffectiveIsUnanswered(s, step);
    }
  }

  lemma WriterInOrder(s: Sys, step: Step, w: string, order: seq<string>, posted: map<string, nat>, f: Update,
                      may: Rule, start: Option<Document>)
    requires Inv(s, w, order, posted, f, may, start) && Enabled(s, step) && Safe(step, w, may)
    ensures forall client | client in PostedStep(step, w, posted) :: client in order
  {
    if Writes(step, w) {
      WriterHoldsTheLock(s, step, w, order, posted, f, may, start);
    }
  }

  lemma HistoryStep(s: Sys, step: Step, w: string, order: seq<string>, posted: map<string, nat>, f: Update, may: Rule,
                    start: Option<Document>)
    requires Inv(s, w, order, posted, f, may, start) && Enabled(s, step) && Safe(step, w, may)
    ensures History(Apply(s, step), w, OrderStep(s, step, w, order), PostedStep(step, w, posted))
  {
    var s', order', posted' := Apply(s, step), OrderStep(s, step, w, order), PostedStep(step, w, posted);
    OrderGrows(s, step, w, order, posted, may);
    WriterInOrder(s, step, w, order, posted, f, may, start);
    forall client | client in order' ensures LockDone(s', w, client) {
      OrderDone(s, step, w, order, client);
    }
    forall client | client in posted' ensures PostDone(s', w, client, posted'[client]) {
      PostedDone(s, step, w, posted, client);
    }
  }

  /** What a client found is not changed by what it writes itself. */
  lemma FoundStays(s: Sys, step: Step, w: string, order: seq<string>, posted: map<string, nat>, f: Update, may: Rule,
                   start: Option<Document>)
    requires Inv(s, w, order, posted, f, may, start) && Enabled(s, step) && Safe(step, w, may) && !Inserts(s, step, w)
    ensures OrderStep(s, step, w, order) == order
    ensures Found(f, start, order, PostedStep(step, w, posted)) == Found(f, start, order, posted)
  {
    if Writes(step, w) {
      WriterHoldsTheLock(s, step, w, order, posted, f, may, start);
      var client, before := step.req.client, order[..|order| - 1];
      assert client !in before;
      SerialIgnoresStrangers(f, start, before, posted, client, step.req.num);
    }
  }

  /** The client last in the order, having written, leaves its update of what it found. */
  lemma SerialEndsWith(f: Update, start: Option<Document>, order: seq<string>, posted: map<string, nat>)
    requires order != []
    ensures var client, found := order[|order| - 1], Found(f, start, order, posted);
            Serial(f, start, order, posted)
            == if client in posted then f(client, posted[client], found).document else found
  {
  }

  /** A client that has written nothing changes nothing by getting the lock. */
  lemma NewcomerChangesNothing(f: Update, start: Option<Document>, order: seq<string>, posted: map<string, nat>,
                               client: string)
    requires client !in posted
    ensures Serial(f, start, order + [client], posted) == Serial(f, start, order, posted)
  {
    assert (order + [client])[..|order|] == order;
  }

  lemma SerialStep(s: Sys, step: Step, w: string, order: seq<string>, posted: map<string, nat>, f: Update, may: Rule,
                   start: Option<Document>)
    requires Inv(s, w, order, posted, f, may, start) && Enabled(s, step) && Safe(step, w, may)
    ensures Doc(Apply(s, step).db, w) == Serial(f, start, OrderStep(s, step, w, order), PostedStep(step, w, posted))
  {
    DocStep(s, step, w);
    if Inserts(s, step, w) {
      InsertsOnce(s, step, w, order, posted, may);
      NewcomerChangesNothing(f, start, order, posted, step.req.client);
    } else if Writes(step, w) {
      FoundStays(s, step, w, order, posted, f, may, start);
      WriterHoldsTheLock(s, step, w, order, posted, f, may, start);
      SerialEndsWith(f, start, order, PostedStep(step, w, posted));
    } else {
      assert order + [] == order;
    }
  }

  /** A POST on its way still carries the update of the state its client found. */
  lemma PendingPostStep(s: Sys, step: Step, w: string, order: seq<string>, posted: map<string, nat>, f: Update,
                        may: Rule, start: Option<Document>, p: Req)
    requires Inv(s, w, order, posted, f, may, start) && Allowed(s, step, w, f, may)
    requires Pending(Apply(s, step), p, may) && For(p, w) && p.op.Post?
    ensures !Inserts(s, step, w) && p.op.body == Some(f(p.client, p.num, Found(f, start, order, posted)))
  {
    NewPending(s, step, p, may);
  }

  /** A client with an open session is the last in the order, and nobody gets the lock meanwhile. */
  lemma OpenIsLast(s: Sys, step: Step, w: string, order: seq<string>, posted: map<string, nat>, may: Rule,
                   client: string)
    requires Sessions(s, w, may) && History(s, w, order, posted)
    requires Granted(s, w, client) && !Closed(s, w, client)
    ensures order != [] && order[|order| - 1] == client && !Inserts(s, step, w)
  {
  }

  /** A client whose GET is on its way has written nothing, so the state is the one it found. */
  lemma ReaderFinds(s: Sys, w: string, order: seq<string>, posted: map<string, nat>, f: Update, may: Rule,
                    start: Option<Document>, g: Req)
    requires Inv(s, w, order, posted, f, may, start) && g in s.reqs && For(g, w) && g.op.Get? && s.reqs[g].Received?
    requires order != [] && order[|order| - 1] == g.client
    ensures Doc(s.db, w) == Found(f, start, order, posted)
  {
    if g.client in posted {
      assert false;
    }
    SerialEndsWith(f, start, order, posted);
  }

  /** What an open session has read is the state it found: it reads before it writes. */
  lemma ViewStep(s: Sys, step: Step, w: string, order: seq<string>, posted: map<string, nat>, f: Update, may: Rule,
                 start: Option<Document>, client: string, view: Option<Document>)
    requires Inv(s, w, order, posted, f, may, start) && Allowed(s, step, w, f, may)
    requires Read(Apply(s, step), w, client, view) && !Closed(Apply(s, step), w, client)
    ensures !Inserts(s, step, w) && view == Found(f, start, order, posted)
  {
    SessionFactsStay(s, step, w, client);
    if Read(s, w, client, view) {
      var g :| g in s.reqs && For(g, w) && g.op.Get? && g.client == client && Seen(s.reqs[g]) == Some(view);
      OpenIsLast(s, step, w, order, posted, may, client);
    } else {
      NewRead(s, step, w, client, view);
      OpenIsLast(s, step, w, order, posted, may, client);
      ReaderFinds(s, w, order, posted, f, may, start, step.req);
    }
  }

  lemma ViewsCurrentStep(s: Sys, step: Step, w: string, order: seq<string>, posted: map<string, nat>, f: Update,
                         may: Rule, start: Option<Document>)
    requires Inv(s, w, order, posted, f, may, start) && Allowed(s, step, w, f, may)
    ensures ViewsCurrent(Apply(s, step), w,
                         Found(f, start, OrderStep(s, step, w, order), PostedStep(step, w, posted)), f, may)
  {
    var s', found' := Apply(s, step), Found(f, start, OrderStep(s, step, w, order), PostedStep(step, w, posted));
    if !Inserts(s, step, w) {
      FoundStays(s, step, w, order, posted, f, may, start);
    }
    forall p | Pending(s', p, may) && For(p, w) && p.op.Post?
      ensures p.op.body == Some(f(p.client, p.num, found'))
    {
      PendingPostStep(s, step, w, order, posted, f, may, start, p);
    }
    forall client, view | Read(s', w, client, view) && !Closed(s', w, client) ensures view == found' {
      ViewStep(s, step, w, order, posted, f, may, start, client, view);
    }
  }

  lemma InvStep(s: Sys, step: Step, w: string, order: seq<string>, posted: map<string, nat>, f: Update, may: Rule,
                start: Option<Document>)
    requires Inv(s, w, order, posted, f, may, start) && Allowed(s, step, w, f, may)
    ensures Inv(Apply(s, step), w, OrderStep(s, step, w, order), PostedStep(step, w, posted), f, may, start)
  {
    OneAtATimeStep(s, step, w, f, may);
    SessionsStep(s, step, w, f, may);
    HistoryStep(s, step, w, order, posted, f, may, start);
    ViewsCurrentStep(s, step, w, order, posted, f, may, start);
    SerialStep(s, step, w, order, posted, f, may, start);
  }

  // ----- whole runs -----

  /** The clients follow the protocol on a workspace that starts unlocked. */
  ghost predicate Orderly(db: Db, run: seq<Step>, w: string, f: Update, may: Rule) {
    Run(Start(db), run) && w !in db.locks && Disciplined(db, run, w, f, may)
  }

  lemma {:induction false} InvAlways(db: Db, run: seq<Step>, w: string, f: Update, may: Rule)
    requires Orderly(db, run, w, f, may) && (!may(500) || NoPostLands(run, w))
    ensures Inv(After(Start(db), run), w, LockOrder(Start(db), run, w), Posted(run, w), f, may, Doc(db, w))
  {
    if run != [] {
      var front, step := run[..|run| - 1], run[|run| - 1];
      assert step in run && forall st | st in front :: st in run;
      InvAlways(db, front, w, f, may);
      WellFormedAlways(db, run);
      InvStep(After(Start(db), front), step, w, LockOrder(Start(db), front, w), Posted(front, w), f, may, Doc(db, w));
    }
  }

  lemma {:induction false} OrderlyPrefix(db: Db, run: seq<Step>, w: string, f: Update, may: Rule, k: nat)
    requires Orderly(db, run, w, f, may) && k <= |run|
    ensures Orderly(db, run[..k], w, f, may) && (NoPostLands(run, w) ==> NoPostLands(run[..k], w))
  {
    if k < |run| {
      var front := run[..|run| - 1];
      assert forall step | step in front :: step in run;
      OrderlyPrefix(db, front, w, f, may, k);
      assert front[..k] == run[..k];
    } else {
      assert run[..k] == run;
    }
  }

  /**
   When step `k` writes, the writer's lock is in the table, and it writes its update of what
   the clients before it made of the state, under a higher number than any of its writes before.
   */
  ghost predicate WritesUnderTheLock(db: Db, run: seq<Step>, w: string, f: Update, k: nat)
    requires k < |run|
  {
    var s, r := After(Start(db), run[..k]), run[k].req;
    var order, posted := LockOrder(Start(db), run[..k], w), Posted(run[..k], w);
    Writes(run[k], w) ==>
      && w in s.db.locks && s.db.locks[w].lockId == r.client
      && (r.client in posted ==> posted[r.client] < r.num)
      && r.op.Post? && r.op.body == Some(f(r.client, r.num, Found(f, Doc(db, w), order, posted)))
  }

  /**
   No write without the lock, although POST never consults it: if either no client goes on
   after a 500 to its POST, or no POST lands late.
   */
  lemma WritesHappenUnderTheLock(db: Db, run: seq<Step>, w: string, f: Update, may: Rule, k: nat)
    requires Orderly(db, run, w, f, may) && (!may(500) || NoPostLands(run, w)) && k < |run|
    ensures WritesUnderTheLock(db, run, w, f, k)
  {
    PrefixRuns(Start(db), run, k);
    OrderlyPrefix(db, run, w, f, may, k);
    InvAlways(db, run[..k], w, f, may);
    assert run[k] in run;
    if Writes(run[k], w) {
      var s := After(Start(db), run[..k]);
      WriterHoldsTheLock(s, run[k], w, LockOrder(Start(db), run[..k], w), Posted(run[..k], w), f, may, Doc(db, w));
    }
  }

  lemma WriterAdvances(s: Sys, step: Step, w: string, order: seq<string>, posted: map<string, nat>, f: Update,
                       may: Rule, start: Option<Document>)
    requires Inv(s, w, order, posted, f, may, start) && Enabled(s, step) && Safe(step, w, may)
    ensures Writes(step, w) && step.req.client in posted ==> posted[step.req.client] < step.req.num
  {
    if Writes(step, w) {
      WriterHoldsTheLock(s, step, w, order, posted, f, may, start);
    }
  }

  lemma PostedGrows(step: Step, w: string, posted: map<string, nat>, client: string)
    requires Writes(step, w) && step.req.client in posted ==> posted[step.req.client] < step.req.num
    requires client in posted
    ensures client in PostedStep(step, w, posted) && posted[client] <= PostedStep(step, w, posted)[client]
  {
  }

  lemma NewSuccess(s: Sys, step: Step, w: string, r: Req)
    requires WellFormed(s) && Enabled(s, step) && r in Apply(s, step).reqs && For(r, w)
    requires Apply(s, step).reqs[r].Answered? && Apply(s, step).reqs[r].status == 200
    requires r in s.reqs ==> s.reqs[r] != Apply(s, step).reqs[r]
    ensures step.req == r && (r.op.Lock? ==> Inserts(s, step, w)) && (r.op.Post? ==> Writes(step, w))
  {
  }

  /** A client told 200 for its LOCK is in the order; after a 200 to a POST its last write is no older. */
  lemma {:induction false} AcknowledgedCount(db: Db, run: seq<Step>, w: string, f: Update, may: Rule, r: Req)
    requires Orderly(db, run, w, f, may) && (!may(500) || NoPostLands(run, w))
    requires r in After(Start(db), run).reqs && For(r, w)
    requires After(Start(db), run).reqs[r].Answered? && After(Start(db), run).reqs[r].status == 200
    ensures r.op.Lock? ==> r.client in LockOrder(Start(db), run, w)
    ensures r.op.Post? ==> r.client in Posted(run, w) && r.num <= Posted(run, w)[r.client]
  {
    var front, step := run[..|run| - 1], run[|run| - 1];
    var s := After(Start(db), front);
    assert step in run && forall st | st in front :: st in run;
    InvAlways(db, front, w, f, may);
    if r in s.reqs && s.reqs[r] == Apply(s, step).reqs[r] {
      AcknowledgedCount(db, front, w, f, may, r);
      if r.op.Post? {
        WriterAdvances(s, step, w, LockOrder(Start(db), front, w), Posted(front, w), f, may, Doc(db, w));
        PostedGrows(step, w, Posted(front, w), r.client);
      }
    } else {
      NewSuccess(s, step, w, r);
    }
  }

  /**
   The state is that of the clients' last writes applied one client at a time in LOCK order,
   each client once, and no acknowledged write is lost but to a later one of the same client.
   */
  ghost predicate IsSerial(db: Db, run: seq<Step>, w: string, f: Update) {
    var s, order, posted := After(Start(db), run), LockOrder(Start(db), run, w), Posted(run, w);
    && Doc(s.db, w) == Serial(f, Doc(db, w), order, posted)
    && NoRepeats(order) && (forall client | client in posted :: client in order)
    && (forall r | r in s.reqs && For(r, w) && s.reqs[r] == Answered(200, NoBody) ::
          && (r.op.Lock? ==> r.client in order)
          && (r.op.Post? ==> r.client in posted && r.num <= posted[r.client]))
  }

  /**
   Serializability, for any number of clients, any interleaving and any fate of their
   statements, if no client goes on after a 500 to its POST - or else if no POST lands late.
   */
  lemma UpdatesAreSerial(db: Db, run: seq<Step>, w: string, f: Update, may: Rule)
    requires Orderly(db, run, w, f, may) && (!may(500) || NoPostLands(run, w))
    ensures IsSerial(db, run, w, f)
  {
    InvAlways(db, run, w, f, may);
    var s, order, posted := After(Start(db), run), LockOrder(Start(db), run, w), Posted(run, w);
    forall r | r in s.reqs && For(r, w) && s.reqs[r] == Answered(200, NoBody)
      ensures r.op.Lock? ==> r.client in order
      ensures r.op.Post? ==> r.client in posted && r.num <= posted[r.client]
    {
      AcknowledgedCount(db, run, w, f, may, r);
    }
  }

  // ----- going on after a failed POST -----

  const EMPTY: Db := Db(map[], map[])

  /** Every client puts its name in front of what it read. */
  function Sign(client: string, num: nat, view: Option<Document>): Body {
    Body("", Some(client + if view.Some? then view.value else ""), 0)
  }

  function LockBy(client: string): Req {
    Req(client, 0, Lock("w", Some(LockRow(client, "", "", "", "", 0))))
  }

  function GetBy(client: string): Req {
    Req(client, 0, Get("w"))
  }

  function PostBy(client: string, view: Option<Document>): Req {
    Req(client, 0, Post("w", Some(Sign(client, 0, view))))
  }

  function UnlockBy(client: string): Req {
    Req(client, 0, Unlock("w", Some(client)))
  }

  /** `run` takes empty tables to `s`, its clients of "w" following the protocol. */
  ghost predicate LeadsTo(run: seq<Step>, s: Sys, order: seq<string>, posted: map<string, nat>, may: Rule) {
    && Orderly(EMPTY, run, "w", Sign, may) && After(Start(EMPTY), run) == s
    && LockOrder(Start(EMPTY), run, "w") == order && Posted(run, "w") == posted
  }

  lemma Proceed(run: seq<Step>, s: Sys, order: seq<string>, posted: map<string, nat>, may: Rule, step: Step)
    requires LeadsTo(run, s, order, posted, may) && Enabled(s, step)
    requires step.Arrive? ==> Follows(s, step.req, "w", Sign, may)
    ensures LeadsTo(run + [step], Apply(s, step), OrderStep(s, step, "w", order), PostedStep(step, "w", posted), may)
  {
    assert (run + [step])[..|run|] == run;
  }

  /** The system after a new request has arrived and executed its first statement. */
  function AfterCall(s: Sys, r: Req, fate: Fate): Sys
    requires !Malformed(r.op)
  {
    var (db, result) := Issue(s.db, FirstStatement(r.op), fate);
    var phase := AfterFirst(r.op, result);
    Sys(db, s.reqs[r := phase], if fate.Late? then s.late + {r} else s.late,
        if r.op.Lock? && phase.Missed? then s.conflicts + 1 else s.conflicts)
  }

  lemma CallSteps(s: Sys, r: Req, fate: Fate)
    requires r !in s.reqs && !Malformed(r.op)
    ensures Apply(s, Arrive(r)) == s.(reqs := s.reqs[r := Received])
    ensures Apply(Apply(s, Arrive(r)), Exec(r, fate)) == AfterCall(s, r, fate)
  {
    assert s.reqs[r := Received][r := AfterFirst(r.op, Issue(s.db, FirstStatement(r.op), fate).1)]
        == s.reqs[r := AfterFirst(r.op, Issue(s.db, FirstStatement(r.op), fate).1)];
  }

  lemma Call(run: seq<Step>, s: Sys, order: seq<string>, posted: map<string, nat>, may: Rule, r: Req, fate: Fate)
    returns (run': seq<Step>)
    requires LeadsTo(run, s, order, posted, may) && r !in s.reqs && For(r, "w") && Follows(s, r, "w", Sign, may)
    ensures LeadsTo(run', AfterCall(s, r, fate),
                    OrderStep(s, Exec(r, fate), "w", order), PostedStep(Exec(r, fate), "w", posted), may)
  {
    Proceed(run, s, order, posted, may, Arrive(r));
    CallSteps(s, r, fate);
    assert order + [] == order;
    Proceed(run + [Arrive(r)], Apply(s, Arrive(r)), order, posted, may, Exec(r, fate));
    run' := run + [Arrive(r)] + [Exec(r, fate)];
  }

  /** Nobody has sent anything in this name yet but what is listed. */
  ghost predicate OnlySent(s: Sys, client: string, sent: set<Req>) {
    sent <= s.reqs.Keys && forall q | q in s.reqs && q.client == client :: q in sent
  }

  /** No other client is heard of. */
  ghost predicate OthersSilent(s: Sys, s': Sys, client: string) {
    forall other | other != client && OnlySent(s, other, {}) :: OnlySent(s', other, {})
  }

  ghost predicate Locked(s: Sys, client: string) {
    && LockBy(client) in s.reqs && s.reqs[LockBy(client)] == Answered(200, NoBody)
    && Find(s.db.locks, "w") == LockBy(client).op.row
  }

  lemma LockCall(run: seq<Step>, s: Sys, order: seq<string>, posted: map<string, nat>, may: Rule, client: string)
    returns (run': seq<Step>, s': Sys)
    requires LeadsTo(run, s, order, posted, may) && "w" !in s.db.locks && OnlySent(s, client, {})
    ensures LeadsTo(run', s', order + [client], posted, may)
    ensures s' == Sys(s.db.(locks := s.db.locks["w" := LockBy(client).op.row.value]),
                      s.reqs[LockBy(client) := Answered(200, NoBody)], s.late, s.conflicts)
  {
    s' := AfterCall(s, LockBy(client), Acked);
    run' := Call(run, s, order, posted, may, LockBy(client), Acked);
  }

  lemma GetCall(run: seq<Step>, s: Sys, order: seq<string>, posted: map<string, nat>, may: Rule, client: string)
    returns (run': seq<Step>, s': Sys)
    requires LeadsTo(run, s, order, posted, may) && Locked(s, client) && OnlySent(s, client, {LockBy(client)})
    ensures LeadsTo(run', s', order, posted, may)
    ensures var view := Doc(s.db, "w");
            s' == s.(reqs := s.reqs[GetBy(client) := if view.Some? then Answered(200, Content(view.value))
                                                     else Answered(404, NoBody)])
  {
    s' := AfterCall(s, GetBy(client), Acked);
    assert order + [] == order;
    assert Granted(s, "w", client);
    run' := Call(run, s, order, posted, may, GetBy(client), Acked);
  }

  /** A client locks a free workspace and reads it. */
  lemma Opens(run: seq<Step>, s: Sys, order: seq<string>, posted: map<string, nat>, may: Rule, client: string)
    returns (run': seq<Step>, s': Sys)
    requires LeadsTo(run, s, order, posted, may) && "w" !in s.db.locks && OnlySent(s, client, {})
    ensures LeadsTo(run', s', order + [client], posted, may)
    ensures s'.db.states == s.db.states && s'.late == s.late && OthersSilent(s, s', client)
    ensures Locked(s', client) && OnlySent(s', client, {LockBy(client), GetBy(client)})
    ensures Seen(s'.reqs[GetBy(client)]) == Some(Doc(s.db, "w"))
  {
    var s1;
    run', s1 := LockCall(run, s, order, posted, may, client);
    assert Locked(s1, client) && OnlySent(s1, client, {LockBy(client)});
    run', s' := GetCall(run', s1, order + [client], posted, may, client);
  }

  /** It writes its update, acknowledged or late. */
  lemma PostCall(run: seq<Step>, s: Sys, order: seq<string>, posted: map<string, nat>, may: Rule, client: string,
                 view: Option<Document>, fate: Fate)
    returns (run': seq<Step>, s': Sys)
    requires LeadsTo(run, s, order, posted, may) && OnlySent(s, client, {LockBy(client), GetBy(client)})
    requires Seen(s.reqs[GetBy(client)]) == Some(view) && (fate.Acked? || fate.Late?)
    ensures LeadsTo(run', s', order, if fate.Acked? then posted[client := 0] else posted, may)
    ensures s' == AfterCall(s, PostBy(client, view), fate)
  {
    s' := AfterCall(s, PostBy(client, view), fate);
    assert order + [] == order;
    assert Read(s, "w", client, view);
    run' := Call(run, s, order, posted, may, PostBy(client, view), fate);
  }

  /** It unlocks, whatever the answer to its POST, if its rule lets it. */
  lemma UnlockCall(run: seq<Step>, s: Sys, order: seq<string>, posted: map<string, nat>, may: Rule, client: string,
                   view: Option<Document>)
    returns (run': seq<Step>, s': Sys)
    requires LeadsTo(run, s, order, posted, may) && Locked(s, client)
    requires OnlySent(s, client, {LockBy(client), GetBy(client), PostBy(client, view)})
    requires s.reqs[GetBy(client)].Answered?
    requires s.reqs[PostBy(client, view)].Answered? && may(s.reqs[PostBy(client, view)].status)
    ensures LeadsTo(run', s', order, posted, may)
    ensures s' == Sys(s.db.(locks := s.db.locks - {"w"}),
                      s.reqs[UnlockBy(client) := Answered(200, NoBody)], s.late, s.conflicts)
  {
    s' := AfterCall(s, UnlockBy(client), Acked);
    assert order + [] == order;
    assert Granted(s, "w", client);
    run' := Call(run, s, order, posted, may, UnlockBy(client), Acked);
  }

  /** The session of a client that is told its POST failed, and goes on to unlock. */
  lemma FailedSession(run: seq<Step>, s: Sys, order: seq<string>, posted: map<string, nat>, may: Rule, client: string)
    returns (run': seq<Step>, s': Sys)
    requires LeadsTo(run, s, order, posted, may) && "w" !in s.db.locks && OnlySent(s, client, {}) && may(500)
    ensures LeadsTo(run', s', order + [client], posted, may)
    ensures "w" !in s'.db.locks && s'.db.states == s.db.states && OthersSilent(s, s', client)
    ensures PostBy(client, Doc(s.db, "w")) in s'.late
  {
    var view, s1, s2 := Doc(s.db, "w"), s, s;
    run', s1 := Opens(run, s, order, posted, may, client);
    run', s2 := PostCall(run', s1, order + [client], posted, may, client, view, Late);
    assert Locked(s2, client) && OnlySent(s2, client, {LockBy(client), GetBy(client), PostBy(client, view)});
    run', s' := UnlockCall(run', s2, order + [client], posted, may, client, view);
  }

  /** A client locks a workspace without state, reads, and is told that its POST succeeded. */
  lemma SuccessfulSession(run: seq<Step>, s: Sys, order: seq<string>, posted: map<string, nat>, may: Rule,
                          client: string)
    returns (run': seq<Step>, s': Sys)
    requires LeadsTo(run, s, order, posted, may) && "w" !in s.db.locks && OnlySent(s, client, {})
    requires Doc(s.db, "w") == None
    ensures LeadsTo(run', s', order + [client], posted[client := 0], may)
    ensures Locked(s', client) && s.late <= s'.late
    ensures PostBy(client, None) in s'.reqs && s'.reqs[PostBy(client, None)] == Answered(200, NoBody)
  {
    var s1;
    run', s1 := Opens(run, s, order, posted, may, client);
    run', s' := PostCall(run', s1, order + [client], posted, may, client, None, Acked);
  }

  lemma SerialWouldKeepBoth()
    ensures Serial(Sign, None, ["a", "b"], map["a" := 0, "b" := 0]) == Some("ba")
  {
    assert ["a", "b"][..1] == ["a"] && ["a"][..0] == [];
    assert "a" + "" == "a" && "b" + "a" == "ba";
    assert Serial(Sign, None, ["a"], map["a" := 0, "b" := 0]) == Some("a");
  }

  lemma FailureThenSuccess(may: Rule) returns (run: seq<Step>, s: Sys)
    requires may(500)
    ensures LeadsTo(run, s, ["a", "b"], map["b" := 0], may) && Locked(s, "b") && PostBy("a", None) in s.late
    ensures PostBy("b", None) in s.reqs && s.reqs[PostBy("b", None)] == Answered(200, NoBody)
  {
    var none: seq<string>, s1 := [], Start(EMPTY);
    assert none + ["a"] == ["a"] && ["a"] + ["b"] == ["a", "b"];
    run, s1 := FailedSession([], s1, none, map[], may, "a");
    run, s := SuccessfulSession(run, s1, ["a"], map[], may, "b");
  }

  lemma FailedPostLands(run: seq<Step>, s: Sys, order: seq<string>, posted: map<string, nat>, may: Rule, client: string)
    requires LeadsTo(run, s, order, posted, may) && PostBy(client, None) in s.late
    ensures var land := Land(PostBy(client, None));
            && Enabled(s, land) && LeadsTo(run + [land], Apply(s, land), order, posted[client := 0], may)
            && Doc(Apply(s, land).db, "w") == Some(client)
  {
    assert order + [] == order && client + "" == client;
    Proceed(run, s, order, posted, may, Land(PostBy(client, None)));
  }

  /**
   Going on after a 500 is not safe. Client "a" is told that its POST failed and unlocks; "b"
   locks, reads, writes and is told 200; then the POST of "a" lands under the lock of "b", and
   the update of "b" is gone.
   */
  lemma LatePostLosesAnUpdate(may: Rule) returns (run: seq<Step>, s: Sys)
    requires may(500)
    ensures Locked(s, "b") && PostBy("b", None) in s.reqs && s.reqs[PostBy("b", None)] == Answered(200, NoBody)
    ensures var land := Land(PostBy("a", None));
            && LeadsTo(run, s, ["a", "b"], map["b" := 0], may)
            && Enabled(s, land) && LeadsTo(run + [land], Apply(s, land), ["a", "b"], map["a" := 0, "b" := 0], may)
            && Doc(Apply(s, land).db, "w") == Some("a")
            && Serial(Sign, None, ["a", "b"], map["a" := 0, "b" := 0]) == Some("ba")
  {
    SerialWouldKeepBoth();
    run, s := FailureThenSuccess(may);
    FailedPostLands(run, s, ["a", "b"], map["b" := 0], may, "a");
    assert map["b" := 0]["a" := 0] == map["a" := 0, "b" := 0];
  }

  lemma LatePostBreaksBoth(may: Rule) returns (run: seq<Step>, k: nat)
    requires may(500)
    ensures Orderly(EMPTY, run, "w", Sign, may) && !IsSerial(EMPTY, run, "w", Sign)
    ensures k < |run| && !WritesUnderTheLock(EMPTY, run, "w", Sign, k)
  {
    var front, s := LatePostLosesAnUpdate(may);
    run, k := front + [Land(PostBy("a", None))], |front|;
    assert run[..k] == front;
  }

  /**
   The exact condition, one that a client can keep by itself: updates are serial and writes
   stay under the lock in all runs, whatever the fates of their statements, if and only if
   clients do not go on after a 500 to their POST.
   */
  lemma SerialExactlyIfFailuresKeepTheLock(may: Rule)
    ensures (forall db, run, w, f: Update | Orderly(db, run, w, f, may) :: IsSerial(db, run, w, f)) <==> !may(500)
    ensures (forall db, run, w, f: Update, k: nat | Orderly(db, run, w, f, may) && k < |run| ::
               WritesUnderTheLock(db, run, w, f, k))
            <==> !may(500)
  {
    if may(500) {
      var run, k := LatePostBreaksBoth(may);
    } else {
      forall db, run, w, f: Update | Orderly(db, run, w, f, may) ensures IsSerial(db, run, w, f) {
        UpdatesAreSerial(db, run, w, f, may);
      }
      forall db, run, w, f: Update, k: nat | Orderly(db, run, w, f, may) && k < |run|
        ensures WritesUnderTheLock(db, run, w, f, k)
      {
        WritesHappenUnderTheLock(db, run, w, f, may, k);
      }
    }
  }
}
