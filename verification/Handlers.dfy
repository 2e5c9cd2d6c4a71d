/**
 The handlers as the server's code: early returns around repository calls, the conflict
 counter bumped between the two statements of a refused LOCK. Each method states its answer and
 the tables it leaves by request, fates and tables alone, and is proved to do exactly the steps
 of Protocol, whatever `others` do to the tables between its statements.
 */
module Handlers {
  import opened Database
  import opened Options
  import opened Protocol

  datatype Payload<+T> = Unreadable | Invalid | Parsed(value: T)

  datatype Response = Response(status: nat, reply: Reply)

  /** The steps of one request, with the effect of others between its two statements. */
  function Serve(s: Sys, r: Req, first: Fate, others: Db -> Db, second: Fate): Sys
    requires r !in s.reqs
  {
    var s1 := Apply(s, Arrive(r));
    if s1.reqs[r].Answered? then s1 else
    var s2 := Apply(s1, Exec(r, first));
    if s2.reqs[r].Answered? then s2 else Apply(s2.(db := others(s2.db)), ReadBack(r, second))
  }

  function Alone(db: Db, conflicts: nat): Sys {
    Sys(db, map[], {}, conflicts)
  }

  predicate Answers(s: Sys, r: Req, response: Response) {
    r in s.reqs && s.reqs[r] == Answered(response.status, response.reply)
  }

  function OptionOf<T>(payload: Payload<T>): Option<T> {
    if payload.Parsed? then Some(payload.value) else None
  }

  class Handler {
    const locks: LockRepository
    const states: StateRepository
    var conflicts: nat

    constructor (pool: Pool)
      ensures locks.pool == states.pool == pool && conflicts == 0
    {
      locks := new LockRepository(pool);
      states := new StateRepository(pool);
      conflicts := 0;
    }

    method LockState(workspace: string, body: Payload<LockRow>, now: int, first: Fate, others: Db -> Db, second: Fate)
      returns (response: Response)
      modifies this`conflicts, locks.pool
      ensures var db := old(locks.pool.db);
              var sent := workspace != "" && body.Parsed?;
              var free := workspace !in db.locks;
              var missed := sent && first.Acked? && !free;
              && response == (if !sent then Response(400, Text)
                              else if !first.Acked? then Response(500, Text)
                              else if free then Response(200, NoBody)
                              else if !second.Acked? then Response(423, Text)
                              else if workspace in others(db).locks
                              then Response(423, Holder(others(db).locks[workspace]))
                              else Response(423, NoBody))
              && conflicts == old(conflicts) + (if missed then 1 else 0)
              && locks.pool.db == (if missed then others(db)
                                   else if sent && (first.Acked? || first.Lost?) && free
                                   then db.(locks := db.locks[workspace := body.value.(created := now)]) else db)
      ensures var row := if body.Parsed? then Some(body.value.(created := now)) else None;
              var r := Req("", 0, Lock(workspace, row));
              var s := Serve(Alone(old(locks.pool.db), old(conflicts)), r, first, others, second);
              s.db == locks.pool.db && s.conflicts == conflicts && Answers(s, r, response)
    {
      if workspace == "" {
        return Response(400, Text);
      }
      if !body.Parsed? {
        return Response(400, Text);
      }
      var row := body.value;
      row := row.(created := now);
      var acquired := locks.Acquire(workspace, row, first);
      if acquired.Failure? {
        return Response(500, Text);
      }
      if !acquired.value {
        conflicts := conflicts + 1;
        Interleave(locks.pool, others);
        var current := locks.Get(workspace, second);
        if current.Failure? {
          return Response(423, Text);
        }
        if current.value.Some? {
          return Response(423, Holder(current.value.value));
        }
        return Response(423, NoBody);
      }
      return Response(200, NoBody);
    }

    method UnlockState(workspace: string, body: Payload<string>, first: Fate, others: Db -> Db, second: Fate)
      returns (response: Response)
      modifies locks.pool
      ensures var db := old(locks.pool.db);
              var sent := workspace != "" && body.Parsed?;
              var held := sent && workspace in db.locks && db.locks[workspace].lockId == body.value;
              var missed := sent && first.Acked? && !held;
              && response == (if !sent then Response(400, Text)
                              else if !first.Acked? then Response(500, Text)
                              else if held then Response(200, NoBody)
                              else if !second.Acked? then Response(409, Text)
                              else if workspace in others(db).locks
                              then Response(409, Holder(others(db).locks[workspace]))
                              else Response(409, LockNotFound))
              && locks.pool.db == (if missed then others(db)
                                   else if held && (first.Acked? || first.Lost?)
                                   then db.(locks := db.locks - {workspace}) else db)
      ensures var r := Req("", 0, Unlock(workspace, OptionOf(body)));
              var s := Serve(Alone(old(locks.pool.db), conflicts), r, first, others, second);
              s.db == locks.pool.db && s.conflicts == conflicts && Answers(s, r, response)
    {
      if workspace == "" {
        return Response(400, Text);
      }
      if !body.Parsed? {
        return Response(400, Text);
      }
      var released := locks.Release(workspace, body.value, first);
      if released.Failure? {
        return Response(500, Text);
      }
      if !released.value {
        Interleave(locks.pool, others);
        var current := locks.Get(workspace, second);
        if current.Failure? {
          return Response(409, Text);
        }
        if current.value.Some? {
          return Response(409, Holder(current.value.value));
        } else {
          return Response(409, LockNotFound);
        }
      }
      return Response(200, NoBody);
    }

    method GetState(workspace: string, fate: Fate) returns (response: Response)
      modifies states.pool
      ensures var db := old(states.pool.db);
              && states.pool.db == db
              && response == if workspace == "" then Response(400, Text)
                             else if !fate.Acked? then Response(500, Text)
                             else if workspace in db.states
                             then Response(200, Content(db.states[workspace].document))
                             else Response(404, NoBody)
      ensures var r := Req("", 0, Get(workspace));
              var s := Serve(Alone(old(states.pool.db), conflicts), r, fate, db => db, fate);
              s.db == states.pool.db && s.conflicts == conflicts && Answers(s, r, response)
    {
      if workspace == "" {
        return Response(400, Text);
      }
      var state := states.Get(workspace, fate);
      if state.Failure? {
        return Response(500, Text);
      }
      if state.value.None? {
        return Response(404, NoBody);
      }
      return Response(200, Content(state.value.value.document));
    }

    method PostState(workspace: string, body: Payload<Body>, fate: Fate) returns (response: Response)
      modifies states.pool
      ensures var db := old(states.pool.db);
              var sent := workspace != "" && body.Parsed?;
              var json := sent && body.value.document.Some?;
              && response == (if !sent then Response(400, Text)
                              else if fate.Acked? && json then Response(200, NoBody) else Response(500, Text))
              && states.pool.db
                 == if json && (fate.Acked? || fate.Lost?)
                    then db.(states := db.states[workspace := StateRow(body.value.document.value, body.value.serial)])
                    else db
      ensures var r := Req("", 0, Post(workspace, OptionOf(body)));
              var s := Serve(Alone(old(states.pool.db), conflicts), r, fate, db => db, fate);
              s.db == states.pool.db && s.conflicts == conflicts && Answers(s, r, response)
    {
      if workspace == "" {
        return Response(400, Text);
      }
      if !body.Parsed? {
        return Response(400, Text);
      }
      var done := states.Update(workspace, body.value, fate);
      if done.Failure? {
        return Response(500, Text);
      }
      return Response(200, NoBody);
    }

    method DeleteState(workspace: string, fate: Fate) returns (response: Response)
      modifies states.pool
      ensures var db := old(states.pool.db);
              var sent := workspace != "";
              && response == (if !sent then Response(400, Text)
                              else if fate.Acked? then Response(200, NoBody) else Response(500, Text))
              && states.pool.db == if sent && (fate.Acked? || fate.Lost?)
                                   then db.(states := db.states - {workspace}) else db
      ensures var r := Req("", 0, Delete(workspace));
              var s := Serve(Alone(old(states.pool.db), conflicts), r, fate, db => db, fate);
              s.db == states.pool.db && s.conflicts == conflicts && Answers(s, r, response)
    {
      if workspace == "" {
        return Response(400, Text);
      }
      var done := states.Delete(workspace, fate);
      if done.Failure? {
        return Response(500, Text);
      }
      return Response(200, NoBody);
    }
  }
}
