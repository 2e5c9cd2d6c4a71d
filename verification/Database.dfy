/**
 The two tables and the SQL statements on them. Each statement is one atomic step; what may
 go wrong around it is its fate: an error may mean that it never takes effect, that it took
 effect and the acknowledgement was lost, or that it will take effect later.
 */
module Database {
  import opened Options

  /** A JSON value, as the JSONB column keeps it: equal documents are equal JSON. */
  type Document = string

  /**
   The body of a POST. JSON parsing is not modelled: a body comes with the document JSONB
   would store for it, if it is valid JSON, and with the serial the state header decodes to.
   */
  datatype Body = Body(text: string, document: Option<Document>, serial: int)

  datatype LockRow =
    LockRow(lockId: string, operation: string, who: string, info: string, version: string, created: int)
  datatype StateRow = StateRow(document: Document, serial: int)

  datatype Db = Db(locks: map<string, LockRow>, states: map<string, StateRow>)

  datatype Statement =
    | InsertLock(workspace: string, row: LockRow)
    | DeleteLock(workspace: string, lockId: string)
    | SelectLock(workspace: string)
    | UpsertState(workspace: string, body: Option<Document>, serial: int)
    | DeleteState(workspace: string)
    | SelectState(workspace: string)

  datatype Result =
    | RowsAffected(count: nat)
    | LockFound(lock: Option<LockRow>)
    | StateFound(state: Option<StateRow>)
    | SqlError

  function Find<T>(rows: map<string, T>, key: string): Option<T> {
    if key in rows then Some(rows[key]) else None
  }

  /** What a statement does and answers when nothing goes wrong. */
  function Execute(db: Db, st: Statement): (Db, Result) {
    match st
    case InsertLock(ws, row) => // ON CONFLICT (workspace) DO NOTHING
      if ws in db.locks then (db, RowsAffected(0)) else (db.(locks := db.locks[ws := row]), RowsAffected(1))
    case DeleteLock(ws, id) =>
      if ws in db.locks && db.locks[ws].lockId == id
      then (db.(locks := db.locks - {ws}), RowsAffected(1)) else (db, RowsAffected(0))
    case SelectLock(ws) => (db, LockFound(Find(db.locks, ws)))
    case UpsertState(ws, document, serial) => // invalid JSON is refused
      if document.None? then (db, SqlError)
      else (db.(states := db.states[ws := StateRow(document.value, serial)]), RowsAffected(1))
    case DeleteState(ws) =>
      if ws in db.states then (db.(states := db.states - {ws}), RowsAffected(1)) else (db, RowsAffected(0))
    case SelectState(ws) => (db, StateFound(Find(db.states, ws)))
  }

  /**
   Acked: takes effect and answers. Lost: takes effect, the caller sees an error.
   Dropped: an error, and never takes effect. Late: an error now, and it may take effect later.
   */
  datatype Fate = Acked | Lost | Dropped | Late

  function Issue(db: Db, st: Statement, fate: Fate): (Db, Result) {
    match fate
    case Acked => Execute(db, st)
    case Lost => (Execute(db, st).0, SqlError)
    case Dropped => (db, SqlError)
    case Late => (db, SqlError)
  }

  /** The connection pool both repositories share. */
  class Pool {
    var db: Db

    constructor (db: Db)
      ensures this.db == db
    {
      this.db := db;
    }

    method Exec(st: Statement, fate: Fate) returns (result: Result)
      modifies this
      ensures (db, result) == Issue(old(db), st, fate)
    {
      var (db', answer) := Issue(db, st, fate);
      db, result := db', answer;
    }
  }

  /** Statements of other requests run. */
  method Interleave(pool: Pool, others: Db -> Db)
    modifies pool
    ensures pool.db == others(old(pool.db))
  {
    pool.db := others(pool.db);
  }

  /** A value or a database error. */
  datatype Outcome<+T> = Success(value: T) | Failure

  class LockRepository {
    const pool: Pool

    constructor (pool: Pool)
      ensures this.pool == pool
    {
      this.pool := pool;
    }

    method Get(workspace: string, fate: Fate) returns (found: Outcome<Option<LockRow>>)
      modifies pool
      ensures pool.db == old(pool.db)
      ensures found == if fate.Acked? then Success(Find(pool.db.locks, workspace)) else Failure
    {
      var result := pool.Exec(SelectLock(workspace), fate);
      found := if result.LockFound? then Success(result.lock) else Failure;
    }

    /** True exactly when this call inserted the row. */
    method Acquire(workspace: string, row: LockRow, fate: Fate) returns (acquired: Outcome<bool>)
      modifies pool
      ensures pool.db.states == old(pool.db.states)
      ensures pool.db.locks == if (fate.Acked? || fate.Lost?) && workspace !in old(pool.db.locks)
                               then old(pool.db.locks)[workspace := row] else old(pool.db.locks)
      ensures acquired == if fate.Acked? then Success(workspace !in old(pool.db.locks)) else Failure
    {
      var result := pool.Exec(InsertLock(workspace, row), fate);
      acquired := if result.RowsAffected? then Success(result.count == 1) else Failure;
    }

    /** True exactly when this call deleted the row, which only the holder's id can do. */
    method Release(workspace: string, lockId: string, fate: Fate) returns (released: Outcome<bool>)
      modifies pool
      ensures pool.db.states == old(pool.db.states)
      ensures var held := workspace in old(pool.db.locks) && old(pool.db.locks)[workspace].lockId == lockId;
              && pool.db.locks == (if (fate.Acked? || fate.Lost?) && held
                                   then old(pool.db.locks) - {workspace} else old(pool.db.locks))
              && released == if fate.Acked? then Success(held) else Failure
    {
      var result := pool.Exec(DeleteLock(workspace, lockId), fate);
      released := if result.RowsAffected? then Success(result.count == 1) else Failure;
    }
  }

  class StateRepository {
    const pool: Pool

    constructor (pool: Pool)
      ensures this.pool == pool
    {
      this.pool := pool;
    }

    method Get(workspace: string, fate: Fate) returns (found: Outcome<Option<StateRow>>)
      modifies pool
      ensures pool.db == old(pool.db)
      ensures found == if fate.Acked? then Success(Find(pool.db.states, workspace)) else Failure
    {
      var result := pool.Exec(SelectState(workspace), fate);
      found := if result.StateFound? then Success(result.state) else Failure;
    }

    /** The service's Update: document and serial of one body are written together. */
    method Update(workspace: string, body: Body, fate: Fate) returns (done: Outcome<()>)
      modifies pool
      ensures pool.db.locks == old(pool.db.locks)
      ensures pool.db.states == if (fate.Acked? || fate.Lost?) && body.document.Some?
                                then old(pool.db.states)[workspace := StateRow(body.document.value, body.serial)]
                                else old(pool.db.states)
      ensures done == if fate.Acked? && body.document.Some? then Success(()) else Failure
    {
      var serial := body.serial;
      var result := pool.Exec(UpsertState(workspace, body.document, serial), fate);
      done := if result.SqlError? then Failure else Success(());
    }

    method Delete(workspace: string, fate: Fate) returns (done: Outcome<()>)
      modifies pool
      ensures pool.db.locks == old(pool.db.locks)
      ensures pool.db.states == if fate.Acked? || fate.Lost? then old(pool.db.states) - {workspace}
                                else old(pool.db.states)
      ensures done == if fate.Acked? then Success(()) else Failure
    {
      var result := pool.Exec(DeleteState(workspace), fate);
      done := if result.SqlError? then Failure else Success(());
    }
  }
}
