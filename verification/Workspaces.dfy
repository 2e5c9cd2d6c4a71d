/** Workspaces do not observe each other. */
module Workspaces {
  import opened Database
  import opened Options
  import opened Protocol

  predicate On(step: Step, w: string) {
    step.req.op.workspace == w
  }

  /** The steps of the requests on one workspace. */
  function Project(run: seq<Step>, w: string): seq<Step> {
    if run == [] then [] else
    Project(run[..|run| - 1], w) + if On(run[|run| - 1], w) then [run[|run| - 1]] else []
  }

  /** The two systems have the same rows for `w`, and its requests stand at the same point. */
  ghost predicate SameOn(s: Sys, t: Sys, w: string) {
    && Find(s.db.locks, w) == Find(t.db.locks, w) && Find(s.db.states, w) == Find(t.db.states, w)
    && (forall r: Req | r.op.workspace == w ::
          && (r in s.reqs <==> r in t.reqs) && (r in s.reqs ==> s.reqs[r] == t.reqs[r])
          && (r in s.late <==> r in t.late))
  }

  /** A statement sees and changes only the rows of its workspace. */
  lemma IssueLocal(db: Db, db': Db, st: Statement, fate: Fate)
    requires Find(db.locks, st.workspace) == Find(db'.locks, st.workspace)
    requires Find(db.states, st.workspace) == Find(db'.states, st.workspace)
    ensures Issue(db, st, fate).1 == Issue(db', st, fate).1
    ensures Find(Issue(db, st, fate).0.locks, st.workspace) == Find(Issue(db', st, fate).0.locks, st.workspace)
    ensures Find(Issue(db, st, fate).0.states, st.workspace) == Find(Issue(db', st, fate).0.states, st.workspace)
  {
  }

  lemma IssueElsewhere(db: Db, st: Statement, fate: Fate, w: string)
    requires st.workspace != w
    ensures Find(Issue(db, st, fate).0.locks, w) == Find(db.locks, w)
    ensures Find(Issue(db, st, fate).0.states, w) == Find(db.states, w)
  {
  }

  /** The statement a step issues, if any, and its fate. */
  function StatementOf(step: Step): Option<(Statement, Fate)>
    requires !Malformed(step.req.op)
  {
    match step
    case Arrive(_) => None
    case Exec(r, fate) => Some((FirstStatement(r.op), fate))
    case ReadBack(r, fate) => Some((SelectLock(r.op.workspace), fate))
    case Land(r) => Some((FirstStatement(r.op), Acked))
  }

  lemma StepOn(s: Sys, t: Sys, step: Step, w: string)
    requires SameOn(s, t, w) && On(step, w) && Enabled(s, step)
    ensures Enabled(t, step) && SameOn(Apply(s, step), Apply(t, step), w)
  {
    if !Malformed(step.req.op) && StatementOf(step).Some? {
      var (st, fate) := StatementOf(step).value;
      IssueLocal(s.db, t.db, st, fate);
    }
    var s', t' := Apply(s, step), Apply(t, step);
    assert step.req in s'.reqs ==> s'.reqs[step.req] == t'.reqs[step.req];
  }

  lemma StepElsewhere(s: Sys, t: Sys, step: Step, w: string)
    requires SameOn(s, t, w) && !On(step, w) && Enabled(s, step)
    ensures SameOn(Apply(s, step), t, w)
  {
    if !Malformed(step.req.op) && StatementOf(step).Some? {
      var (st, fate) := StatementOf(step).value;
      IssueElsewhere(s.db, st, fate, w);
    }
  }

  /**
   Independence. The steps of the requests on one workspace are by themselves a run, from any
   tables with the same rows for that workspace, with identical responses and final rows.
   */
  lemma {:induction false} ProjectionIsARun(db: Db, db': Db, run: seq<Step>, w: string)
    requires Run(Start(db), run)
    requires Find(db.locks, w) == Find(db'.locks, w) && Find(db.states, w) == Find(db'.states, w)
    ensures Run(Start(db'), Project(run, w))
    ensures SameOn(After(Start(db), run), After(Start(db'), Project(run, w)), w)
    ensures forall r | r in After(Start(db'), Project(run, w)).reqs :: r.op.workspace == w
  {
    if run != [] {
      var front, step := run[..|run| - 1], run[|run| - 1];
      ProjectionIsARun(db, db', front, w);
      var s, t := After(Start(db), front), After(Start(db'), Project(front, w));
      if On(step, w) {
        StepOn(s, t, step, w);
        assert Project(run, w)[..|Project(run, w)| - 1] == Project(front, w);
      } else {
        StepElsewhere(s, t, step, w);
        assert Project(run, w) == Project(front, w);
      }
    }
  }

  // ----- steps on different workspaces commute -----

  lemma SameConflicts(s: Sys, t: Sys, step: Step, w: string)
    requires SameOn(s, t, w) && On(step, w) && Enabled(s, step) && Enabled(t, step)
    ensures Apply(s, step).conflicts - s.conflicts == Apply(t, step).conflicts - t.conflicts
  {
  }

  lemma SameMaps<T>(m: map<string, T>, n: map<string, T>)
    requires forall w :: Find(m, w) == Find(n, w)
    ensures m == n
  {
    assert forall w | w in m :: Find(m, w) == Find(n, w) && w in n;
    assert forall w | w in n :: Find(m, w) == Find(n, w) && w in m;
  }

  lemma SameEverywhere(s: Sys, t: Sys)
    requires (forall w :: SameOn(s, t, w)) && s.conflicts == t.conflicts
    ensures s == t
  {
    assert forall w :: SameOn(s, t, w) ==> Find(s.db.locks, w) == Find(t.db.locks, w);
    assert forall w :: SameOn(s, t, w) ==> Find(s.db.states, w) == Find(t.db.states, w);
    SameMaps(s.db.locks, t.db.locks);
    SameMaps(s.db.states, t.db.states);
    forall r: Req
      ensures (r in s.reqs <==> r in t.reqs) && (r in s.reqs ==> s.reqs[r] == t.reqs[r])
      ensures r in s.late <==> r in t.late
    {
      assert SameOn(s, t, r.op.workspace);
    }
    assert s.reqs == t.reqs && s.late == t.late;
  }

  /** After `a` elsewhere, `b` does to its workspace what it would have done before. */
  lemma SameAfterElsewhere(s: Sys, a: Step, b: Step)
    requires Enabled(s, a) && Enabled(s, b) && a.req.op.workspace != b.req.op.workspace
    ensures Enabled(Apply(s, a), b)
    ensures SameOn(Apply(s, b), Apply(Apply(s, a), b), b.req.op.workspace)
    ensures Apply(Apply(s, a), b).conflicts - Apply(s, a).conflicts == Apply(s, b).conflicts - s.conflicts
  {
    var w := b.req.op.workspace;
    StepElsewhere(s, s, a, w);
    SameTurned(Apply(s, a), s, w);
    StepOn(s, Apply(s, a), b, w);
    SameConflicts(s, Apply(s, a), b, w);
  }

  lemma SameTurned(s: Sys, t: Sys, w: string)
    requires SameOn(s, t, w)
    ensures SameOn(t, s, w)
  {
  }

  lemma SameJoined(s: Sys, t: Sys, u: Sys, w: string)
    requires SameOn(s, t, w) && SameOn(t, u, w)
    ensures SameOn(s, u, w)
  {
  }

  /** Both orders agree on the workspace of the second step. */
  lemma Diamond(s: Sys, a: Step, b: Step)
    requires Enabled(s, a) && Enabled(s, b) && a.req.op.workspace != b.req.op.workspace
    requires Enabled(Apply(s, a), b) && Enabled(Apply(s, b), a)
    ensures SameOn(Apply(Apply(s, b), a), Apply(Apply(s, a), b), b.req.op.workspace)
  {
    var w := b.req.op.workspace;
    SameAfterElsewhere(s, a, b);
    StepElsewhere(Apply(s, b), Apply(s, b), a, w);
    SameJoined(Apply(Apply(s, b), a), Apply(s, b), Apply(Apply(s, a), b), w);
  }

  /** And on every workspace neither step is on. */
  lemma Untouched(s: Sys, a: Step, b: Step, w: string)
    requires Enabled(s, a) && Enabled(Apply(s, a), b) && !On(a, w) && !On(b, w)
    ensures SameOn(Apply(Apply(s, a), b), s, w)
  {
    StepElsewhere(s, s, a, w);
    StepElsewhere(Apply(s, a), s, b, w);
  }

  lemma StepsCommute(s: Sys, a: Step, b: Step)
    requires Enabled(s, a) && Enabled(s, b) && a.req.op.workspace != b.req.op.workspace
    ensures Enabled(Apply(s, a), b) && Enabled(Apply(s, b), a)
    ensures Apply(Apply(s, a), b) == Apply(Apply(s, b), a)
  {
    SameAfterElsewhere(s, a, b);
    SameAfterElsewhere(s, b, a);
    var ab, ba := Apply(Apply(s, a), b), Apply(Apply(s, b), a);
    forall w ensures SameOn(ab, ba, w) {
      if On(b, w) {
        Diamond(s, a, b);
        SameTurned(ba, ab, w);
      } else if On(a, w) {
        Diamond(s, b, a);
      } else {
        Untouched(s, a, b, w);
        Untouched(s, b, a, w);
        SameTurned(ba, s, w);
        SameJoined(ab, s, ba, w);
      }
    }
    SameEverywhere(ab, ba);
  }
}
