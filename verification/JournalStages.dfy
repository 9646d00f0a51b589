/**
 How far an operation has come, in every journal a session can write: planned, then executed, then undo
 rows. No batch is excluded, so one operation can be executed twice over, and undone twice over.
 */
module JournalStages {
  import opened FileSystem
  import opened Journal
  import opened Scripts
  import opened Steps
  import opened Sessions
  import opened JournalRows
  import opened Wrappers

  datatype Stage = Unseen | Awaiting | Standing | Undoing | Impossible

  function Advance(stage: Stage, status: Status): Stage {
    match (stage, status)
    case (Unseen, Planned) => Awaiting
    case (Awaiting, Executed) => Standing
    case (Standing, Executed) => Standing
    case (Standing, UndoPlanned) => Undoing
    case (Standing, Undone) => Undoing
    case (Undoing, UndoPlanned) => Undoing
    case (Undoing, Undone) => Undoing
    case _ => Impossible
  }

  /** The stage operation `id` has reached in the journal. */
  function StageOf(rows: seq<Entry>, id: nat): Stage {
    if rows == [] then Unseen
    else
      var last, before := rows[|rows| - 1], StageOf(rows[..|rows| - 1], id);
      if last.id == id then Advance(before, last.status) else before
  }

  lemma StageSnoc(rows: seq<Entry>, e: Entry, id: nat)
    ensures StageOf(rows + [e], id) == if e.id == id then Advance(StageOf(rows, id), e.status) else StageOf(rows, id)
  {
    assert (rows + [e])[..|rows|] == rows;
  }

  /** What a stage says about the rows of its operation. */
  lemma {:induction false} StageMeans(rows: seq<Entry>, id: nat)
    ensures StageOf(rows, id) == Unseen <==> forall e :: e in rows ==> e.id != id
    ensures StageOf(rows, id) == Awaiting ==> forall e :: e in rows && e.id == id ==> e.status.Planned?
    ensures StageOf(rows, id) == Standing ==> id in IdsWith(rows, {Executed}) && id !in IdsWith(rows, {UndoPlanned, Undone})
    ensures StageOf(rows, id) == Undoing ==> id in IdsWith(rows, {Executed}) && id in IdsWith(rows, {UndoPlanned, Undone})
    decreases |rows|
  {
    if rows != [] {
      var last, rest := rows[|rows| - 1], rows[..|rows| - 1];
      StageMeans(rest, id);
      assert rows == rest + [last];
      assert forall x :: x in rows <==> x in rest || x == last;
      assert last in rows;
    }
  }

  /** An operation with an executed row stands, or is being undone. */
  lemma ExecutedStage(s: State, e: Entry)
    requires Tidy(s) && e in s.journal && e.status.Executed?
    ensures StageOf(s.journal, e.id) in {Standing, Undoing}
  {
    StageMeans(s.journal, e.id);
  }

  // ----- Tidy journals

  /**
   What every session keeps: no operation leaves the stages, its rows agree on the paths, and its executed
   rows have acceptable paths and the action they were planned under, or one that a move label stands for.
   */
  ghost predicate Tidy(s: State) {
    (forall e :: e in s.journal ==> e.id < s.clock && ExecutedOk(e))
    && (forall id :: StageOf(s.journal, id) != Impossible)
    && (forall e, f :: e in s.journal && f in s.journal && e.id == f.id ==> Ends(e) == Ends(f))
    && (forall e, f :: e in s.journal && f in s.journal && e.id == f.id && e.status.Planned? && f.status.Executed? ==> ActionOk(e.action, f))
  }

  /** Appending a row that fits. */
  lemma AppendTidy(s: State, e: Entry, r: State)
    requires Tidy(s) && r.journal == s.journal + [e] && s.clock <= r.clock && e.id < r.clock && ExecutedOk(e)
    requires Advance(StageOf(s.journal, e.id), e.status) != Impossible
    requires forall f :: f in s.journal && f.id == e.id ==> Ends(f) == Ends(e)
    requires e.status.Executed? ==> forall f :: f in s.journal && f.id == e.id && f.status.Planned? ==> ActionOk(f.action, e)
    ensures Tidy(r)
    ensures forall id: nat :: id != e.id ==> StageOf(r.journal, id) == StageOf(s.journal, id)
    ensures StageOf(r.journal, e.id) == Advance(StageOf(s.journal, e.id), e.status)
  {
    forall id
      ensures StageOf(r.journal, id) == if id == e.id then Advance(StageOf(s.journal, id), e.status) else StageOf(s.journal, id)
    {
      StageSnoc(s.journal, e, id);
    }
    assert forall x :: x in r.journal <==> x in s.journal || x == e;
    StageMeans(s.journal, e.id);
  }

  /** Appending the rows of a new operation. */
  lemma NewRowsTidy(s: State, rows: seq<Entry>, r: State)
    requires Tidy(s) && NewOperation(s.clock, rows) && r.journal == s.journal + rows
    requires s.clock <= r.clock && (rows == [] || s.clock < r.clock)
    ensures Tidy(r)
    ensures forall id: nat :: id < s.clock ==> StageOf(r.journal, id) == StageOf(s.journal, id)
  {
    if rows == [] {
      assert r.journal == s.journal;
    } else {
      StageMeans(s.journal, s.clock);
      var q := State(r.tree, s.journal + [rows[0]], r.clock);
      AppendTidy(s, rows[0], q);
      if |rows| == 2 {
        assert r.journal == q.journal + [rows[1]];
        assert forall f :: f in q.journal && f.id == s.clock ==> f == rows[0];
        AppendTidy(q, rows[1], r);
      } else {
        assert r.journal == q.journal;
      }
    }
  }

  /** A script that opens a new operation, cut anywhere. */
  lemma NewCutTidy(s: State, steps: seq<Step>, n: nat)
    requires Tidy(s) && NewOperation(s.clock, RowsOf(steps)) && n <= |steps|
    ensures var r := Do(s, steps[..n]);
            Tidy(r) && s.journal <= r.journal && s.clock <= r.clock
            && forall id: nat :: id < s.clock ==> StageOf(r.journal, id) == StageOf(s.journal, id)
  {
    RowsOfPrefix(steps, n);
    DoJournal(s, steps[..n]);
    DoClock(s, steps[..n]);
    assert NewOperation(s.clock, RowsOf(steps[..n]));
    if n == 0 {
      assert RowsOf(steps[..n]) == [];
    }
    NewRowsTidy(s, RowsOf(steps[..n]), Do(s, steps[..n]));
  }

  // ----- Undo

  lemma UndoRowTidy(s: State, e: Entry, status: Status, r: State)
    requires Tidy(s) && e in s.journal && e.status.Executed? && (status.UndoPlanned? || status.Undone?)
    requires r.journal == s.journal + [UndoRow(e, status).entry] && s.clock <= r.clock
    ensures Tidy(r)
  {
    ExecutedStage(s, e);
    AppendTidy(s, UndoRow(e, status).entry, r);
  }

  /** One turn of the undo loop, cut anywhere. */
  lemma UndoCutTidy(s: State, e: Entry, undone: set<nat>, only: Option<nat>, n: nat)
    requires Tidy(s) && e in s.journal && n <= |UndoScript(s, e, undone, only).Steps()|
    ensures var r := Do(s, UndoScript(s, e, undone, only).Steps()[..n]);
            Tidy(r) && s.journal <= r.journal
  {
    var m := UndoScript(s, e, undone, only);
    var steps := m.Steps()[..n];
    var r := Do(s, steps);
    UndoScriptRows(s, e, undone, only);
    RowsOfPrefix(m.Steps(), n);
    UndoRowsPrefix(e, RowsOf(m.Steps()), RowsOf(steps));
    DoJournal(s, steps);
    DoClock(s, steps);
    if RowsOf(steps) != [] {
      UndoRowsTidy(s, e, RowsOf(steps), r);
    } else {
      assert r.journal == s.journal;
    }
  }

  lemma UndoRowsTidy(s: State, e: Entry, rows: seq<Entry>, r: State)
    requires Tidy(s) && e in s.journal && e.status.Executed?
    requires UndoRows(e, rows) && rows != [] && r.journal == s.journal + rows && s.clock <= r.clock
    ensures Tidy(r)
  {
    if |rows| == 1 {
      UndoRowTidy(s, e, rows[0].status, r);
    } else {
      var q := State(r.tree, s.journal + [rows[0]], r.clock);
      UndoRowTidy(s, e, UndoPlanned, q);
      assert r.journal == q.journal + [rows[1]];
      UndoRowTidy(q, e, Undone, r);
    }
  }

  // ----- Recovery

  /** A planned move that a batch with this journal before it may recover, perhaps more than once. */
  ghost predicate Recoverable(s: State, prior: seq<Entry>) {
    forall e :: e in prior && e.status.Planned? && e.action.Move? && e.id !in CompletedIds(prior) ==>
      e in s.journal && e.id < s.clock && StageOf(s.journal, e.id) in {Awaiting, Standing}
  }

  /** What a precheck promises about a source it misses. */
  predicate Missing(c: Check) {
    c.status.MissingSource? ==>
      if c.action.ReadmeWrite? then c.from == c.to == README else (c.action.Move? || c.action.Trash?) && !Unsafe(c.from) && c.from != []
  }

  lemma PrecheckMissing(t: Tree, q: Proposal)
    requires WellFormed(t)
    ensures Missing(Precheck(t, q))
  {
  }

  lemma RecoverTidy(s: State, c: Check, prior: seq<Entry>, id: nat, r: State)
    requires Tidy(s) && Recoverable(s, prior) && Missing(c) && c.status.MissingSource? && PendingPlanned(prior, c.from, c.to) == Some(id)
    requires ResolveExisting(s.tree, c.to) == Found && r == Apply(s, CheckRow(id, Executed, c))
    ensures Tidy(r) && Recoverable(r, prior) && s.journal <= r.journal
  {
    var f :| f in prior && Pending(f, CompletedIds(prior), c.from, c.to) && f.id == id;
    var e := CheckRow(id, Executed, c).entry;
    assert f in s.journal && StageOf(s.journal, id) in {Awaiting, Standing};
    forall g | g in s.journal && g.id == id && g.status.Planned?
      ensures ActionOk(g.action, e)
    {
      SamePlan(s, f, g);
    }
    AppendTidy(s, e, r);
  }

  /** An operation is planned once. */
  lemma SamePlan(s: State, f: Entry, g: Entry)
    requires Tidy(s) && f in s.journal && g in s.journal && f.id == g.id && f.status.Planned? && g.status.Planned?
    ensures f == g
  {
    PlannedOnce(s.journal, f, g);
  }

  lemma {:induction false} PlannedOnce(rows: seq<Entry>, f: Entry, g: Entry)
    requires f in rows && g in rows && f.id == g.id && f.status.Planned? && g.status.Planned? && StageOf(rows, f.id) != Impossible
    ensures f == g
    decreases |rows|
  {
    var last, rest := rows[|rows| - 1], rows[..|rows| - 1];
    assert rows == rest + [last];
    StageMeans(rest, f.id);
    if f in rest && g in rest {
      PlannedOnce(rest, f, g);
    }
  }

  /** One item of a batch, cut or not. */
  lemma ItemTidy(s: State, c: Check, prior: seq<Entry>, n: nat)
    requires WellFormed(s.tree) && Tidy(s) && Recoverable(s, prior) && Missing(c) && n <= |ItemScript(s, c, prior).Steps()|
    ensures var r := Do(s, ItemScript(s, c, prior).Steps()[..n]);
            Tidy(r) && Recoverable(r, prior)
  {
    var m := ItemScript(s, c, prior);
    var r := Do(s, m.Steps()[..n]);
    if c.status.Ready? {
      ReadyRows(s, c, prior);
      NewCutTidy(s, m.Steps(), n);
      StaysIn(s.journal, r.journal);
    } else if n == 0 {
      assert r == s;
    } else {
      assert m.Steps()[..1] == [m.act[0]];
      DoOne(s, m.act[0]);
      RecoverTidy(s, c, prior, m.act[0].entry.id, r);
    }
  }

  // ----- Sessions

  lemma BatchTidy(s: State, ps: seq<Proposal>, fuel: nat)
    requires WellFormed(s.tree) && Tidy(s)
    ensures Tidy(RunCommand(s, Execute(ps), fuel).s)
  {
    var jobs, prior := ItemJobs(s.tree, ps, s.journal), s.journal;
    forall e | e in prior && e.status.Planned? && e.action.Move? && e.id !in CompletedIds(prior)
      ensures StageOf(prior, e.id) == Awaiting
    {
      StageMeans(prior, e.id);
    }
    forall r: State, j: Job, n: nat |
      WellFormed(r.tree) && Tidy(r) && Recoverable(r, prior) && j in jobs && n <= |ScriptOf(r, j).Steps()|
      ensures var u := Do(r, ScriptOf(r, j).Steps()[..n]); WellFormed(u.tree) && Tidy(u) && Recoverable(u, prior)
    {
      var i :| 0 <= i < |jobs| && jobs[i] == j;
      PrecheckMissing(s.tree, ps[i]);
      ItemTidy(r, j.check, prior, n);
      ScriptKeepsWellFormed(r, j, n);
    }
    RunPreserves(s, jobs, fuel, (r: State) => WellFormed(r.tree) && Tidy(r) && Recoverable(r, prior));
  }

  lemma UndoTidy(s: State, only: Option<nat>, fuel: nat)
    requires Tidy(s)
    ensures Tidy(RunCommand(s, Undo(only), fuel).s)
  {
    var jobs := UndoJobs(s.journal, UndoneIds(s.journal), only);
    forall r: State, j: Job, n: nat | Tidy(r) && s.journal <= r.journal && j in jobs && n <= |ScriptOf(r, j).Steps()|
      ensures var u := Do(r, ScriptOf(r, j).Steps()[..n]); Tidy(u) && s.journal <= u.journal
    {
      var i :| 0 <= i < |jobs| && jobs[i] == j;
      StaysIn(s.journal, r.journal);
      UndoCutTidy(r, j.entry, j.undone, j.only, n);
    }
    RunPreserves(s, jobs, fuel, (r: State) => Tidy(r) && s.journal <= r.journal);
  }

  lemma SingleTidy(s: State, jobs: seq<Job>, fuel: nat)
    requires WellFormed(s.tree) && Tidy(s) && forall j :: j in jobs ==> !j.Item? && !j.Reverse?
    ensures Tidy(RunJobs(s, jobs, fuel).s)
  {
    forall r: State, j: Job, n: nat | WellFormed(r.tree) && Tidy(r) && j in jobs && n <= |ScriptOf(r, j).Steps()|
      ensures var u := Do(r, ScriptOf(r, j).Steps()[..n]); WellFormed(u.tree) && Tidy(u)
    {
      SingleRows(r, j);
      NewCutTidy(r, ScriptOf(r, j).Steps(), n);
      ScriptKeepsWellFormed(r, j, n);
    }
    RunPreserves(s, jobs, fuel, (r: State) => WellFormed(r.tree) && Tidy(r));
  }

  lemma CommandKeepsTidy(s: State, cmd: Command, fuel: nat)
    requires WellFormed(s.tree) && Tidy(s)
    ensures WellFormed(RunCommand(s, cmd, fuel).s.tree) && Tidy(RunCommand(s, cmd, fuel).s)
  {
    RunKeepsWellFormed(s, JobsOf(s, cmd), fuel);
    match cmd {
      case Execute(ps) => BatchTidy(s, ps, fuel);
      case Undo(only) => UndoTidy(s, only, fuel);
      case _ => SingleTidy(s, JobsOf(s, cmd), fuel);
    }
  }

  /** Over any session whatever, cut off anywhere, the journal stays tidy. */
  lemma {:induction false} SessionIsTidy(s: State, orders: seq<Order>)
    requires WellFormed(s.tree) && s.journal == []
    ensures WellFormed(RunSession(s, orders).tree) && Tidy(RunSession(s, orders))
  {
    assert forall id :: StageOf([], id) == Unseen;
    forall r: State, o: Order | WellFormed(r.tree) && Tidy(r) && o in orders
      ensures WellFormed(RunCommand(r, o.cmd, o.fuel).s.tree) && Tidy(RunCommand(r, o.cmd, o.fuel).s)
    {
      CommandKeepsTidy(r, o.cmd, o.fuel);
    }
    SessionPreserves(s, orders, (r: State) => WellFormed(r.tree) && Tidy(r));
  }
}
