/**
 The rows of one operation spell: planned, then executed at most once, then any number of undo
 attempts, then undone at most once. This holds of every session, cut off anywhere.
 */
module JournalLanguage {
  import opened FileSystem
  import opened Journal
  import opened Scripts
  import opened Steps
  import opened Sessions
  import opened JournalRows
  import opened JournalStages
  import opened Wrappers

  // ----- The language

  datatype Phase = Fresh | Open | Executing | Reverting | Closed | Broken

  function Next(phase: Phase, status: Status): Phase {
    match (phase, status)
    case (Fresh, Planned) => Open
    case (Open, Executed) => Executing
    case (Executing, UndoPlanned) => Reverting
    case (Reverting, UndoPlanned) => Reverting
    case (Executing, Undone) => Closed
    case (Reverting, Undone) => Closed
    case _ => Broken
  }

  /** The phase operation `id` has reached in the journal. */
  function PhaseOf(rows: seq<Entry>, id: nat): Phase {
    if rows == [] then Fresh
    else
      var last, before := rows[|rows| - 1], PhaseOf(rows[..|rows| - 1], id);
      if last.id == id then Next(before, last.status) else before
  }

  lemma PhaseSnoc(rows: seq<Entry>, e: Entry, id: nat)
    ensures PhaseOf(rows + [e], id) == if e.id == id then Next(PhaseOf(rows, id), e.status) else PhaseOf(rows, id)
  {
    assert (rows + [e])[..|rows|] == rows;
  }

  /** The statuses of the rows of operation `id`, in order. */
  function StatusesOf(rows: seq<Entry>, id: nat): seq<Status> {
    if rows == [] then []
    else
      var last := rows[|rows| - 1];
      StatusesOf(rows[..|rows| - 1], id) + if last.id == id then [last.status] else []
  }

  /** Planned, executed, and then nothing but undo attempts. */
  predicate Attempts(w: seq<Status>) {
    |w| >= 2 && w[0].Planned? && w[1].Executed? && forall i :: 2 <= i < |w| ==> w[i].UndoPlanned?
  }

  /** The words that lead to each phase. */
  predicate Spells(w: seq<Status>, phase: Phase) {
    match phase
    case Fresh => w == []
    case Open => w == [Planned]
    case Executing => w == [Planned, Executed]
    case Reverting => |w| >= 3 && Attempts(w)
    case Closed => |w| >= 3 && w[|w| - 1].Undone? && Attempts(w[..|w| - 1])
    case Broken => false
  }

  lemma SpellsNext(w: seq<Status>, status: Status, before: Phase, phase: Phase)
    requires Spells(w, before) && !phase.Broken?
    ensures Spells(w + [status], phase) <==> Next(before, status) == phase
  {
    var longer := w + [status];
    assert longer[..|w|] == w;
    assert forall i :: 0 <= i < |w| ==> longer[i] == w[i];
    assert longer[|w|] == status;
  }

  /** The phase in which n rows can be followed by another one. */
  function PhaseAfter(n: nat): Phase {
    if n == 0 then Fresh else if n == 1 then Open else if n == 2 then Executing else Reverting
  }

  /** What is spelled was spelled before its last row. */
  lemma SpelledBefore(w: seq<Status>, status: Status, phase: Phase)
    requires Spells(w + [status], phase)
    ensures Spells(w, PhaseAfter(|w|))
  {
    var longer := w + [status];
    assert longer[..|w|] == w;
    assert forall i :: 0 <= i < |w| ==> longer[i] == w[i];
  }

  /**
   The phases other than Broken are exactly the words of the grammar: planned, at most one executed,
   any number of undo attempts, at most one undone.
   */
  lemma {:induction false} PhaseSpells(rows: seq<Entry>, id: nat, phase: Phase)
    requires !phase.Broken?
    ensures PhaseOf(rows, id) == phase <==> Spells(StatusesOf(rows, id), phase)
    decreases |rows|
  {
    if rows != [] {
      var last, rest := rows[|rows| - 1], rows[..|rows| - 1];
      var x, w := PhaseOf(rest, id), StatusesOf(rest, id);
      if last.id != id {
        PhaseSpells(rest, id, phase);
        assert w + [] == w;
      } else if x.Broken? {
        if Spells(w + [last.status], phase) {
          SpelledBefore(w, last.status, phase);
          PhaseSpells(rest, id, PhaseAfter(|w|));
        }
      } else {
        PhaseSpells(rest, id, x);
        SpellsNext(w, last.status, x, phase);
      }
    }
  }

  /** What a phase says about the rows of its operation. */
  lemma {:induction false} PhaseMeans(rows: seq<Entry>, id: nat)
    ensures PhaseOf(rows, id) == Fresh ==> forall e :: e in rows ==> e.id != id
    ensures PhaseOf(rows, id) == Open ==> forall e :: e in rows && e.id == id ==> e.status.Planned?
    ensures PhaseOf(rows, id) == Executing ==> id in IdsWith(rows, {Executed}) && id !in IdsWith(rows, {UndoPlanned, Undone})
    ensures PhaseOf(rows, id) == Reverting ==> id in IdsWith(rows, {Executed}) && id !in UndoneIds(rows)
    ensures PhaseOf(rows, id) == Closed ==> id in UndoneIds(rows)
    ensures PhaseOf(rows, id) != Broken ==> forall e, f :: e in rows && f in rows && e.id == f.id == id && e.status.Planned? && f.status.Planned? ==> e == f
    decreases |rows|
  {
    if rows != [] {
      var last, rest := rows[|rows| - 1], rows[..|rows| - 1];
      PhaseMeans(rest, id);
      assert rows == rest + [last];
      assert forall x :: x in rows <==> x in rest || x == last;
    }
  }

  /** An unbroken operation has one executed row at most. */
  lemma {:induction false} ExecutedOnce(rows: seq<Entry>, i: nat, j: nat)
    requires i < j < |rows| && rows[i].id == rows[j].id && rows[i].status.Executed? && rows[j].status.Executed?
    ensures PhaseOf(rows, rows[i].id) == Broken
    decreases |rows|
  {
    var rest := rows[..|rows| - 1];
    if j < |rows| - 1 {
      ExecutedOnce(rest, i, j);
    } else {
      ExecutedSeen(rest, i);
    }
  }

  lemma {:induction false} ExecutedSeen(rows: seq<Entry>, i: nat)
    requires i < |rows| && rows[i].status.Executed?
    ensures PhaseOf(rows, rows[i].id) in {Executing, Reverting, Closed, Broken}
    decreases |rows|
  {
    if i < |rows| - 1 {
      ExecutedSeen(rows[..|rows| - 1], i);
    }
  }

  // ----- Orderly journals

  /** Tidy, and every operation is in the grammar: executed at most once, undone at most once. */
  ghost predicate Orderly(s: State) {
    Tidy(s) && forall id :: PhaseOf(s.journal, id) != Broken
  }

  /** The stage that a phase of the grammar is in. */
  function StageIn(phase: Phase): Stage {
    match phase
    case Fresh => Unseen
    case Open => Awaiting
    case Executing => Standing
    case Broken => Impossible
    case _ => Undoing
  }

  lemma {:induction false} PhaseIsStage(rows: seq<Entry>, id: nat)
    requires PhaseOf(rows, id) != Broken
    ensures StageOf(rows, id) == StageIn(PhaseOf(rows, id))
    decreases |rows|
  {
    if rows != [] {
      PhaseIsStage(rows[..|rows| - 1], id);
    }
  }

  /** Appending a row that fits. */
  lemma AppendRow(s: State, e: Entry, r: State)
    requires Orderly(s) && r.journal == s.journal + [e] && s.clock <= r.clock && e.id < r.clock && ExecutedOk(e)
    requires Next(PhaseOf(s.journal, e.id), e.status) != Broken
    requires forall f :: f in s.journal && f.id == e.id ==> Ends(f) == Ends(e)
    requires e.status.Executed? ==> forall f :: f in s.journal && f.id == e.id && f.status.Planned? ==> ActionOk(f.action, e)
    ensures Orderly(r)
  {
    forall id
      ensures PhaseOf(r.journal, id) != Broken
    {
      PhaseSnoc(s.journal, e, id);
    }
    PhaseIsStage(s.journal, e.id);
    AppendTidy(s, e, r);
  }

  lemma FreshId(s: State, id: nat)
    requires Orderly(s) && id >= s.clock
    ensures PhaseOf(s.journal, id) == Fresh
  {
    NoRowsFresh(s.journal, id);
  }

  lemma {:induction false} NoRowsFresh(rows: seq<Entry>, id: nat)
    requires forall e :: e in rows ==> e.id != id
    ensures PhaseOf(rows, id) == Fresh
    decreases |rows|
  {
    if rows != [] {
      NoRowsFresh(rows[..|rows| - 1], id);
    }
  }

  // ----- Scripts that open a new operation

  lemma NewRows(s: State, rows: seq<Entry>, r: State)
    requires Orderly(s) && NewOperation(s.clock, rows) && r.journal == s.journal + rows
    requires rows == [] || s.clock < r.clock
    requires s.clock <= r.clock
    ensures Orderly(r)
    ensures forall id: nat :: id < s.clock ==> PhaseOf(r.journal, id) == PhaseOf(s.journal, id)
  {
    if rows == [] {
      assert r.journal == s.journal;
    } else {
      FreshId(s, s.clock);
      PhaseMeans(s.journal, s.clock);
      var q := State(r.tree, s.journal + [rows[0]], r.clock);
      AppendRow(s, rows[0], q);
      forall id ensures PhaseOf(q.journal, id) == if id == s.clock then Open else PhaseOf(s.journal, id) {
        PhaseSnoc(s.journal, rows[0], id);
      }
      if |rows| == 2 {
        assert r.journal == q.journal + [rows[1]];
        assert forall f :: f in q.journal && f.id == s.clock ==> f == rows[0];
        AppendRow(q, rows[1], r);
        forall id ensures PhaseOf(r.journal, id) == if id == s.clock then Executing else PhaseOf(s.journal, id) {
          PhaseSnoc(q.journal, rows[1], id);
        }
      } else {
        assert r.journal == q.journal;
      }
    }
  }

  /** A script that opens a new operation, cut anywhere. */
  lemma NewOperationCut(s: State, steps: seq<Step>, n: nat)
    requires Orderly(s) && NewOperation(s.clock, RowsOf(steps)) && n <= |steps|
    ensures Orderly(Do(s, steps[..n]))
    ensures forall id: nat :: id < s.clock ==> PhaseOf(Do(s, steps[..n]).journal, id) == PhaseOf(s.journal, id)
  {
    RowsOfPrefix(steps, n);
    DoJournal(s, steps[..n]);
    DoClock(s, steps[..n]);
    assert NewOperation(s.clock, RowsOf(steps[..n]));
    if n == 0 {
      assert RowsOf(steps[..n]) == [];
    }
    NewRows(s, RowsOf(steps[..n]), Do(s, steps[..n]));
  }

  // ----- Undo scripts

  predicate Reversible(phase: Phase) {
    phase == Executing || phase == Reverting
  }

  lemma AppendUndo(s: State, e: Entry, status: Status, r: State)
    requires Orderly(s) && e in s.journal && e.status.Executed? && Reversible(PhaseOf(s.journal, e.id))
    requires status.UndoPlanned? || status.Undone?
    requires r.journal == s.journal + [UndoRow(e, status).entry] && s.clock <= r.clock
    ensures Orderly(r)
    ensures forall id: nat :: id != e.id ==> PhaseOf(r.journal, id) == PhaseOf(s.journal, id)
    ensures status.UndoPlanned? ==> Reversible(PhaseOf(r.journal, e.id))
  {
    AppendRow(s, UndoRow(e, status).entry, r);
    forall id: nat ensures PhaseOf(r.journal, id) == if id == e.id then Next(PhaseOf(s.journal, id), status) else PhaseOf(s.journal, id) {
      PhaseSnoc(s.journal, UndoRow(e, status).entry, id);
    }
  }

  lemma AppendUndoRows(s: State, e: Entry, rows: seq<Entry>, r: State)
    requires Orderly(s) && e in s.journal && e.status.Executed? && Reversible(PhaseOf(s.journal, e.id))
    requires UndoRows(e, rows) && r.journal == s.journal + rows && s.clock <= r.clock
    ensures Orderly(r)
    ensures forall id: nat :: id != e.id ==> PhaseOf(r.journal, id) == PhaseOf(s.journal, id)
  {
    if rows == [] {
      assert r.journal == s.journal;
    } else if |rows| == 1 {
      AppendUndo(s, e, rows[0].status, r);
    } else {
      var q := State(r.tree, s.journal + [rows[0]], r.clock);
      AppendUndo(s, e, UndoPlanned, q);
      assert r.journal == q.journal + [rows[1]];
      AppendUndo(q, e, Undone, r);
    }
  }

  lemma UndoCut(s: State, e: Entry, undone: set<nat>, only: Option<nat>, n: nat)
    requires Orderly(s) && e in s.journal && n <= |UndoScript(s, e, undone, only).Steps()|
    requires UndoScript(s, e, undone, only).out.Ignored? || Reversible(PhaseOf(s.journal, e.id))
    ensures var r := Do(s, UndoScript(s, e, undone, only).Steps()[..n]);
            Orderly(r) && s.journal <= r.journal
            && forall id: nat :: id != e.id || UndoScript(s, e, undone, only).out.Ignored? ==> PhaseOf(r.journal, id) == PhaseOf(s.journal, id)
  {
    var m := UndoScript(s, e, undone, only);
    var steps := m.Steps()[..n];
    if m.out.Ignored? {
      assert steps == [] && Do(s, steps) == s;
    } else {
      UndoScriptRows(s, e, undone, only);
      RowsOfPrefix(m.Steps(), n);
      UndoRowsPrefix(e, RowsOf(m.Steps()), RowsOf(steps));
      DoJournal(s, steps);
      DoClock(s, steps);
      AppendUndoRows(s, e, RowsOf(steps), Do(s, steps));
    }
  }

  // ----- Runs

  lemma UndoTurnOf(s: State, rows: seq<Entry>, undone: set<nat>, only: Option<nat>, fuel: nat)
    requires rows != []
    ensures var m := UndoScript(s, rows[|rows| - 1], undone, only);
            var r := RunJobs(s, UndoJobs(rows, undone, only), fuel);
            if fuel < |m.Steps()| then r.s == Do(s, m.Steps()[..fuel])
            else if m.out.Failed? then r.s == Do(s, m.Steps())
            else r.s == RunJobs(Do(s, m.Steps()), UndoJobs(rows[..|rows| - 1], undone, only), fuel - |m.Steps()|).s
  {
    var jobs := UndoJobs(rows, undone, only);
    assert jobs[1..] == UndoJobs(rows[..|rows| - 1], undone, only);
    RunTurn(s, jobs, fuel);
  }

  /** Executed rows still to be reversed belong to different operations that can be reversed. */
  ghost predicate Undoable(s: State, rows: seq<Entry>, undone: set<nat>) {
    (forall e :: e in rows ==> e in s.journal)
    && (forall e :: e in rows && e.status.Executed? && e.id !in undone ==> Reversible(PhaseOf(s.journal, e.id)))
    && (forall i, j :: 0 <= i < j < |rows| && rows[i].status.Executed? && rows[j].status.Executed? ==> rows[i].id != rows[j].id)
  }

  lemma {:induction false} UndoKeepsOrder(s: State, rows: seq<Entry>, undone: set<nat>, only: Option<nat>, fuel: nat)
    requires Orderly(s) && Undoable(s, rows, undone)
    ensures Orderly(RunJobs(s, UndoJobs(rows, undone, only), fuel).s)
    decreases |rows|
  {
    if rows != [] {
      var e, rest := rows[|rows| - 1], rows[..|rows| - 1];
      var m := UndoScript(s, e, undone, only);
      UndoTurnOf(s, rows, undone, only, fuel);
      UndoCut(s, e, undone, only, if fuel < |m.Steps()| then fuel else |m.Steps()|);
      if fuel >= |m.Steps()| {
        assert m.Steps()[..|m.Steps()|] == m.Steps();
        if !m.out.Failed? {
          UndoableRest(s, rows, undone, only, Do(s, m.Steps()));
          UndoKeepsOrder(Do(s, m.Steps()), rest, undone, only, fuel - |m.Steps()|);
        }
      }
    }
  }

  lemma UndoableRest(s: State, rows: seq<Entry>, undone: set<nat>, only: Option<nat>, r: State)
    requires rows != [] && Undoable(s, rows, undone) && s.journal <= r.journal
    requires forall id: nat :: id != rows[|rows| - 1].id || UndoScript(s, rows[|rows| - 1], undone, only).out.Ignored? ==>
               PhaseOf(r.journal, id) == PhaseOf(s.journal, id)
    ensures Undoable(r, rows[..|rows| - 1], undone)
  {
    var e, rest := rows[|rows| - 1], rows[..|rows| - 1];
    forall f | f in rest
      ensures f in r.journal
      ensures f.status.Executed? && f.id !in undone ==> Reversible(PhaseOf(r.journal, f.id))
    {
      assert f in rows;
      var x :| 0 <= x < |s.journal| && s.journal[x] == f;
      assert r.journal[x] == f;
      var i :| 0 <= i < |rest| && rest[i] == f;
      assert rows[i] == f;
    }
  }

  lemma UndoableAll(s: State)
    requires Orderly(s)
    ensures Undoable(s, s.journal, UndoneIds(s.journal))
  {
    var rows := s.journal;
    forall e | e in rows && e.status.Executed? && e.id !in UndoneIds(rows)
      ensures Reversible(PhaseOf(rows, e.id))
    {
      PhaseMeans(rows, e.id);
      var x :| 0 <= x < |rows| && rows[x] == e;
      ExecutedSeen(rows, x);
    }
    forall i, j | 0 <= i < j < |rows| && rows[i].status.Executed? && rows[j].status.Executed?
      ensures rows[i].id != rows[j].id
    {
      if rows[i].id == rows[j].id { ExecutedOnce(rows, i, j); }
    }
  }

  // ----- Batches

  /** No two proposals of the batch name the same pair of paths. */
  predicate DistinctPairs(ps: seq<Proposal>) {
    forall i, k :: 0 <= i < k < |ps| ==> ps[i].from != ps[k].from || ps[i].to != ps[k].to
  }

  /** What a later item may recover is still open. */
  ghost predicate Recoverables(s: State, ps: seq<Proposal>, i: nat, prior: seq<Entry>) {
    forall k, e :: i <= k < |ps| && e in prior && Pending(e, CompletedIds(prior), ps[k].from, ps[k].to) ==>
      e in s.journal && PhaseOf(s.journal, e.id) == Open
  }

  lemma RecoverKeepsOrder(s: State, q: Proposal, tp: Tree, prior: seq<Entry>, e: Entry, id: nat, r: State)
    requires Orderly(s) && WellFormed(tp) && PrecheckStatus(tp, q).MissingSource? && PendingPlanned(prior, q.from, q.to) == Some(id)
    requires ResolveExisting(s.tree, q.to) == Found && e == Entry(id, Executed, q.action, q.from, q.to) && r == Apply(s, Row(e))
    requires forall f :: f in prior && Pending(f, CompletedIds(prior), q.from, q.to) ==> f in s.journal && PhaseOf(s.journal, f.id) == Open
    ensures Orderly(r)
    ensures forall x: nat :: x != id ==> PhaseOf(r.journal, x) == PhaseOf(s.journal, x)
    ensures exists f :: f in s.journal && f.id == id && Ends(f) == (q.from, q.to)
  {
    var f :| f in prior && Pending(f, CompletedIds(prior), q.from, q.to) && f.id == id;
    PhaseMeans(s.journal, id);
    AppendRow(s, e, r);
    forall x: nat ensures PhaseOf(r.journal, x) == if x == id then Executing else PhaseOf(s.journal, x) {
      PhaseSnoc(s.journal, e, x);
    }
  }

  /** One item of a batch, cut or not. */
  lemma ItemKeepsOrder(s: State, ps: seq<Proposal>, i: nat, tp: Tree, prior: seq<Entry>, n: nat)
    requires WellFormed(s.tree) && WellFormed(tp) && Orderly(s) && i < |ps| && DistinctPairs(ps) && Recoverables(s, ps, i, prior)
    requires forall e :: e in prior ==> e.id < s.clock
    requires n <= |ItemScript(s, Precheck(tp, ps[i]), prior).Steps()|
    ensures var r := Do(s, ItemScript(s, Precheck(tp, ps[i]), prior).Steps()[..n]);
            Orderly(r) && Recoverables(r, ps, i + 1, prior) && s.clock <= r.clock
  {
    var c := Precheck(tp, ps[i]);
    var m := ItemScript(s, c, prior);
    var r := Do(s, m.Steps()[..n]);
    DoClock(s, m.Steps()[..n]);
    DoJournal(s, m.Steps()[..n]);
    if c.status.Ready? {
      ReadyRows(s, c, prior);
      NewOperationCut(s, m.Steps(), n);
      RecoverablesLater(s, ps, i, prior, r);
    } else if n == 0 {
      assert Do(s, m.Steps()[..0]) == s;
    } else {
      var step := m.act[0];
      assert m.Steps()[..1] == [step];
      DoOne(s, step);
      RecoverKeepsOrder(s, ps[i], tp, prior, step.entry, step.entry.id, r);
      RecoverablesOther(s, ps, i, prior, step.entry, r);
    }
  }

  lemma RecoverablesLater(s: State, ps: seq<Proposal>, i: nat, prior: seq<Entry>, r: State)
    requires Recoverables(s, ps, i, prior) && s.journal <= r.journal && forall e :: e in prior ==> e.id < s.clock
    requires forall id: nat :: id < s.clock ==> PhaseOf(r.journal, id) == PhaseOf(s.journal, id)
    ensures Recoverables(r, ps, i + 1, prior)
  {
    assert forall e :: e in s.journal ==> e in r.journal by { StaysIn(s.journal, r.journal); }
  }

  lemma RecoverablesOther(s: State, ps: seq<Proposal>, i: nat, prior: seq<Entry>, e: Entry, r: State)
    requires Orderly(s) && i < |ps| && DistinctPairs(ps) && Recoverables(s, ps, i, prior) && s.journal <= r.journal
    requires exists f :: f in s.journal && f.id == e.id && Ends(f) == (ps[i].from, ps[i].to)
    requires forall id: nat :: id != e.id ==> PhaseOf(r.journal, id) == PhaseOf(s.journal, id)
    ensures Recoverables(r, ps, i + 1, prior)
  {
    StaysIn(s.journal, r.journal);
    var f :| f in s.journal && f.id == e.id && Ends(f) == (ps[i].from, ps[i].to);
    forall k, x | i + 1 <= k < |ps| && x in prior && Pending(x, CompletedIds(prior), ps[k].from, ps[k].to)
      ensures x in r.journal && PhaseOf(r.journal, x.id) == Open
    {
      assert x in s.journal && Ends(x) == (ps[k].from, ps[k].to);
      assert x.id != e.id;
    }
  }

  /** Between two items of a batch. */
  ghost predicate InBatch(s: State, ps: seq<Proposal>, i: nat, prior: seq<Entry>) {
    WellFormed(s.tree) && Orderly(s) && Recoverables(s, ps, i, prior) && forall e :: e in prior ==> e.id < s.clock
  }

  /** A batch keeps the journal orderly, wherever it is cut. */
  lemma BatchKeepsOrder(s: State, ps: seq<Proposal>, tp: Tree, prior: seq<Entry>, jobs: seq<Job>, fuel: nat)
    requires WellFormed(tp) && DistinctPairs(ps) && InBatch(s, ps, 0, prior) && ItemsFrom(jobs, Checks(tp, ps), 0, prior)
    ensures Orderly(RunJobs(s, jobs, fuel).s)
  {
    var inBatch := (i: nat, r: State) => InBatch(r, ps, i, prior);
    forall i: nat, r: State, n: nat | i < |ps| && InBatch(r, ps, i, prior) && n <= |ItemScript(r, Precheck(tp, ps[i]), prior).Steps()|
      ensures InBatch(Do(r, ItemScript(r, Precheck(tp, ps[i]), prior).Steps()[..n]), ps, i + 1, prior)
    {
      ItemKeepsOrder(r, ps, i, tp, prior, n);
      ScriptKeepsWellFormed(r, Item(Precheck(tp, ps[i]), prior), n);
    }
    var k := BatchPreserves(s, jobs, Checks(tp, ps), 0, prior, fuel, inBatch);
  }

  lemma RecoverablesAll(s: State, ps: seq<Proposal>)
    requires Orderly(s)
    ensures Recoverables(s, ps, 0, s.journal)
  {
    forall k, e | 0 <= k < |ps| && e in s.journal && Pending(e, CompletedIds(s.journal), ps[k].from, ps[k].to)
      ensures PhaseOf(s.journal, e.id) == Open
    {
      PhaseMeans(s.journal, e.id);
    }
  }

  // ----- Sessions

  predicate PairsDistinct(cmd: Command) {
    cmd.Execute? ==> DistinctPairs(cmd.proposals)
  }

  lemma CommandKeepsOrder(s: State, cmd: Command, fuel: nat)
    requires WellFormed(s.tree) && Orderly(s) && PairsDistinct(cmd)
    ensures WellFormed(RunCommand(s, cmd, fuel).s.tree) && Orderly(RunCommand(s, cmd, fuel).s)
  {
    var jobs := JobsOf(s, cmd);
    RunKeepsWellFormed(s, jobs, fuel);
    match cmd {
      case Execute(ps) =>
        RecoverablesAll(s, ps);
        BatchKeepsOrder(s, ps, s.tree, s.journal, jobs, fuel);
      case Undo(only) =>
        UndoableAll(s);
        UndoKeepsOrder(s, s.journal, UndoneIds(s.journal), only, fuel);
      case _ =>
        forall r: State, j: Job, n: nat | WellFormed(r.tree) && Orderly(r) && j in jobs && n <= |ScriptOf(r, j).Steps()|
          ensures WellFormed(Do(r, ScriptOf(r, j).Steps()[..n]).tree) && Orderly(Do(r, ScriptOf(r, j).Steps()[..n]))
        {
          SingleRows(r, j);
          NewOperationCut(r, ScriptOf(r, j).Steps(), n);
          ScriptKeepsWellFormed(r, j, n);
        }
        RunPreserves(s, jobs, fuel, (r: State) => WellFormed(r.tree) && Orderly(r));
    }
  }

  /**
   The journal language: over any session whose batches repeat no pair of paths, cut off anywhere,
   the rows of every operation spell planned, at most one executed, any number of undo attempts and
   at most one undone, and they agree on the paths.
   */
  lemma {:induction false} SessionIsOrderly(s: State, orders: seq<Order>)
    requires WellFormed(s.tree) && s.journal == []
    requires forall o :: o in orders ==> PairsDistinct(o.cmd)
    ensures var r := RunSession(s, orders);
            WellFormed(r.tree) && Orderly(r)
  {
    assert forall id :: PhaseOf([], id) == Fresh && StageOf([], id) == Unseen;
    forall r: State, o: Order | WellFormed(r.tree) && Orderly(r) && o in orders
      ensures WellFormed(RunCommand(r, o.cmd, o.fuel).s.tree) && Orderly(RunCommand(r, o.cmd, o.fuel).s)
    {
      CommandKeepsOrder(r, o.cmd, o.fuel);
    }
    SessionPreserves(s, orders, (r: State) => WellFormed(r.tree) && Orderly(r));
  }

  /**
   A batch that repeats a pair of paths does break the grammar: where a move is pending and its source
   has gone, both items recover the same operation, which then has two executed rows.
   */
  lemma RepeatedPairBreaks(s: State, q: Proposal, id: nat, fuel: nat)
    requires q.action.Move? && !q.destinationExists && fuel >= 2
    requires PendingPlanned(s.journal, q.from, q.to) == Some(id) && !Unsafe(q.from) && !Unsafe(q.to)
    requires q.from !in s.tree && q.to in s.tree
    ensures PhaseOf(RunCommand(s, Execute([q, q]), fuel).s.journal, id) == Broken
  {
    var row := Row(Entry(id, Executed, Move, q.from, q.to));
    var jobs := ItemJobs(s.tree, [q, q], s.journal);
    RecoveryTurn(s, q, id, s, jobs, fuel);
    var once := Apply(s, row);
    RecoveryTurn(s, q, id, once, jobs[1..], fuel - 1);
    var twice := Apply(once, row);
    assert jobs[1..][1..] == [];
    ExecutedOnce(twice.journal, |s.journal|, |s.journal| + 1);
  }

  /** One recovering item at the head of the jobs. */
  lemma RecoveryTurn(s: State, q: Proposal, id: nat, r: State, jobs: seq<Job>, fuel: nat)
    requires q.action.Move? && !q.destinationExists && fuel >= 1
    requires PendingPlanned(s.journal, q.from, q.to) == Some(id) && !Unsafe(q.from) && !Unsafe(q.to)
    requires q.from !in s.tree && q.to in s.tree && r.tree == s.tree
    requires jobs != [] && jobs[0] == Item(Precheck(s.tree, q), s.journal)
    ensures var after := Apply(r, Row(Entry(id, Executed, Move, q.from, q.to)));
            RunJobs(r, jobs, fuel).s == RunJobs(after, jobs[1..], fuel - 1).s && after.tree == r.tree
  {
    var row := Row(Entry(id, Executed, Move, q.from, q.to));
    assert ItemScript(r, Precheck(s.tree, q), s.journal).Steps() == [row];
    DoOne(r, row);
    RunTurn(r, jobs, fuel);
  }
}
