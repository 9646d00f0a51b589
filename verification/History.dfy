/** The operation history shown to the user, and its agreement with what undo would do. */
module History {
  import opened FileSystem
  import opened Journal
  import opened Scripts
  import opened Steps
  import opened Sessions
  import opened JournalRows
  import opened JournalStages
  import opened JournalLanguage
  import opened UndoRun
  import opened Wrappers

  datatype Operation = Operation(id: nat, action: Action, from: Path, to: Path, latest: Status, canUndo: bool)

  // ----- Folding the journal

  /** Index of the first operation with this id, or the length. */
  function Find(ops: seq<Operation>, id: nat): (i: nat)
    ensures i <= |ops| && (forall j :: 0 <= j < i ==> ops[j].id != id) && (i < |ops| ==> ops[i].id == id)
  {
    if ops == [] then 0 else if ops[0].id == id then 0 else 1 + Find(ops[1..], id)
  }

  function OpenOperation(e: Entry): Operation {
    Operation(e.id, e.action, e.from, e.to, e.status, e.status.Executed?)
  }

  function FoldRow(ops: seq<Operation>, e: Entry): seq<Operation> {
    var i := Find(ops, e.id);
    match e.status
    case Planned => ops + [OpenOperation(e)]
    case Executed => if i < |ops| then ops[i := ops[i].(latest := Executed, canUndo := true)] else ops + [OpenOperation(e)]
    case _ => if i < |ops| then ops[i := ops[i].(latest := e.status, canUndo := false)] else ops
  }

  function Fold(rows: seq<Entry>): seq<Operation> {
    if rows == [] then [] else FoldRow(Fold(rows[..|rows| - 1]), rows[|rows| - 1])
  }

  /** Why undo would refuse, from the tree alone. */
  predicate Blocked(t: Tree, op: Operation) {
    match op.action
    case ReadmeWrite => false
    case CreateDir => op.to in t && (!IsDir(t, op.to) || HasChild(t, op.to))
    case CreateFile => op.to in t && (!IsFile(t, op.to) || t[op.to].content != "")
    case _ => if op.to !in t then op.from !in t else op.from in t
  }

  function CheckTree(t: Tree, op: Operation): Operation {
    if op.canUndo && Blocked(t, op) then op.(canUndo := false) else op
  }

  function HistoryOf(t: Tree, rows: seq<Entry>): (ops: seq<Operation>)
    ensures |ops| == |Fold(rows)| && forall i :: 0 <= i < |ops| ==> ops[i] == CheckTree(t, Fold(rows)[i])
  {
    var ops := Fold(rows);
    seq(|ops|, i requires 0 <= i < |ops| => CheckTree(t, ops[i]))
  }

  /** One row: the search for its operation, and the change. */
  method ReadRow(ops: seq<Operation>, e: Entry) returns (more: seq<Operation>)
    ensures more == FoldRow(ops, e)
  {
    var i := 0;
    while i < |ops| && ops[i].id != e.id
      invariant i <= |ops| && forall j :: 0 <= j < i ==> ops[j].id != e.id
    {
      i := i + 1;
    }
    assert i == Find(ops, e.id);
    more := ops;
    match e.status {
      case Planned => more := ops + [OpenOperation(e)];
      case Executed =>
        if i < |ops| {
          more := ops[i := ops[i].(latest := Executed, canUndo := true)];
        } else {
          more := ops + [OpenOperation(e)];
        }
      case _ =>
        if i < |ops| {
          more := ops[i := ops[i].(latest := e.status, canUndo := false)];
        }
    }
  }

  /** `read_operation_history`, before sorting. */
  method ReadHistory(t: Tree, rows: seq<Entry>) returns (ops: seq<Operation>)
    ensures ops == HistoryOf(t, rows)
  {
    ops := [];
    var n := 0;
    while n < |rows|
      invariant n <= |rows| && ops == Fold(rows[..n])
    {
      assert rows[..n + 1][..n] == rows[..n];
      ops := ReadRow(ops, rows[n]);
      n := n + 1;
    }
    assert rows[..n] == rows;
    ghost var folded := ops;
    n := 0;
    while n < |ops|
      invariant n <= |ops| == |folded|
      invariant forall k :: 0 <= k < n ==> ops[k] == CheckTree(t, folded[k])
      invariant forall k :: n <= k < |ops| ==> ops[k] == folded[k]
    {
      if ops[n].canUndo && Blocked(t, ops[n]) {
        ops := ops[n := ops[n].(canUndo := false)];
      }
      n := n + 1;
    }
  }

  // ----- What the fold says

  /** The status of the newest row of an operation. */
  function NewestStatus(rows: seq<Entry>, id: nat): Status {
    if rows == [] then Planned else if rows[|rows| - 1].id == id then rows[|rows| - 1].status else NewestStatus(rows[..|rows| - 1], id)
  }

  /** The entry of an operation, once its first row is in. */
  ghost predicate Listed(rows: seq<Entry>, ops: seq<Operation>, id: nat) {
    var i, stage := Find(ops, id), StageOf(rows, id);
    stage != Unseen && stage != Impossible ==>
      i < |ops|
      && (ops[i].canUndo <==> stage == Standing) && ops[i].latest == NewestStatus(rows, id)
      && (exists e :: e in rows && e.id == id && e.status.Planned? && ops[i].action == e.action && ops[i].from == e.from && ops[i].to == e.to)
  }

  lemma FindUpdate(ops: seq<Operation>, i: nat, op: Operation, id: nat)
    requires i < |ops| && op.id == ops[i].id
    ensures Find(ops[i := op], id) == Find(ops, id)
  {
    var more := ops[i := op];
    var a, b := Find(ops, id), Find(more, id);
    assert forall j :: 0 <= j < |ops| ==> more[j].id == ops[j].id;
    assert a < |ops| ==> more[a].id == id;
    assert b < |ops| ==> ops[b].id == id;
  }

  lemma FindAppend(ops: seq<Operation>, op: Operation, id: nat)
    ensures Find(ops + [op], id) == if Find(ops, id) < |ops| || op.id != id then (if Find(ops, id) < |ops| then Find(ops, id) else |ops| + 1) else |ops|
  {
    var more := ops + [op];
    var a, b := Find(ops, id), Find(more, id);
    assert forall j :: 0 <= j < |ops| ==> more[j] == ops[j];
    assert more[|ops|] == op;
    assert b < |ops| ==> ops[b].id == id;
  }

  lemma {:induction false} FoldLists(rows: seq<Entry>, id: nat)
    ensures Listed(rows, Fold(rows), id)
    ensures StageOf(rows, id) == Unseen ==> Find(Fold(rows), id) == |Fold(rows)|
    decreases |rows|
  {
    if rows != [] {
      var last, rest := rows[|rows| - 1], rows[..|rows| - 1];
      var ops := Fold(rest);
      FoldLists(rest, id);
      assert rows == rest + [last];
      assert forall x :: x in rows <==> x in rest || x == last;
      var i := Find(ops, last.id);
      if last.status.Planned? || (last.status.Executed? && i == |ops|) {
        FindAppend(ops, OpenOperation(last), id);
      } else if i < |ops| {
        FindUpdate(ops, i, ops[i].(latest := last.status, canUndo := last.status.Executed?), id);
      }
    }
  }

  /** The history gives the operation the status of its newest row. */
  lemma LatestIsNewest(s: State, k: nat)
    requires Tidy(s) && k < |s.journal| && forall j :: k < j < |s.journal| ==> s.journal[j].id != s.journal[k].id
    ensures var i := Find(Fold(s.journal), s.journal[k].id);
            i < |HistoryOf(s.tree, s.journal)| && HistoryOf(s.tree, s.journal)[i].id == s.journal[k].id
            && HistoryOf(s.tree, s.journal)[i].latest == s.journal[k].status
  {
    var id := s.journal[k].id;
    StageMeans(s.journal, id);
    assert s.journal[k] in s.journal;
    FoldLists(s.journal, id);
    NewestIs(s.journal, k);
  }

  lemma {:induction false} NewestIs(rows: seq<Entry>, k: nat)
    requires k < |rows| && forall j :: k < j < |rows| ==> rows[j].id != rows[k].id
    ensures NewestStatus(rows, rows[k].id) == rows[k].status
    decreases |rows|
  {
    if k < |rows| - 1 {
      NewestIs(rows[..|rows| - 1], k);
    }
  }

  // ----- Undoing one operation

  /** The outcomes that appear in the report of an undo. */
  function Reported(outs: seq<Outcome>): seq<Outcome> {
    if outs == [] then [] else (if outs[0].Ignored? then [] else [outs[0]]) + Reported(outs[1..])
  }

  /** The row concerns undo_operation: it was executed, for this operation. */
  predicate Concerns(e: Entry, id: nat) {
    e.status.Executed? && e.id == id
  }

  /**
   The newest executed row of the operation decides how the run goes on. After it come the rows before
   it, in the state its script leaves.
   */
  lemma {:induction false} FirstRow(s: State, rows: seq<Entry>, undone: set<nat>, id: nat, fuel: nat, e: Entry)
      returns (f: Entry, rest: seq<Entry>)
    requires e in rows && Concerns(e, id) && id !in undone
    ensures |rest| < |rows| && rest == rows[..|rest|] && f == rows[|rest|] && Concerns(f, id)
    ensures forall g :: g in rows && Concerns(g, id) ==> g == f || g in rest
    ensures FirstTurn(s, f, rest, undone, id, fuel, RunJobs(s, UndoJobs(rows, undone, Some(id)), fuel))
    decreases |rows|
  {
    var last, before := rows[|rows| - 1], rows[..|rows| - 1];
    assert rows == before + [last];
    if Concerns(last, id) {
      f, rest := last, before;
      LastTurn(s, rows, undone, id, fuel);
    } else {
      LastPasses(s, rows, undone, id, fuel);
      f, rest := FirstRow(s, before, undone, id, fuel, e);
    }
  }

  lemma LastTurn(s: State, rows: seq<Entry>, undone: set<nat>, id: nat, fuel: nat)
    requires rows != [] && Concerns(rows[|rows| - 1], id) && id !in undone
    ensures FirstTurn(s, rows[|rows| - 1], rows[..|rows| - 1], undone, id, fuel, RunJobs(s, UndoJobs(rows, undone, Some(id)), fuel))
  {
    var jobs, m := UndoJobs(rows, undone, Some(id)), UndoScript(s, rows[|rows| - 1], undone, Some(id));
    UndoJobsTail(rows, undone, Some(id));
    RunTurn(s, jobs, fuel);
    UndoNotIgnored(s, rows[|rows| - 1], undone);
    if fuel >= |m.Steps()| && !m.out.Failed? {
      ReportAdds(m.out, RunJobs(Do(s, m.Steps()), jobs[1..], fuel - |m.Steps()|).outs);
    }
  }

  lemma LastPasses(s: State, rows: seq<Entry>, undone: set<nat>, id: nat, fuel: nat)
    requires rows != [] && (!Concerns(rows[|rows| - 1], id) || id in undone)
    ensures var r, u := RunJobs(s, UndoJobs(rows, undone, Some(id)), fuel), RunJobs(s, UndoJobs(rows[..|rows| - 1], undone, Some(id)), fuel);
            r.s == u.s && r.end == u.end && Reported(r.outs) == Reported(u.outs)
  {
    var jobs := UndoJobs(rows, undone, Some(id));
    UndoJobsTail(rows, undone, Some(id));
    RunTurn(s, jobs, fuel);
    OtherPasses(s, rows[|rows| - 1], undone, id);
    ReportAdds(Ignored, RunJobs(s, jobs[1..], fuel).outs);
  }

  /** The run r begins with the turn of row f, and goes on with the rows in `rest`. */
  predicate FirstTurn(s: State, f: Entry, rest: seq<Entry>, undone: set<nat>, id: nat, fuel: nat, r: Run) {
    var m := UndoScript(s, f, undone, Some(id));
    if fuel < |m.Steps()| then r.end.Crashed? && r.s == Do(s, m.Steps()[..fuel])
    else if m.out.Failed? then r.end.Stopped? && r.s == Do(s, m.Steps())
    else
      var u := RunJobs(Do(s, m.Steps()), UndoJobs(rest, undone, Some(id)), fuel - |m.Steps()|);
      r.s == u.s && r.end == u.end && Reported(r.outs) == [m.out] + Reported(u.outs)
  }

  lemma OtherPasses(s: State, e: Entry, undone: set<nat>, id: nat)
    requires !Concerns(e, id) || id in undone
    ensures var m := UndoScript(s, e, undone, Some(id)); m.Steps() == [] && m.out.Ignored? && Do(s, m.Steps()) == s
  {
    assert Do(s, []) == s;
  }

  lemma ReportAdds(out: Outcome, outs: seq<Outcome>)
    ensures Reported([out] + outs) == (if out.Ignored? then [] else [out]) + Reported(outs)
  {
    assert ([out] + outs)[1..] == outs;
  }

  lemma {:induction false} UndoNotIgnored(s: State, e: Entry, undone: set<nat>)
    requires e.status.Executed? && e.id !in undone
    ensures !UndoScript(s, e, undone, Some(e.id)).out.Ignored?
  {
  }

  /** Undo reports the operation done, and nothing else. */
  predicate Succeeded(r: Run) {
    r.end.Finished? && Reported(r.outs) != [] && forall out :: out in Reported(r.outs) ==> out.Done?
  }

  /** Undo skips the operation and changes nothing, not even the journal. */
  predicate Declined(s: State, r: Run) {
    r.end.Finished? && Reported(r.outs) != [] && r.s == s && forall out :: out in Reported(r.outs) ==> out.Skipped?
  }

  /** Undo finds nothing to undo: its report is empty, which its caller is told as an error. */
  predicate NotUndoable(s: State, r: Run) {
    r.end.Finished? && Reported(r.outs) == [] && r.s == s
  }

  /** Rows of other operations, and of those undone before, pass by. */
  lemma {:induction false} NothingToUndo(s: State, rows: seq<Entry>, undone: set<nat>, id: nat, fuel: nat)
    requires id in undone || forall e :: e in rows ==> !Concerns(e, id)
    ensures NotUndoable(s, RunJobs(s, UndoJobs(rows, undone, Some(id)), fuel))
    decreases |rows|
  {
    if rows != [] {
      assert rows[|rows| - 1] in rows;
      LastPasses(s, rows, undone, id, fuel);
      NothingToUndo(s, rows[..|rows| - 1], undone, id, fuel);
    }
  }

  /** If every executed row of the operation is skipped without a step, so is the operation. */
  lemma {:induction false} AllSkipped(s: State, rows: seq<Entry>, undone: set<nat>, id: nat, fuel: nat)
    requires id !in undone
    requires forall e :: e in rows && Concerns(e, id) ==>
               UndoScript(s, e, undone, Some(id)).out.Skipped? && UndoScript(s, e, undone, Some(id)).Steps() == []
    ensures var r := RunJobs(s, UndoJobs(rows, undone, Some(id)), fuel);
            r.end.Finished? && r.s == s && forall out :: out in Reported(r.outs) ==> out.Skipped?
    decreases |rows|
  {
    if e :| e in rows && Concerns(e, id) {
      var f, rest := FirstRow(s, rows, undone, id, fuel, e);
      assert Do(s, []) == s;
      AllSkipped(s, rest, undone, id, fuel);
    } else {
      NothingToUndo(s, rows, undone, id, fuel);
    }
  }

  /** A run that gets past the row of a README write has written rows. */
  lemma {:induction false} ReadmeMoves(s: State, rows: seq<Entry>, undone: set<nat>, id: nat, fuel: nat, e: Entry)
    requires e in rows && Concerns(e, id) && id !in undone && e.action.ReadmeWrite? && ExecutedOk(e)
    ensures var r := RunJobs(s, UndoJobs(rows, undone, Some(id)), fuel);
            r.end.Finished? ==> r.s.clock > s.clock
    decreases |rows|
  {
    var f, rest := FirstRow(s, rows, undone, id, fuel, e);
    var m := UndoScript(s, f, undone, Some(id));
    if fuel >= |m.Steps()| && !m.out.Failed? {
      var q := Do(s, m.Steps());
      DoClock(s, m.Steps());
      RunClock(q, UndoJobs(rest, undone, Some(id)), fuel - |m.Steps()|);
      if f == e {
        assert m.prep != [];
      } else {
        ReadmeMoves(q, rest, undone, id, fuel - |m.Steps()|, e);
      }
    }
  }

  lemma RunClock(s: State, jobs: seq<Job>, fuel: nat)
    ensures RunJobs(s, jobs, fuel).s.clock >= s.clock
  {
    forall r: State, j: Job, n: nat | r.clock >= s.clock && j in jobs && n <= |ScriptOf(r, j).Steps()|
      ensures Do(r, ScriptOf(r, j).Steps()[..n]).clock >= s.clock
    {
      DoClock(r, ScriptOf(r, j).Steps()[..n]);
    }
    RunPreserves(s, jobs, fuel, (r: State) => r.clock >= s.clock);
  }

  /** No proper ancestor of p is a regular file. */
  predicate NoFileAbove(t: Tree, p: Path) {
    forall n :: 0 <= n < |p| ==> !IsFile(t, p[..n])
  }

  lemma {:induction false} NoFileAboveMakes(t: Tree, p: Path)
    requires WellFormed(t) && NoFileAbove(t, p) && p != []
    ensures CanMakeDirs(t, Parent(p))
    decreases |p|
  {
    var d := Parent(p);
    assert d == p[..|p| - 1];
    assert !IsFile(t, d);
    if d !in t {
      forall n | 0 <= n < |d| ensures !IsFile(t, d[..n]) {
        assert d[..n] == p[..n];
      }
      NoFileAboveMakes(t, d);
    }
  }

  lemma {:induction false} FileAboveStops(t: Tree, p: Path, n: nat)
    requires WellFormed(t) && n < |p| && IsFile(t, p[..n])
    ensures !CanMakeDirs(t, Parent(p)) && p !in t
    decreases |p|
  {
    var d := Parent(p);
    if n < |d| {
      assert d[..n] == p[..n];
      FileAboveStops(t, d, n);
    } else {
      assert d == p[..n];
    }
  }

  /** Directories can be made above p exactly when no file is in the way. */
  lemma FileAboveIff(t: Tree, p: Path)
    requires WellFormed(t) && p != []
    ensures CanMakeDirs(t, Parent(p)) <==> NoFileAbove(t, p)
  {
    if NoFileAbove(t, p) {
      NoFileAboveMakes(t, p);
    } else {
      var n: nat :| n < |p| && IsFile(t, p[..n]);
      FileAboveStops(t, p, n);
    }
  }

  /** What undo needs from the tree beyond what the history looks at. */
  predicate Supported(t: Tree, op: Operation) {
    match op.action
    case CreateDir => true
    case CreateFile => true
    case ReadmeWrite => !IsDir(t, README) && (if op.from in t then IsFile(t, op.from) else WithAbsent(op.from) in t)
    case _ => NoFileAbove(t, op.from)
  }

  predicate MovesBelowItself(op: Operation) {
    (op.action.Move? || op.action.Trash?) && Above(op.to, op.from)
  }

  /** The history shows the row of this executed operation, under the action it was planned with. */
  predicate Shows(op: Operation, e: Entry) {
    op.id == e.id && op.from == e.from && op.to == e.to && ActionOk(op.action, e)
  }

  lemma MoveScriptAgrees(s: State, e: Entry, op: Operation)
    requires WellFormed(s.tree) && e.status.Executed? && ExecutedOk(e) && Shows(op, e) && (e.action.Move? || e.action.Trash?)
    ensures var m := UndoMove(s, e);
            (!Blocked(s.tree, op) ==> m.out == if Supported(s.tree, op) && !MovesBelowItself(op) then Done else Failed)
            && (Blocked(s.tree, op) ==> m.out.Skipped? && m.Steps() == [])
  {
    var t := s.tree;
    FileAboveIff(t, e.from);
    if e.from in t {
      if Above(e.to, e.from) { AncestorsAreDirs(t, e.from, e.to); }
      assert IsDir(t, Parent(e.from));
      assert MkdirSteps(t, Parent(e.from)) == [];
    } else if e.to in t {
      assert e.to != e.from;
      assert e.to <= e.from <==> Above(e.to, e.from);
    }
  }

  lemma ReadmeScriptAgrees(s: State, e: Entry, op: Operation)
    requires WellFormed(s.tree) && e.status.Executed? && ExecutedOk(e) && Shows(op, e) && e.action.ReadmeWrite?
    ensures var m := UndoReadme(s, e);
            (!Blocked(s.tree, op) ==> (m.out.Done? <==> Supported(s.tree, op)) && !m.out.Ignored?) && m.prep != []
  {
  }

  /** What decides whether an undo that is not refused gets through. */
  predicate Reverts(t: Tree, op: Operation) {
    Supported(t, op) && !MovesBelowItself(op)
  }

  /** The outcome of the undo script of an executed row, against what the history says about it. */
  lemma ScriptAgrees(s: State, e: Entry, undone: set<nat>, op: Operation)
    requires WellFormed(s.tree) && e.status.Executed? && ExecutedOk(e) && e.id !in undone && Shows(op, e)
    ensures var m := UndoScript(s, e, undone, Some(e.id));
            (!Blocked(s.tree, op) ==> (m.out.Done? <==> Reverts(s.tree, op)) && (!m.out.Done? && !op.action.ReadmeWrite? ==> m.out.Failed?))
            && (Blocked(s.tree, op) && !e.action.ReadmeWrite? ==> m.out.Skipped? && m.Steps() == [])
  {
    match e.action {
      case CreateDir =>
      case CreateFile =>
      case ReadmeWrite => ReadmeScriptAgrees(s, e, op);
      case _ => MoveScriptAgrees(s, e, op);
    }
  }

  // ----- An operation with several executed rows

  /** The operation has been taken back: undoing it once more is done again. */
  predicate Back(t: Tree, op: Operation) {
    match op.action
    case CreateDir => op.to !in t
    case CreateFile => op.to !in t
    case ReadmeWrite => Supported(t, op)
    case _ => op.to !in t && op.from in t
  }

  lemma BackIsDone(s: State, e: Entry, undone: set<nat>, op: Operation)
    requires e.status.Executed? && ExecutedOk(e) && e.id !in undone && Shows(op, e) && Back(s.tree, op)
    ensures UndoScript(s, e, undone, Some(e.id)).out.Done?
  {
  }

  /** What is done once stays done. */
  lemma DoneIsBack(s: State, e: Entry, undone: set<nat>, op: Operation)
    requires WellFormed(s.tree) && e.status.Executed? && ExecutedOk(e) && e.id !in undone && Shows(op, e) && !Blocked(s.tree, op)
    requires UndoScript(s, e, undone, Some(e.id)).out.Done?
    ensures Back(Do(s, UndoScript(s, e, undone, Some(e.id)).Steps()).tree, op)
  {
    var m := UndoScript(s, e, undone, Some(e.id));
    if op.action.Move? || op.action.Trash? {
      MoveIsBack(s, e);
    } else {
      ScriptSucceeds(s, Reverse(e, undone, Some(e.id)));
      ShortIsBack(s, e, m, op);
    }
  }

  lemma MoveIsBack(s: State, e: Entry)
    requires WellFormed(s.tree) && ExecutedOk(e) && e.status.Executed? && (e.action.Move? || e.action.Trash?) && UndoMove(s, e).out.Done?
    ensures var t := Do(s, UndoMove(s, e).Steps()).tree; e.to !in t && e.from in t
  {
    var m := UndoMove(s, e);
    if e.to in s.tree {
      UndoMovePrepared(s, e);
      Acted(s, m);
      MovedAway(s.tree, e.to, e.from);
    } else {
      assert m.Steps() == [UndoRow(e, Undone)];
      DoOne(s, UndoRow(e, Undone));
    }
  }

  /** After a rename the old path is free, directories made on the way or not. */
  lemma MovedAway(t: Tree, a: Path, b: Path)
    requires WellFormed(t) && a in t && b !in t && b != [] && !(a <= b)
    ensures var u := Moved(AddDirs(t, Parent(b)), a, b); a !in u && b in u
  {
    var u := AddDirs(t, Parent(b));
    AddDirsAdds(t, Parent(b));
    MovedAt(u, a, b, a);
    MovedAt(u, a, b, b);
    assert a + b[|b|..] == a;
    if b <= a {
      AncestorsAreDirs(t, a, b);
    }
  }

  /** Undo rows around at most one call. */
  lemma ShortIsBack(s: State, e: Entry, m: Script, op: Operation)
    requires e.status.Executed? && ExecutedOk(e) && Shows(op, e) && !op.action.Move? && !op.action.Trash? && m.out.Done?
    requires m == match e.action case CreateDir => UndoCreateDir(s, e) case CreateFile => UndoCreateFile(s, e) case _ => UndoReadme(s, e)
    ensures Back(Do(s, m.Steps()).tree, op)
  {
    OneShotCut(s, e, m, |m.Steps()|);
    assert m.Steps()[..|m.Steps()|] == m.Steps();
    if e.action.ReadmeWrite? {
      AbsentIsNotReadme(e.from);
    }
  }

  lemma AbsentIsNotReadme(p: Path)
    ensures WithAbsent(p) != README
  {
    if p != [] {
      var name := WithAbsent(p)[|p| - 1];
      assert name[|name| - 1] == 't' && README[0][|README[0]| - 1] == 'd';
    }
  }

  /** The executed rows among `rows` are of this operation as the history shows it. */
  ghost predicate AllShown(rows: seq<Entry>, id: nat, op: Operation) {
    forall e :: e in rows && Concerns(e, id) ==> Shows(op, e) && ExecutedOk(e)
  }

  /** When nothing is in the way, all executed rows of an operation are undone, the later ones in a tree where that is done already. */
  lemma {:induction false} AllDone(s: State, rows: seq<Entry>, undone: set<nat>, id: nat, fuel: nat, op: Operation)
    requires WellFormed(s.tree) && id !in undone && AllShown(rows, id, op)
    requires Back(s.tree, op) || (!Blocked(s.tree, op) && Reverts(s.tree, op))
    ensures var r := RunJobs(s, UndoJobs(rows, undone, Some(id)), fuel);
            r.end.Crashed? || (r.end.Finished? && forall out :: out in Reported(r.outs) ==> out.Done?)
    decreases |rows|
  {
    if e :| e in rows && Concerns(e, id) {
      var f, rest := FirstRow(s, rows, undone, id, fuel, e);
      var m := UndoScript(s, f, undone, Some(id));
      if Back(s.tree, op) {
        BackIsDone(s, f, undone, op);
      } else {
        ScriptAgrees(s, f, undone, op);
      }
      if fuel >= |m.Steps()| {
        DoneIsBack(s, f, undone, op);
        assert m.Steps()[..|m.Steps()|] == m.Steps();
        ScriptKeepsWellFormed(s, Reverse(f, undone, Some(id)), |m.Steps()|);
        AllDone(Do(s, m.Steps()), rest, undone, id, fuel - |m.Steps()|, op);
      }
    } else {
      NothingToUndo(s, rows, undone, id, fuel);
    }
  }

  // ----- The agreement

  /** Some executed row of the operation is that of a README write. */
  predicate WroteReadme(rows: seq<Entry>, id: nat) {
    exists e :: e in rows && Concerns(e, id) && e.action.ReadmeWrite?
  }

  /** The operation was executed, and has no Undone row. */
  predicate ToBeUndone(rows: seq<Entry>, id: nat) {
    id in IdsWith(rows, {Executed}) && id !in UndoneIds(rows)
  }

  /**
   The history against undo, for every operation of every tidy journal.
   The history offers an undo exactly when the operation was executed, no undo of it was ever begun, and
   nothing is in its way. How undo ends is decided by the tree, whether or not an undo was begun:
   If nothing is in its way it reports all executed rows done, if and only if the tree supports it (no file
   where a parent directory is due, the keepsake of a README write in place, no directory in the place of
   README.md) and the operation does not lead from below its own destination. Otherwise it stops with an
   error, unless a README write has lost its keepsake.
   If something is in its way it skips the operation and changes nothing at all, if and only if no README
   write was executed under the plan of a move.
   An operation never executed, or already undone, is found not undoable.
   */
  lemma HistoryAgreesWithUndo(s: State, id: nat, fuel: nat)
    requires WellFormed(s.tree) && Tidy(s) && StageOf(s.journal, id) != Unseen
    requires !RunCommand(s, Undo(Some(id)), fuel).end.Crashed?
    ensures var ops := HistoryOf(s.tree, s.journal);
            var i := Find(Fold(s.journal), id);
            var r := RunCommand(s, Undo(Some(id)), fuel);
            i < |ops| && ops[i].id == id
            && (ops[i].canUndo <==> StageOf(s.journal, id) == Standing && !Blocked(s.tree, ops[i]))
            && (if !ToBeUndone(s.journal, id) then NotUndoable(s, r)
                else if Blocked(s.tree, ops[i]) then Declined(s, r) <==> !WroteReadme(s.journal, id)
                else (Succeeded(r) <==> Reverts(s.tree, ops[i]))
                     && (!ops[i].action.ReadmeWrite? && !Reverts(s.tree, ops[i]) ==> r.end.Stopped?))
  {
    FoldLists(s.journal, id);
    var op := HistoryOf(s.tree, s.journal)[Find(Fold(s.journal), id)];
    HistoryShows(s, id, op);
    if !ToBeUndone(s.journal, id) {
      NothingToUndo(s, s.journal, UndoneIds(s.journal), id, fuel);
    } else if Blocked(s.tree, op) {
      BlockedUndo(s, id, fuel, op);
    } else {
      FreeUndo(s, id, fuel, op);
    }
  }

  /** What the history shows of an operation. */
  lemma HistoryShows(s: State, id: nat, op: Operation)
    requires Tidy(s) && StageOf(s.journal, id) != Unseen && Find(Fold(s.journal), id) < |Fold(s.journal)|
    requires op == HistoryOf(s.tree, s.journal)[Find(Fold(s.journal), id)]
    ensures op.id == id && AllShown(s.journal, id, op) && (op.canUndo <==> StageOf(s.journal, id) == Standing && !Blocked(s.tree, op))
  {
    FoldLists(s.journal, id);
    var p :| p in s.journal && p.id == id && p.status.Planned? && op.action == p.action && op.from == p.from && op.to == p.to;
    forall e | e in s.journal && Concerns(e, id)
      ensures Shows(op, e)
    {
      assert Ends(p) == Ends(e) && ActionOk(p.action, e);
    }
  }

  lemma BlockedUndo(s: State, id: nat, fuel: nat, op: Operation)
    requires WellFormed(s.tree) && AllShown(s.journal, id, op) && ToBeUndone(s.journal, id) && Blocked(s.tree, op)
    requires !RunCommand(s, Undo(Some(id)), fuel).end.Crashed?
    ensures Declined(s, RunCommand(s, Undo(Some(id)), fuel)) <==> !WroteReadme(s.journal, id)
  {
    var undone := UndoneIds(s.journal);
    if WroteReadme(s.journal, id) {
      var e :| e in s.journal && Concerns(e, id) && e.action.ReadmeWrite?;
      ReadmeMoves(s, s.journal, undone, id, fuel, e);
    } else {
      forall e | e in s.journal && Concerns(e, id)
        ensures UndoScript(s, e, undone, Some(id)).out.Skipped? && UndoScript(s, e, undone, Some(id)).Steps() == []
      {
        ScriptAgrees(s, e, undone, op);
      }
      AllSkipped(s, s.journal, undone, id, fuel);
      var e :| e in s.journal && Concerns(e, id);
      var f, rest := FirstRow(s, s.journal, undone, id, fuel, e);
    }
  }

  lemma FreeUndo(s: State, id: nat, fuel: nat, op: Operation)
    requires WellFormed(s.tree) && AllShown(s.journal, id, op) && ToBeUndone(s.journal, id) && !Blocked(s.tree, op)
    requires !RunCommand(s, Undo(Some(id)), fuel).end.Crashed?
    ensures var r := RunCommand(s, Undo(Some(id)), fuel);
            (Succeeded(r) <==> Reverts(s.tree, op)) && (!op.action.ReadmeWrite? && !Reverts(s.tree, op) ==> r.end.Stopped?)
  {
    var undone := UndoneIds(s.journal);
    var e :| e in s.journal && Concerns(e, id);
    var f, rest := FirstRow(s, s.journal, undone, id, fuel, e);
    ScriptAgrees(s, f, undone, op);
    if Reverts(s.tree, op) {
      AllDone(s, s.journal, undone, id, fuel, op);
    } else {
      UndoNotIgnored(s, f, undone);
      var r := RunCommand(s, Undo(Some(id)), fuel);
      if r.end.Finished? {
        assert Reported(r.outs)[0] == UndoScript(s, f, undone, Some(id)).out;
      }
    }
  }

  // ----- Where the history promises too much

  /** The pending move of a vanished source is recorded as executed. */
  lemma RecoveryRecords(s: State, q: Proposal, id: nat, fuel: nat)
    requires WellFormed(s.tree) && Tidy(s) && q.action.Move? && !q.destinationExists && fuel >= 1
    requires PendingPlanned(s.journal, q.from, q.to) == Some(id) && !Unsafe(q.from) && !Unsafe(q.to)
    requires q.from !in s.tree && q.to in s.tree
    ensures var r := RunCommand(s, Execute([q]), fuel).s;
            r.tree == s.tree && Tidy(r) && StageOf(r.journal, id) == Standing
            && exists p :: p in r.journal && p.id == id && p.status.Planned? && p.action.Move? && p.from == q.from && p.to == q.to
  {
    RecoverySteps(s, q, id, fuel);
    BatchTidy(s, [q], fuel);
    var p :| p in s.journal && Pending(p, CompletedIds(s.journal), q.from, q.to) && p.id == id;
    StageMeans(s.journal, id);
    StageSnoc(s.journal, Entry(id, Executed, Move, q.from, q.to), id);
  }

  lemma RecoverySteps(s: State, q: Proposal, id: nat, fuel: nat)
    requires q.action.Move? && !q.destinationExists && fuel >= 1
    requires PendingPlanned(s.journal, q.from, q.to) == Some(id) && !Unsafe(q.from) && !Unsafe(q.to)
    requires q.from !in s.tree && q.to in s.tree
    ensures RunCommand(s, Execute([q]), fuel).s == Apply(s, Row(Entry(id, Executed, Move, q.from, q.to)))
  {
    var jobs := ItemJobs(s.tree, [q], s.journal);
    RecoveryTurn(s, q, id, s, jobs, fuel);
    assert jobs[1..] == [];
  }

  /**
   Such a family is reached by recovery: a move from below its own destination, planned and skipped
   earlier, whose source has since gone. Running the batch again records it as executed, the history
   offers to undo it, and the undo ends in an error.
   */
  lemma RecoveredIntoItself(s: State, q: Proposal, id: nat, fuel: nat, undoFuel: nat)
    requires WellFormed(s.tree) && Tidy(s) && q.action.Move? && !q.destinationExists && fuel >= 1
    requires PendingPlanned(s.journal, q.from, q.to) == Some(id) && !Unsafe(q.from) && !Unsafe(q.to)
    requires q.from !in s.tree && IsDir(s.tree, q.to) && Above(q.to, q.from) && NoFileAbove(s.tree, q.from)
    ensures var r := RunCommand(s, Execute([q]), fuel).s;
            var i := Find(Fold(r.journal), id);
            i < |HistoryOf(r.tree, r.journal)| && HistoryOf(r.tree, r.journal)[i].canUndo
            && !RunCommand(r, Undo(Some(id)), undoFuel).end.Finished?
  {
    RecoveryRecords(s, q, id, fuel);
    var r := RunCommand(s, Execute([q]), fuel).s;
    FoldLists(r.journal, id);
    var op := HistoryOf(r.tree, r.journal)[Find(Fold(r.journal), id)];
    HistoryShows(r, id, op);
    ShownPlan(r, id, op);
    StageMeans(r.journal, id);
    if !RunCommand(r, Undo(Some(id)), undoFuel).end.Crashed? {
      HistoryAgreesWithUndo(r, id, undoFuel);
    }
  }

  /** The history shows the planned row of an operation. */
  lemma ShownPlan(s: State, id: nat, op: Operation)
    requires Tidy(s) && StageOf(s.journal, id) != Unseen && Find(Fold(s.journal), id) < |Fold(s.journal)|
    requires op == HistoryOf(s.tree, s.journal)[Find(Fold(s.journal), id)]
    ensures forall p :: p in s.journal && p.id == id && p.status.Planned? ==> op.action == p.action && op.from == p.from && op.to == p.to
  {
    FoldLists(s.journal, id);
    var e :| e in s.journal && e.id == id && e.status.Planned? && op.action == e.action && op.from == e.from && op.to == e.to;
    forall p | p in s.journal && p.id == id && p.status.Planned?
      ensures p == e
    {
      SamePlan(s, e, p);
    }
  }
}
