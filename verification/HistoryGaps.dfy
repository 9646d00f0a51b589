/** Sessions on an empty journal after which the history offers an undo that ends in an error. */
module HistoryGaps {
  import opened FileSystem
  import opened Journal
  import opened Scripts
  import opened Steps
  import opened JournalRows
  import opened JournalStages
  import opened JournalLanguage
  import opened History
  import opened Effects
  import opened NestedBatch
  import opened Wrappers

  /** The history offers the undo of this operation, and no run of it finishes. */
  ghost predicate OffersInVain(s: State, id: nat) {
    var ops, i := HistoryOf(s.tree, s.journal), Find(Fold(s.journal), id);
    i < |ops| && ops[i].id == id && ops[i].canUndo && forall fuel: nat :: !RunCommand(s, Undo(Some(id)), fuel).end.Finished?
  }

  // ----- A move from below its own destination

  /** The proposal moves a file onto a directory above it. */
  predicate MovesUp(t: Tree, q: Proposal) {
    q.action.Move? && IsReady(t, q) && !Unsafe(q.to) && q.to != [] && IsDir(t, q.to) && Above(q.to, q.from)
  }

  /** A move onto something that is there leaves its planned row and nothing else. */
  lemma MoveIsSkipped(s: State, q: Proposal, fuel: nat)
    requires WellFormed(s.tree) && q.action.Move? && IsReady(s.tree, q) && !Unsafe(q.to) && q.to != [] && q.to in s.tree && fuel >= 1
    ensures RunCommand(s, Execute([q]), fuel).s == Apply(s, Row(Entry(s.clock, Planned, Move, q.from, q.to)))
    ensures IsFile(s.tree, q.from) && !Unsafe(q.from)
  {
    var row := Row(Entry(s.clock, Planned, Move, q.from, q.to));
    assert IsDir(s.tree, Parent(q.to));
    assert ItemScript(s, Precheck(s.tree, q), s.journal).Steps() == [row];
    DoOne(s, row);
    OneItem(s, q, fuel);
  }

  /** A file is renamed in its directory. */
  lemma RenameIsDone(s: State, p: Path, name: string, fuel: nat)
    requires WellFormed(s.tree) && IsFile(s.tree, p) && p != [] && !Unsafe(p) && ValidName(name) && Parent(p) + [name] !in s.tree && fuel >= 3
    ensures var r := RunCommand(s, RenameFile(p, name), fuel).s; var to := Parent(p) + [name];
            r.tree == (s.tree - {p})[to := s.tree[p]] && WellFormed(r.tree)
            && r.journal == s.journal + [Entry(s.clock, Planned, Move, p, to), Entry(s.clock, Executed, Move, p, to)]
  {
    RenameSteps(s, p, name);
    LoggedRename(s, p, Parent(p) + [name]);
    OneJob(s, RenameOne(p, name), fuel);
  }

  lemma RenameSteps(s: State, p: Path, name: string)
    requires WellFormed(s.tree) && IsFile(s.tree, p) && p != [] && !Unsafe(p) && ValidName(name) && Parent(p) + [name] !in s.tree
    ensures var to := Parent(p) + [name];
            Placeable(s.tree, to)
            && RenameScript(s, p, name) == Script([Row(Entry(s.clock, Planned, Move, p, to))],
                                                  [Sys(Rename(p, to)), Row(Entry(s.clock, Executed, Move, p, to))], Done)
  {
    var to := Parent(p) + [name];
    SiblingIsSafe(p, name);
    assert Parent(to) == Parent(p) && IsDir(s.tree, Parent(p));
  }

  /** The skipped plan is still the pending one after the rename. */
  lemma StillPending(rows: seq<Entry>, id: nat, q: Proposal, later: nat, to: Path)
    requires rows == [Entry(id, Planned, Move, q.from, q.to), Entry(later, Planned, Move, q.from, to), Entry(later, Executed, Move, q.from, to)]
    requires id != later && to != q.to
    ensures PendingPlanned(rows, q.from, q.to) == Some(id)
  {
    var completed := CompletedIds(rows);
    assert rows[2] in rows && later in completed;
    assert id !in completed;
    assert NewestPending(rows[..1], completed, q.from, q.to) == Some(id);
    assert rows[..2][..1] == rows[..1];
    assert NewestPending(rows[..2], completed, q.from, q.to) == Some(id);
  }

  /** The plan of the skipped move is pending, and its source is gone. */
  lemma SourceRenamedAway(s: State, q: Proposal, name: string, fuel: nat)
    requires WellFormed(s.tree) && s.journal == [] && MovesUp(s.tree, q)
    requires ValidName(name) && Parent(q.from) + [name] !in s.tree && fuel >= 3
    ensures var s1 := RunCommand(s, Execute([q]), fuel).s;
            var s2 := RunCommand(s1, RenameFile(q.from, name), fuel).s;
            WellFormed(s2.tree) && Orderly(s2) && PendingPlanned(s2.journal, q.from, q.to) == Some(s.clock) && !Unsafe(q.from)
            && q.from !in s2.tree && IsDir(s2.tree, q.to) && NoFileAbove(s2.tree, q.from)
  {
    MoveIsSkipped(s, q, fuel);
    var s1 := RunCommand(s, Execute([q]), fuel).s;
    var to := Parent(q.from) + [name];
    RenameIsDone(s1, q.from, name, fuel);
    var s2 := RunCommand(s1, RenameFile(q.from, name), fuel).s;
    OrderlyTwice(s, Execute([q]), RenameFile(q.from, name), fuel);
    StillPending(s2.journal, s.clock, q, s1.clock, to);
    AboveStaysFree(s.tree, q.from, to, s2.tree);
  }

  lemma OrderlyTwice(s: State, first: Command, second: Command, fuel: nat)
    requires WellFormed(s.tree) && s.journal == [] && PairsDistinct(first) && PairsDistinct(second)
    ensures Orderly(RunCommand(RunCommand(s, first, fuel).s, second, fuel).s)
  {
    assert forall id :: PhaseOf([], id) == Fresh;
    CommandKeepsOrder(s, first, fuel);
    CommandKeepsOrder(RunCommand(s, first, fuel).s, second, fuel);
  }

  lemma AboveStaysFree(t: Tree, p: Path, to: Path, u: Tree)
    requires WellFormed(t) && IsFile(t, p) && p != [] && |to| == |p| && u == (t - {p})[to := t[p]]
    ensures NoFileAbove(u, p)
  {
    forall n | 0 <= n < |p|
      ensures !IsFile(u, p[..n])
    {
      AncestorsAreDirs(t, p, p[..n]);
    }
  }

  /**
   From an empty journal: a move onto a directory above its file is skipped, the file is renamed, and the
   batch is run again. Recovery records the move as executed, and the history offers to undo it in vain.
   */
  lemma RecoveryOffersInVain(s: State, q: Proposal, name: string, fuel: nat)
    requires WellFormed(s.tree) && s.journal == [] && MovesUp(s.tree, q)
    requires ValidName(name) && Parent(q.from) + [name] !in s.tree && fuel >= 3
    ensures var s1 := RunCommand(s, Execute([q]), fuel).s;
            var s2 := RunCommand(s1, RenameFile(q.from, name), fuel).s;
            OffersInVain(RunCommand(s2, Execute([q]), fuel).s, s.clock)
  {
    SourceRenamedAway(s, q, name, fuel);
    var s1 := RunCommand(s, Execute([q]), fuel).s;
    var s2 := RunCommand(s1, RenameFile(q.from, name), fuel).s;
    forall undoFuel: nat
      ensures !RunCommand(RunCommand(s2, Execute([q]), fuel).s, Undo(Some(s.clock)), undoFuel).end.Finished?
    {
      RecoveredIntoItself(s2, q, s.clock, fuel, undoFuel);
    }
    RecoveredIntoItself(s2, q, s.clock, fuel, 0);
  }

  // ----- A file where a parent directory was

  predicate PlainName(name: string) {
    name != "" && name != "." && name != ".." && !Internal([name])
  }

  /** A file at the top of the tree and two free names. */
  predicate Setting(t: Tree, x: string, a: string, y: string) {
    IsFile(t, [x]) && [a] !in t && [y] !in t && a != y && PlainName(x) && PlainName(a) && PlainName(y)
  }

  function DirAt(p: Path): Proposal {
    Proposal(CreateDir, [], p, None, 0, None, None, false)
  }

  lemma DirIsCreated(s: State, a: string, fuel: nat)
    requires WellFormed(s.tree) && [a] !in s.tree && PlainName(a) && fuel >= 3
    ensures var r := RunCommand(s, Execute([DirAt([a])]), fuel).s;
            r.tree == s.tree[[a] := Dir] && WellFormed(r.tree) && r.clock > s.clock
            && r.journal == s.journal + [Entry(s.clock, Planned, CreateDir, [], [a]), Entry(s.clock, Executed, CreateDir, [], [a])]
  {
    var c := Precheck(s.tree, DirAt([a]));
    var m := CreateDirScript(s, c);
    TopName(a);
    assert [a][0] == a;
    DoOne(s, m.prep[0]);
    Acted(s, m);
    EffectKeepsWellFormed(s.tree, Mkdir([a]), s.clock + 1);
    DoClock(s, m.Steps());
    OneItem(s, DirAt([a]), fuel);
  }

  lemma FileIsMoved(s: State, from: Path, to: Path, fuel: nat)
    requires WellFormed(s.tree) && IsFile(s.tree, from) && !Unsafe(from) && !Unsafe(to) && to != [] && to !in s.tree
    requires IsDir(s.tree, Parent(to)) && !(from <= to) && fuel >= 3
    ensures var r := RunCommand(s, Execute([MoveOf(s.tree, from, to)]), fuel).s;
            r.tree == (s.tree - {from})[to := s.tree[from]] && WellFormed(r.tree) && r.clock > s.clock
            && r.journal == s.journal + [Entry(s.clock, Planned, Move, from, to), Entry(s.clock, Executed, Move, from, to)]
  {
    var q := MoveOf(s.tree, from, to);
    var c := Precheck(s.tree, q);
    assert c.status.Ready? && AddDirs(s.tree, Parent(to)) == s.tree && MkdirSteps(s.tree, Parent(to)) == [];
    MoveIsDone(s, c);
    DoClock(s, MoveScript(s, c).Steps());
    OneItem(s, q, fuel);
  }

  lemma DirIsTakenBack(s: State, id: nat, a: string, fuel: nat)
    requires WellFormed(s.tree) && Orderly(s) && PhaseOf(s.journal, id) == Executing && IsDir(s.tree, [a]) && !HasChild(s.tree, [a]) && fuel >= 3
    requires Entry(id, Executed, CreateDir, [], [a]) in s.journal
    ensures var r := RunCommand(s, Undo(Some(id)), fuel).s; var e := Entry(id, Executed, CreateDir, [], [a]);
            r.tree == s.tree - {[a]} && WellFormed(r.tree) && r.clock > s.clock
            && r.journal == s.journal + [UndoRow(e, UndoPlanned).entry, UndoRow(e, Undone).entry]
  {
    var e := Entry(id, Executed, CreateDir, [], [a]);
    UndoRunsItsRow(s, e, fuel);
    var m := UndoCreateDir(s, e);
    DoOne(s, m.prep[0]);
    Acted(s, m);
    EffectKeepsWellFormed(s.tree, Rmdir([a]), s.clock + 1);
    DoClock(s, m.Steps());
  }

  /** With enough power, undoing one operation makes the steps of its executed row. */
  lemma UndoRunsItsRow(s: State, e: Entry, fuel: nat)
    requires Orderly(s) && PhaseOf(s.journal, e.id) == Executing && e in s.journal && e.status.Executed?
    requires fuel >= |UndoScript(s, e, UndoneIds(s.journal), Some(e.id)).Steps()|
    ensures RunCommand(s, Undo(Some(e.id)), fuel).s == Do(s, UndoScript(s, e, UndoneIds(s.journal), Some(e.id)).Steps())
    ensures e.id !in UndoneIds(s.journal)
  {
    var rows := s.journal;
    PhaseMeans(rows, e.id);
    var x :| 0 <= x < |rows| && rows[x] == e;
    forall i | 0 <= i < |rows| && i != x && rows[i].id == e.id
      ensures !rows[i].status.Executed?
    {
      if rows[i].status.Executed? {
        if i < x { ExecutedOnce(rows, i, x); } else { ExecutedOnce(rows, x, i); }
      }
    }
    UndoRunsRow(s, x, fuel);
  }

  lemma EmptyFileIsCreated(s: State, a: string, fuel: nat)
    requires WellFormed(s.tree) && [a] !in s.tree && PlainName(a) && fuel >= 1
    ensures var r := RunCommand(s, CreateEmptyFile([a]), fuel).s;
            IsFile(r.tree, [a]) && r.tree == s.tree[[a] := r.tree[[a]]] && WellFormed(r.tree) && r.journal == s.journal
  {
    TopName(a);
    GuardedIsSafe([a]);
    EmptyFileIsCreatedIff(s, [a], fuel);
    var r := RunCommand(s, CreateEmptyFile([a]), fuel).s;
    RunKeepsWellFormed(s, JobsOf(s, CreateEmptyFile([a])), fuel);
    OnlyOneAdded(s.tree, r.tree, [a]);
  }

  lemma OnlyOneAdded(t: Tree, u: Tree, p: Path)
    requires p in u && forall x :: x != p ==> SameEntry(t, u, x)
    ensures u == t[p := u[p]]
  {
    forall x
      ensures x in u <==> x in t[p := u[p]]
      ensures x in u ==> u[x] == t[p := u[p]][x]
    {
      assert x != p ==> SameEntry(t, u, x);
    }
  }

  lemma TopName(a: string)
    requires PlainName(a)
    ensures !Unsafe([a]) && Parent([a]) == []
  {
    assert [a][0] == a;
  }

  lemma {:induction false} OthersPass(rows: seq<Entry>, more: seq<Entry>, id: nat)
    requires forall e :: e in more ==> e.id != id
    ensures PhaseOf(rows + more, id) == PhaseOf(rows, id)
    decreases |more|
  {
    if more == [] {
      assert rows + more == rows;
    } else {
      var last, rest := more[|more| - 1], more[..|more| - 1];
      assert rows + more == (rows + rest) + [last] && last in more;
      PhaseSnoc(rows + rest, last, id);
      OthersPass(rows, rest, id);
    }
  }

  lemma OperationIsExecuted(rows: seq<Entry>, planned: Entry, executed: Entry)
    requires planned.status.Planned? && executed.status.Executed? && planned.id == executed.id && PhaseOf(rows, planned.id) == Fresh
    ensures PhaseOf(rows + [planned, executed], planned.id) == Executing
  {
    assert rows + [planned, executed] == (rows + [planned]) + [executed];
    PhaseSnoc(rows, planned, planned.id);
    PhaseSnoc(rows + [planned], executed, planned.id);
  }

  /** Make a, move x into it, and move it out again as y: the states after each of the three batches. */
  function Made(s: State, a: string, fuel: nat): State {
    RunCommand(s, Execute([DirAt([a])]), fuel).s
  }

  function MovedIn(s: State, x: string, a: string, fuel: nat): State {
    if IsFile(s.tree, [x]) then RunCommand(s, Execute([MoveOf(s.tree, [x], [a, x])]), fuel).s else s
  }

  function MovedOut(s: State, x: string, a: string, y: string, fuel: nat): State {
    if IsFile(s.tree, [a, x]) then RunCommand(s, Execute([MoveOf(s.tree, [a, x], [y])]), fuel).s else s
  }

  function InAndOut(s: State, x: string, a: string, y: string, fuel: nat): State {
    MovedOut(MovedIn(Made(s, a, fuel), x, a, fuel), x, a, y, fuel)
  }

  lemma Names(x: string, a: string, y: string)
    requires PlainName(x) && PlainName(a) && PlainName(y) && a != y
    ensures !Unsafe([x]) && !Unsafe([a, x]) && !Unsafe([y]) && Parent([a, x]) == [a] && Parent([y]) == [] && Parent([a]) == []
    ensures !([x] <= [a, x]) || x == a
    ensures !([a, x] <= [y])
  {
    assert [x][0] == x && [a][0] == a && [y][0] == y && [a, x][0] == a && [a, x][1] == x;
  }

  lemma MadeState(s: State, x: string, a: string, y: string, fuel: nat)
    requires WellFormed(s.tree) && s.journal == [] && Setting(s.tree, x, a, y) && fuel >= 3
    ensures var r := Made(s, a, fuel);
            WellFormed(r.tree) && Orderly(r) && r.clock > s.clock && r.tree == s.tree[[a] := Dir]
            && r.journal == [Entry(s.clock, Planned, CreateDir, [], [a]), Entry(s.clock, Executed, CreateDir, [], [a])]
  {
    assert forall id :: PhaseOf([], id) == Fresh;
    DirIsCreated(s, a, fuel);
    CommandKeepsOrder(s, Execute([DirAt([a])]), fuel);
  }

  lemma MovedInState(s: State, x: string, a: string, y: string, fuel: nat)
    requires WellFormed(s.tree) && Orderly(s) && IsFile(s.tree, [x]) && IsDir(s.tree, [a]) && [a, x] !in s.tree && fuel >= 3
    requires PlainName(x) && PlainName(a) && PlainName(y) && a != y
    ensures var r := MovedIn(s, x, a, fuel);
            WellFormed(r.tree) && Orderly(r) && r.clock > s.clock && r.tree == (s.tree - {[x]})[[a, x] := s.tree[[x]]]
            && r.journal == s.journal + [Entry(s.clock, Planned, Move, [x], [a, x]), Entry(s.clock, Executed, Move, [x], [a, x])]
  {
    Names(x, a, y);
    assert x != a by { assert IsFile(s.tree, [x]) && IsDir(s.tree, [a]); }
    FileIsMoved(s, [x], [a, x], fuel);
    CommandKeepsOrder(s, Execute([MoveOf(s.tree, [x], [a, x])]), fuel);
  }

  lemma MovedOutState(s: State, x: string, a: string, y: string, fuel: nat)
    requires WellFormed(s.tree) && Orderly(s) && IsFile(s.tree, [a, x]) && [y] !in s.tree && fuel >= 3
    requires PlainName(x) && PlainName(a) && PlainName(y) && a != y
    ensures var r := MovedOut(s, x, a, y, fuel);
            WellFormed(r.tree) && Orderly(r) && r.tree == (s.tree - {[a, x]})[[y] := s.tree[[a, x]]]
            && r.journal == s.journal + [Entry(s.clock, Planned, Move, [a, x], [y]), Entry(s.clock, Executed, Move, [a, x], [y])]
  {
    Names(x, a, y);
    FileIsMoved(s, [a, x], [y], fuel);
    CommandKeepsOrder(s, Execute([MoveOf(s.tree, [a, x], [y])]), fuel);
  }

  /** Where that leads: the id of the last move, and the directory a empty again. */
  lemma InAndOutRuns(s: State, x: string, a: string, y: string, fuel: nat) returns (id: nat)
    requires WellFormed(s.tree) && s.journal == [] && Setting(s.tree, x, a, y) && fuel >= 3
    ensures var r := InAndOut(s, x, a, y, fuel);
            WellFormed(r.tree) && Orderly(r) && IsDir(r.tree, [a]) && !HasChild(r.tree, [a]) && IsFile(r.tree, [y]) && [a, x] !in r.tree
            && id != s.clock && PhaseOf(r.journal, id) == Executing && PhaseOf(r.journal, s.clock) == Executing
            && Entry(s.clock, Executed, CreateDir, [], [a]) in r.journal && Entry(id, Executed, Move, [a, x], [y]) in r.journal
  {
    Names(x, a, y);
    assert [a, x] !in s.tree by { NothingIn(s.tree, a); }
    MadeState(s, x, a, y, fuel);
    var s1 := Made(s, a, fuel);
    MovedInState(s1, x, a, y, fuel);
    var s2 := MovedIn(s1, x, a, fuel);
    MovedOutState(s2, x, a, y, fuel);
    id := s2.clock;
    TreeInAndOut(s.tree, s.tree[[x]], x, a, y);
    RowsInAndOut(Entry(s.clock, Planned, CreateDir, [], [a]), Entry(s.clock, Executed, CreateDir, [], [a]),
                 Entry(s1.clock, Planned, Move, [x], [a, x]), Entry(s1.clock, Executed, Move, [x], [a, x]),
                 Entry(s2.clock, Planned, Move, [a, x], [y]), Entry(s2.clock, Executed, Move, [a, x], [y]));
  }

  lemma TreeInAndOut(t: Tree, f: Node, x: string, a: string, y: string)
    requires WellFormed(t) && [a] !in t && IsFile(t, [x]) && f.File? && a != y
    ensures var u := ((((t[[a] := Dir]) - {[x]})[[a, x] := f]) - {[a, x]})[[y] := f];
            IsDir(u, [a]) && !HasChild(u, [a]) && IsFile(u, [y]) && [a, x] !in u
  {
    NothingIn(t, a);
    assert [a][0] == a && [y][0] == y && [x][0] == x && Parent([a]) == [] && Parent([y]) == [] && |[a, x]| == 2 && Parent([a, x]) == [a];
  }

  lemma NothingIn(t: Tree, a: string)
    requires WellFormed(t) && [a] !in t
    ensures forall q :: q in t && q != [] ==> Parent(q) != [a]
  {
  }

  /** An operation executed first, with only rows of others after it. */
  lemma FirstStaysExecuted(planned: Entry, executed: Entry, more: seq<Entry>)
    requires planned.status.Planned? && executed.status.Executed? && planned.id == executed.id && forall e :: e in more ==> e.id != planned.id
    ensures PhaseOf([planned, executed] + more, planned.id) == Executing
  {
    OperationIsExecuted([], planned, executed);
    assert [] + [planned, executed] == [planned, executed];
    OthersPass([planned, executed], more, planned.id);
  }

  /** An operation executed last, with only rows of others before it. */
  lemma LastIsExecuted(before: seq<Entry>, planned: Entry, executed: Entry)
    requires planned.status.Planned? && executed.status.Executed? && planned.id == executed.id && forall e :: e in before ==> e.id != planned.id
    ensures PhaseOf(before + [planned, executed], planned.id) == Executing
  {
    OthersPass([], before, planned.id);
    assert [] + before == before;
    OperationIsExecuted(before, planned, executed);
  }

  lemma RowsInAndOut(p1: Entry, e1: Entry, p2: Entry, e2: Entry, p3: Entry, e3: Entry)
    requires p1.status.Planned? && e1.status.Executed? && p1.id == e1.id && p2.id == e2.id
    requires p3.status.Planned? && e3.status.Executed? && p3.id == e3.id && p1.id < p2.id < p3.id
    ensures var rows := [p1, e1] + [p2, e2] + [p3, e3];
            PhaseOf(rows, p1.id) == Executing && PhaseOf(rows, p3.id) == Executing && e1 in rows && e3 in rows
  {
    var rows := [p1, e1] + [p2, e2] + [p3, e3];
    assert rows == [p1, e1] + ([p2, e2] + [p3, e3]);
    FirstStaysExecuted(p1, e1, [p2, e2] + [p3, e3]);
    LastIsExecuted([p1, e1] + [p2, e2], p3, e3);
    assert rows[1] == e1 && rows[5] == e3;
  }

  /**
   From an empty journal: a directory is made, a file moved into it and out again, the directory taken
   back, and an empty file created in its place. The history offers to undo the second move in vain:
   its parent directory cannot be made where that file lies.
   */
  lemma RecreationOffersInVain(s: State, x: string, a: string, y: string, fuel: nat) returns (id: nat)
    requires WellFormed(s.tree) && s.journal == [] && Setting(s.tree, x, a, y) && fuel >= 3
    ensures var s4 := RunCommand(InAndOut(s, x, a, y, fuel), Undo(Some(s.clock)), fuel).s;
            OffersInVain(RunCommand(s4, CreateEmptyFile([a]), fuel).s, id)
  {
    id := InAndOutRuns(s, x, a, y, fuel);
    FileInsteadOfDir(InAndOut(s, x, a, y, fuel), s.clock, id, x, a, y, fuel);
  }

  /** The directory a is taken back, and a file made in its place. */
  lemma FileInsteadOfDir(s: State, made: nat, id: nat, x: string, a: string, y: string, fuel: nat)
    requires WellFormed(s.tree) && Orderly(s) && IsDir(s.tree, [a]) && !HasChild(s.tree, [a]) && IsFile(s.tree, [y]) && [a, x] !in s.tree
    requires id != made && PhaseOf(s.journal, id) == Executing && PhaseOf(s.journal, made) == Executing && PlainName(a) && a != y && fuel >= 3
    requires Entry(made, Executed, CreateDir, [], [a]) in s.journal && Entry(id, Executed, Move, [a, x], [y]) in s.journal
    ensures OffersInVain(RunCommand(RunCommand(s, Undo(Some(made)), fuel).s, CreateEmptyFile([a]), fuel).s, id)
  {
    var u := TakenBack(s, made, id, x, a, y, fuel);
    CommandKeepsOrder(s, Undo(Some(made)), fuel);
    FileInTheWay(u, Entry(id, Executed, Move, [a, x], [y]), x, a, y, fuel);
  }

  lemma FileInTheWay(u: State, e: Entry, x: string, a: string, y: string, fuel: nat)
    requires WellFormed(u.tree) && Orderly(u) && [a] !in u.tree && IsFile(u.tree, [y]) && [a, x] !in u.tree && PlainName(a) && fuel >= 1
    requires PhaseOf(u.journal, e.id) == Executing && e in u.journal && e == Entry(e.id, Executed, Move, [a, x], [y])
    ensures OffersInVain(RunCommand(u, CreateEmptyFile([a]), fuel).s, e.id)
  {
    EmptyFileIsCreated(u, a, fuel);
    CommandKeepsOrder(u, CreateEmptyFile([a]), fuel);
    var r := RunCommand(u, CreateEmptyFile([a]), fuel).s;
    assert |[a, x]| == 2 && |[a]| == 1;
    FileAboveEntry(r.tree, a, x);
    UndoIsInVain(r, e);
  }

  lemma FileAboveEntry(t: Tree, a: string, x: string)
    requires IsFile(t, [a])
    ensures !NoFileAbove(t, [a, x])
  {
    assert [a, x][..1] == [a];
  }

  lemma TakenBack(s: State, made: nat, id: nat, x: string, a: string, y: string, fuel: nat) returns (u: State)
    requires WellFormed(s.tree) && Orderly(s) && IsDir(s.tree, [a]) && !HasChild(s.tree, [a]) && IsFile(s.tree, [y]) && [a, x] !in s.tree
    requires id != made && PhaseOf(s.journal, id) == Executing && PhaseOf(s.journal, made) == Executing && a != y && fuel >= 3
    requires Entry(made, Executed, CreateDir, [], [a]) in s.journal && Entry(id, Executed, Move, [a, x], [y]) in s.journal
    ensures u == RunCommand(s, Undo(Some(made)), fuel).s && WellFormed(u.tree)
    ensures [a] !in u.tree && IsFile(u.tree, [y]) && [a, x] !in u.tree
    ensures PhaseOf(u.journal, id) == Executing && Entry(id, Executed, Move, [a, x], [y]) in u.journal
  {
    u := RunCommand(s, Undo(Some(made)), fuel).s;
    DirIsTakenBack(s, made, a, fuel);
    assert [a][0] == a && [y][0] == y;
    var e := Entry(made, Executed, CreateDir, [], [a]);
    OthersPass(s.journal, [UndoRow(e, UndoPlanned).entry, UndoRow(e, Undone).entry], id);
  }

  /** An executed move whose file is there, with a file above its old place. */
  lemma UndoIsInVain(r: State, e: Entry)
    requires WellFormed(r.tree) && Orderly(r) && PhaseOf(r.journal, e.id) == Executing && e in r.journal && e.status.Executed? && e.action.Move?
    requires e.to in r.tree && e.from !in r.tree && !NoFileAbove(r.tree, e.from)
    ensures OffersInVain(r, e.id)
  {
    FoldLists(r.journal, e.id);
    PhaseIsStage(r.journal, e.id);
    StageMeans(r.journal, e.id);
    var op := HistoryOf(r.tree, r.journal)[Find(Fold(r.journal), e.id)];
    HistoryShows(r, e.id, op);
    assert Shows(op, e);
    forall fuel: nat
      ensures !RunCommand(r, Undo(Some(e.id)), fuel).end.Finished?
    {
      if !RunCommand(r, Undo(Some(e.id)), fuel).end.Crashed? {
        HistoryAgreesWithUndo(r, e.id, fuel);
      }
    }
  }

  // ----- An undo that was cut off

  lemma CutUndo(s: State, e: Entry)
    requires WellFormed(s.tree) && e in s.journal && e.status.Executed? && e.action.Move? && e.id !in UndoneIds(s.journal)
    requires forall f :: f in s.journal && f.status.Executed? && f.id == e.id ==> f == e
    requires IsFile(s.tree, e.to) && e.from !in s.tree && e.from != [] && IsDir(s.tree, Parent(e.from)) && !Unsafe(e.from) && !Unsafe(e.to)
    ensures RunCommand(s, Undo(Some(e.id)), 1).s == Apply(s, UndoRow(e, UndoPlanned))
  {
    var f, rest := FirstRow(s, s.journal, UndoneIds(s.journal), e.id, 1, e);
    NotBelowFile(s.tree, e.to, e.from);
    var m := UndoMove(s, e);
    assert MkdirSteps(s.tree, Parent(e.from)) == [] && m.prep == [UndoRow(e, UndoPlanned)];
    assert m.Steps()[..1] == [UndoRow(e, UndoPlanned)];
    DoOne(s, UndoRow(e, UndoPlanned));
  }

  /** A file is moved, and the undo of that is cut off after its first row. */
  function MovedAndCut(s: State, x: string, y: string, fuel: nat): State {
    if IsFile(s.tree, [x]) then RunCommand(RunCommand(s, Execute([MoveOf(s.tree, [x], [y])]), fuel).s, Undo(Some(s.clock)), 1).s else s
  }

  lemma MovedAndCutState(s: State, x: string, y: string, fuel: nat)
    requires WellFormed(s.tree) && s.journal == [] && IsFile(s.tree, [x]) && [y] !in s.tree && PlainName(x) && PlainName(y) && fuel >= 3
    ensures var r := MovedAndCut(s, x, y, fuel); var e := Entry(s.clock, Executed, Move, [x], [y]);
            r.tree == (s.tree - {[x]})[[y] := s.tree[[x]]] && WellFormed(r.tree)
            && r.journal == [Entry(s.clock, Planned, Move, [x], [y]), e, UndoRow(e, UndoPlanned).entry]
  {
    TopName(x);
    TopName(y);
    FileIsMoved(s, [x], [y], fuel);
    var s1 := RunCommand(s, Execute([MoveOf(s.tree, [x], [y])]), fuel).s;
    assert s1.journal[1] == Entry(s.clock, Executed, Move, [x], [y]);
    CutUndo(s1, s1.journal[1]);
  }

  lemma MovedAndCutTidy(s: State, x: string, y: string, fuel: nat)
    requires WellFormed(s.tree) && s.journal == [] && IsFile(s.tree, [x])
    ensures Tidy(MovedAndCut(s, x, y, fuel))
  {
    assert forall id :: StageOf([], id) == Unseen;
    CommandKeepsTidy(s, Execute([MoveOf(s.tree, [x], [y])]), fuel);
    CommandKeepsTidy(RunCommand(s, Execute([MoveOf(s.tree, [x], [y])]), fuel).s, Undo(Some(s.clock)), 1);
  }

  /** The history refuses to undo the operation, and an undo that is not cut takes it back. */
  ghost predicate RefusedNeedlessly(s: State, id: nat) {
    var ops, i := HistoryOf(s.tree, s.journal), Find(Fold(s.journal), id);
    i < |ops| && ops[i].id == id && !ops[i].canUndo
    && forall fuel: nat :: RunCommand(s, Undo(Some(id)), fuel).end.Crashed? || Succeeded(RunCommand(s, Undo(Some(id)), fuel))
  }

  /** A move whose undo was begun, and has nothing in its way. */
  lemma BegunIsRefused(r: State, p: Entry)
    requires WellFormed(r.tree) && Tidy(r) && StageOf(r.journal, p.id) == Undoing && ToBeUndone(r.journal, p.id)
    requires p in r.journal && p.status.Planned? && p.action.Move? && p.to in r.tree && p.from !in r.tree
    requires NoFileAbove(r.tree, p.from) && !Above(p.to, p.from)
    ensures RefusedNeedlessly(r, p.id)
  {
    FoldLists(r.journal, p.id);
    var op := HistoryOf(r.tree, r.journal)[Find(Fold(r.journal), p.id)];
    HistoryShows(r, p.id, op);
    ShownPlan(r, p.id, op);
    forall fuel: nat
      ensures RunCommand(r, Undo(Some(p.id)), fuel).end.Crashed? || Succeeded(RunCommand(r, Undo(Some(p.id)), fuel))
    {
      if !RunCommand(r, Undo(Some(p.id)), fuel).end.Crashed? {
        HistoryAgreesWithUndo(r, p.id, fuel);
      }
    }
  }

  /**
   From an empty journal: a file is moved, and its undo is cut off after the first row. From then on the
   history refuses to undo the move, though an undo that is not cut again takes it back.
   */
  lemma CutUndoIsRefused(s: State, x: string, y: string, fuel: nat)
    requires WellFormed(s.tree) && s.journal == [] && IsFile(s.tree, [x]) && [y] !in s.tree && PlainName(x) && PlainName(y) && fuel >= 3
    ensures RefusedNeedlessly(MovedAndCut(s, x, y, fuel), s.clock)
  {
    var r := MovedAndCut(s, x, y, fuel);
    MovedAndCutState(s, x, y, fuel);
    MovedAndCutTidy(s, x, y, fuel);
    CutRows(r.journal[0], r.journal[1], r.journal[2]);
    TopIsClear(r.tree, x);
    assert [x] != [y];
    BegunIsRefused(r, r.journal[0]);
  }

  lemma TopIsClear(t: Tree, x: string)
    requires WellFormed(t)
    ensures NoFileAbove(t, [x])
  {
    assert [x][..0] == [];
  }

  lemma CutRows(p: Entry, e: Entry, u: Entry)
    requires p.status.Planned? && e.status.Executed? && u.status.UndoPlanned? && p.id == e.id == u.id
    ensures StageOf([p, e, u], p.id) == Undoing && ToBeUndone([p, e, u], p.id)
  {
    assert [p, e, u] == ([] + [p]) + [e] + [u];
    StageSnoc([], p, p.id);
    StageSnoc([p], e, p.id);
    StageSnoc([p, e], u, p.id);
    assert [p, e, u][1] == e && forall f :: f in [p, e, u] ==> f in {p, e, u};
  }
}
