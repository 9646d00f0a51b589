/** Sessions on an empty journal after which the history and undo disagree about README.md. */
module ReadmeGaps {
  import opened FileSystem
  import opened Journal
  import opened Scripts
  import opened Steps
  import opened JournalRows
  import opened JournalStages
  import opened JournalLanguage
  import opened History
  import opened Effects
  import opened NestedBatch
  import opened HistoryGaps
  import opened Wrappers

  /** A proposal to write README.md, made for a file of this size and nothing else known of it. */
  function WriteOf(content: string, size: nat): Proposal {
    Proposal(ReadmeWrite, README, README, Some(content), size, None, None, false)
  }

  lemma ReadmeName(y: string)
    ensures Parent(README) + [y] == [y]
    ensures !Unsafe(README) && Parent(README) == [] && PlainName("README.md") && README == ["README.md"]
  {
    assert ["README.md"][0] == "README.md";
  }

  // ----- A directory in the place of README.md

  /** No README.md, room for its keepsake, and a free name. */
  predicate Vacant(s: State, y: string) {
    README !in s.tree && CanMakeDirs(s.tree, BACKUP_DIR) && !IsDir(s.tree, Absent(s.clock))
    && [y] !in s.tree && PlainName(y) && ValidName(y) && y != "README.md"
  }

  lemma ReadmeIsWritten(s: State, content: string, y: string, fuel: nat)
    requires WellFormed(s.tree) && Vacant(s, y) && fuel >= 6
    ensures var r := RunCommand(s, Execute([WriteOf(content, 0)]), fuel).s;
            WellFormed(r.tree) && IsFile(r.tree, README) && Absent(s.clock) in r.tree && [y] !in r.tree && r.clock > s.clock
            && r.journal == s.journal + [ReadmeRow(s.clock, Planned).entry, ReadmeRow(s.clock, Executed).entry]
  {
    var c := Precheck(s.tree, WriteOf(content, 0));
    var m := ReadmeScript(s, c);
    MkdirCount(s.tree, BACKUP_DIR);
    assert ItemScript(s, c, s.journal) == m && |m.Steps()| <= 6;
    OneItem(s, WriteOf(content, 0), fuel);
    DoClock(s, m.Steps());
    ReadmeScriptSucceeds(s, c);
    DoKeepsWellFormed(s, m.Steps());
    ReadmePreparedJournal(s, c);
    Acted(s, m);
    WrittenTree(s, c, y);
  }

  lemma WrittenTree(s: State, c: Check, y: string)
    requires WellFormed(s.tree) && Vacant(s, y) && ReadmeScript(s, c).out.Done?
    ensures var t := Do(s, ReadmeScript(s, c).Steps()).tree; IsFile(t, README) && Absent(s.clock) in t && [y] !in t
  {
    ReadmePrepared(s, c);
    Acted(s, ReadmeScript(s, c));
    assert |Absent(s.clock)| == 3 && |README| == 1 && |[y]| == 1 && BACKUP_DIR[0] == STATE_DIR && [y][0] == y;
  }

  /** A README write whose place a directory has taken. */
  lemma ReadmeUndoIsInVain(r: State, p: Entry, e: Entry)
    requires WellFormed(r.tree) && Orderly(r) && PhaseOf(r.journal, e.id) == Executing && IsDir(r.tree, README)
    requires p in r.journal && p.status.Planned? && p.action.ReadmeWrite? && p.id == e.id
    requires e in r.journal && e.status.Executed? && (e.from in r.tree || WithAbsent(e.from) in r.tree)
    ensures OffersInVain(r, e.id)
  {
    var id, undone := e.id, UndoneIds(r.journal);
    FoldLists(r.journal, id);
    PhaseIsStage(r.journal, id);
    StageMeans(r.journal, id);
    var op := HistoryOf(r.tree, r.journal)[Find(Fold(r.journal), id)];
    HistoryShows(r, id, op);
    ShownPlan(r, id, op);
    assert Shows(op, e);
    forall fuel: nat
      ensures !RunCommand(r, Undo(Some(id)), fuel).end.Finished?
    {
      var f, rest := FirstRow(r, r.journal, undone, id, fuel, e);
      assert Shows(op, f) && ExecutedOk(f);
      assert UndoReadme(r, f).out.Failed?;
    }
  }

  /** README.md is written, renamed away, and a directory created under its name. */
  function Written(s: State, content: string, fuel: nat): State {
    RunCommand(s, Execute([WriteOf(content, 0)]), fuel).s
  }

  function Replaced(s: State, content: string, y: string, fuel: nat): State {
    RunCommand(RunCommand(Written(s, content, fuel), RenameFile(README, y), fuel).s, Execute([DirAt(README)]), fuel).s
  }

  lemma ReplacedState(s: State, content: string, y: string, fuel: nat)
    requires WellFormed(s.tree) && s.journal == [] && Vacant(s, y) && fuel >= 6
    ensures var r := Replaced(s, content, y, fuel); var p, e := ReadmeRow(s.clock, Planned).entry, ReadmeRow(s.clock, Executed).entry;
            WellFormed(r.tree) && IsDir(r.tree, README) && Absent(s.clock) in r.tree && |r.journal| >= 2
            && r.journal == [p, e] + r.journal[2..] && forall f :: f in r.journal[2..] ==> f.id != s.clock
  {
    var s1 := Written(s, content, fuel);
    ReadmeName(y);
    ReadmeIsWritten(s, content, y, fuel);
    RenameIsDone(s1, README, y, fuel);
    var s2 := RunCommand(s1, RenameFile(README, y), fuel).s;
    DoneClock(s1, RenameFile(README, y), fuel);
    assert |Absent(s.clock)| == 3 && |README| == 1;
    DirIsCreated(s2, "README.md", fuel);
    var r := Replaced(s, content, y, fuel);
    assert r.journal[2..] == s2.journal[2..] + r.journal[4..];
  }

  lemma DoneClock(s: State, cmd: Command, fuel: nat)
    ensures RunCommand(s, cmd, fuel).s.clock >= s.clock
  {
    RunClock(s, JobsOf(s, cmd), fuel);
  }

  /**
   From an empty journal: README.md is written, renamed, and a directory made under its name. The history
   goes on offering to undo the write, and every undo of it ends in an error.
   */
  lemma ReplacementOffersInVain(s: State, content: string, y: string, fuel: nat)
    requires WellFormed(s.tree) && s.journal == [] && Vacant(s, y) && fuel >= 6
    ensures OffersInVain(Replaced(s, content, y, fuel), s.clock)
  {
    var p, e := ReadmeRow(s.clock, Planned).entry, ReadmeRow(s.clock, Executed).entry;
    var s1 := Written(s, content, fuel);
    var r := Replaced(s, content, y, fuel);
    ReplacedState(s, content, y, fuel);
    ReadmeIsWritten(s, content, y, fuel);
    OrderlyTwice(s, Execute([WriteOf(content, 0)]), RenameFile(README, y), fuel);
    RunKeepsWellFormed(s1, JobsOf(s1, RenameFile(README, y)), fuel);
    CommandKeepsOrder(RunCommand(s1, RenameFile(README, y), fuel).s, Execute([DirAt(README)]), fuel);
    FirstStaysExecuted(p, e, r.journal[2..]);
    AbsentOfBackup(s.clock);
    assert r.journal[0] == p && r.journal[1] == e;
    ReadmeUndoIsInVain(r, p, e);
  }

  // ----- A README write under the plan of a move

  /** README.md, another file, and a free name. */
  predicate Occupied(t: Tree, x: string, y: string) {
    IsFile(t, README) && IsFile(t, [x]) && x != "README.md" && PlainName(x) && [y] !in t && PlainName(y) && ValidName(y)
  }

  /** README.md is to be moved to itself, which is skipped, and is then renamed. */
  function SetAside(s: State, y: string, fuel: nat): State {
    if IsFile(s.tree, README) then RunCommand(RunCommand(s, Execute([MoveOf(s.tree, README, README)]), fuel).s, RenameFile(README, y), fuel).s else s
  }

  lemma SetAsideRun(s: State, x: string, y: string, fuel: nat)
    requires WellFormed(s.tree) && s.journal == [] && Occupied(s.tree, x, y) && fuel >= 3
    ensures var r := SetAside(s, y, fuel); var later := s.clock + 1;
            WellFormed(r.tree) && README !in r.tree && IsFile(r.tree, [x]) && r.tree[[x]] == s.tree[[x]]
            && r.journal == [Entry(s.clock, Planned, Move, README, README), Entry(later, Planned, Move, README, [y]), Entry(later, Executed, Move, README, [y])]
  {
    var q := MoveOf(s.tree, README, README);
    ReadmeName(y);
    MoveIsSkipped(s, q, fuel);
    RenameIsDone(RunCommand(s, Execute([q]), fuel).s, README, y, fuel);
  }

  lemma SetAsideState(s: State, x: string, y: string, fuel: nat)
    requires WellFormed(s.tree) && s.journal == [] && Occupied(s.tree, x, y) && fuel >= 3
    ensures var r := SetAside(s, y, fuel);
            WellFormed(r.tree) && Orderly(r) && README !in r.tree && IsFile(r.tree, [x]) && r.tree[[x]] == s.tree[[x]]
            && PendingPlanned(r.journal, README, README) == Some(s.clock)
            && Entry(s.clock, Planned, Move, README, README) in r.journal && PhaseOf(r.journal, s.clock) == Open
  {
    var q, r := MoveOf(s.tree, README, README), SetAside(s, y, fuel);
    SetAsideRun(s, x, y, fuel);
    OrderlyTwice(s, Execute([q]), RenameFile(README, y), fuel);
    StillPending(r.journal, s.clock, q, s.clock + 1, [y]);
    assert r.journal[0] == Entry(s.clock, Planned, Move, README, README);
    PendingIsOpen(r, s.clock);
  }

  lemma PendingIsOpen(r: State, id: nat)
    requires Orderly(r) && PendingPlanned(r.journal, README, README) == Some(id)
    ensures PhaseOf(r.journal, id) == Open
  {
    PhaseMeans(r.journal, id);
  }

  /** A batch of two proposals that is not cut. */
  lemma TwoItems(s: State, a: Proposal, b: Proposal, fuel: nat)
    requires var m := ItemScript(s, Precheck(s.tree, a), s.journal);
             var q := Do(s, m.Steps());
             !m.out.Failed? && fuel >= |m.Steps()| + |ItemScript(q, Precheck(s.tree, b), s.journal).Steps()|
    ensures var q := Do(s, ItemScript(s, Precheck(s.tree, a), s.journal).Steps());
            RunCommand(s, Execute([a, b]), fuel).s == Do(q, ItemScript(q, Precheck(s.tree, b), s.journal).Steps())
  {
    var jobs := ItemJobs(s.tree, [a, b], s.journal);
    var m := ItemScript(s, Precheck(s.tree, a), s.journal);
    RunTurn(s, jobs, fuel);
    RunTurn(Do(s, m.Steps()), jobs[1..], fuel - |m.Steps()|);
    assert jobs[1..][1..] == [];
  }

  /** The file x is moved to README.md, and a write of README.md then recovers the old plan. */
  function Retitled(s: State, x: string, content: string, fuel: nat): State {
    if IsFile(s.tree, [x]) then RunCommand(s, Execute([MoveOf(s.tree, [x], README), WriteOf(content, 1)]), fuel).s else s
  }

  /** The first of the two items. */
  lemma RetitleMove(s: State, x: string)
    requires WellFormed(s.tree) && README !in s.tree && IsFile(s.tree, [x]) && PlainName(x)
    ensures var c := Precheck(s.tree, MoveOf(s.tree, [x], README)); var m := ItemScript(s, c, s.journal); var q := Do(s, m.Steps());
            m.out.Done? && |m.Steps()| == 3 && IsFile(q.tree, README) && q.tree[README] == s.tree[[x]]
            && q.journal == s.journal + [CheckRow(s.clock, Planned, c).entry, CheckRow(s.clock, Executed, c).entry]
  {
    ReadmeName(x);
    TopName(x);
    var c := Precheck(s.tree, MoveOf(s.tree, [x], README));
    assert CanMakeDirs(s.tree, []) && MkdirSteps(s.tree, []) == [];
    assert [x][0] == x && README[0] == "README.md" && c.status.Ready?;
    MoveIsDone(s, c);
  }

  /** The second one, where README.md is there again. */
  lemma WriteRecovers(q: State, t: Tree, content: string, prior: seq<Entry>, id: nat)
    requires README !in t && IsFile(q.tree, README) && PendingPlanned(prior, README, README) == Some(id)
    ensures ItemScript(q, Precheck(t, WriteOf(content, 1)), prior) == Script([], [Row(Entry(id, Executed, ReadmeWrite, README, README))], Done)
  {
    ReadmeName("");
  }

  lemma RetitledRun(s: State, x: string, content: string, id: nat, fuel: nat)
    requires WellFormed(s.tree) && README !in s.tree && IsFile(s.tree, [x]) && PlainName(x) && fuel >= 4
    requires PendingPlanned(s.journal, README, README) == Some(id)
    ensures var c, r := Precheck(s.tree, MoveOf(s.tree, [x], README)), Retitled(s, x, content, fuel);
            IsFile(r.tree, README) && r.tree[README] == s.tree[[x]]
            && r.journal == s.journal + [CheckRow(s.clock, Planned, c).entry, CheckRow(s.clock, Executed, c).entry]
                            + [Entry(id, Executed, ReadmeWrite, README, README)]
  {
    var a, b := MoveOf(s.tree, [x], README), WriteOf(content, 1);
    RetitleMove(s, x);
    var q := Do(s, ItemScript(s, Precheck(s.tree, a), s.journal).Steps());
    WriteRecovers(q, s.tree, content, s.journal, id);
    TwoItems(s, a, b, fuel);
    DoOne(q, Row(Entry(id, Executed, ReadmeWrite, README, README)));
  }

  lemma RetitledState(s: State, x: string, content: string, id: nat, fuel: nat)
    requires WellFormed(s.tree) && Orderly(s) && README !in s.tree && IsFile(s.tree, [x]) && PlainName(x) && fuel >= 4
    requires PendingPlanned(s.journal, README, README) == Some(id) && PhaseOf(s.journal, id) == Open
    ensures var r := Retitled(s, x, content, fuel); var e := Entry(id, Executed, ReadmeWrite, README, README);
            WellFormed(r.tree) && Orderly(r) && IsFile(r.tree, README) && r.tree[README] == s.tree[[x]] && s.journal <= r.journal && e in r.journal
            && PhaseOf(r.journal, id) == Executing
  {
    RetitledRun(s, x, content, id, fuel);
    CommandKeepsOrder(s, Execute([MoveOf(s.tree, [x], README), WriteOf(content, 1)]), fuel);
    FreshId(s, s.clock);
    RecoveredPhase(s, Precheck(s.tree, MoveOf(s.tree, [x], README)), Entry(id, Executed, ReadmeWrite, README, README));
  }

  lemma RecoveredPhase(s: State, c: Check, e: Entry)
    requires PhaseOf(s.journal, e.id) == Open && e.id != s.clock && e.status.Executed?
    ensures PhaseOf(s.journal + [CheckRow(s.clock, Planned, c).entry, CheckRow(s.clock, Executed, c).entry] + [e], e.id) == Executing
  {
    var more := [CheckRow(s.clock, Planned, c).entry, CheckRow(s.clock, Executed, c).entry];
    OthersPass(s.journal, more, e.id);
    PhaseSnoc(s.journal + more, e, e.id);
  }

  /** Undoing that operation copies README.md onto itself. */
  lemma UndoEmpties(s: State, id: nat, fuel: nat)
    requires WellFormed(s.tree) && Orderly(s) && IsFile(s.tree, README) && PhaseOf(s.journal, id) == Executing && fuel >= 3
    requires Entry(id, Executed, ReadmeWrite, README, README) in s.journal
    ensures var t := RunCommand(s, Undo(Some(id)), fuel).s.tree; IsFile(t, README) && t[README].content == ""
  {
    var e := Entry(id, Executed, ReadmeWrite, README, README);
    CopiedOntoItself(s, e);
    PhaseMeans(s.journal, id);
    UndoRunsItsRow(s, e, fuel);
  }

  lemma CopiedOntoItself(s: State, e: Entry)
    requires IsFile(s.tree, README) && e == Entry(e.id, Executed, ReadmeWrite, README, README)
    ensures var m := UndoReadme(s, e); |m.Steps()| == 3 && var t := Do(s, m.Steps()).tree; IsFile(t, README) && t[README].content == ""
  {
    Acted(s, UndoReadme(s, e));
  }

  /** With README.md there, the history refuses to undo a move of it to itself. */
  lemma HistoryRefuses(r: State, p: Entry)
    requires Tidy(r) && README in r.tree && p in r.journal && p == Entry(p.id, Planned, Move, README, README)
    ensures var i := Find(Fold(r.journal), p.id); i < |HistoryOf(r.tree, r.journal)| && !HistoryOf(r.tree, r.journal)[i].canUndo
  {
    StageMeans(r.journal, p.id);
    FoldLists(r.journal, p.id);
    var op := HistoryOf(r.tree, r.journal)[Find(Fold(r.journal), p.id)];
    HistoryShows(r, p.id, op);
    ShownPlan(r, p.id, op);
  }

  /**
   From an empty journal: a move of README.md to itself is skipped, README.md is renamed, and a batch moves
   x to README.md and writes a README.md of another size. The write recovers the skipped plan. The history
   refuses to undo it, because README.md is there; but undo runs, and README.md, which is the file that was
   x, is empty after it.
   */
  lemma RefusedUndoEmpties(s: State, x: string, y: string, content: string, fuel: nat, undoFuel: nat)
    requires WellFormed(s.tree) && s.journal == [] && Occupied(s.tree, x, y) && fuel >= 4 && undoFuel >= 3
    ensures var r := Retitled(SetAside(s, y, fuel), x, content, fuel);
            var i := Find(Fold(r.journal), s.clock);
            var t := RunCommand(r, Undo(Some(s.clock)), undoFuel).s.tree;
            i < |HistoryOf(r.tree, r.journal)| && !HistoryOf(r.tree, r.journal)[i].canUndo
            && IsFile(r.tree, README) && r.tree[README] == s.tree[[x]] && IsFile(t, README) && t[README].content == ""
  {
    var plan := Entry(s.clock, Planned, Move, README, README);
    SetAsideState(s, x, y, fuel);
    RetitledState(SetAside(s, y, fuel), x, content, s.clock, fuel);
    var r := Retitled(SetAside(s, y, fuel), x, content, fuel);
    UndoEmpties(r, s.clock, undoFuel);
    StaysIn(SetAside(s, y, fuel).journal, r.journal);
    HistoryRefuses(r, plan);
  }
}
