/** The rows that the scripts append, and what they say about their operation. */
module JournalRows {
  import opened FileSystem
  import opened Journal
  import opened Scripts
  import opened Steps
  import opened Wrappers

  /** The paths of the operation a row belongs to: undo rows carry them swapped. */
  function Ends(e: Entry): (Path, Path) {
    if e.status.UndoPlanned? || e.status.Undone? then (e.to, e.from) else (e.from, e.to)
  }

  /** Executed rows: moves have paths the guard accepts, the root is neither moved nor created. */
  predicate ExecutedOk(e: Entry) {
    e.status.Executed? ==>
      match e.action
      case CreateDir => e.to != []
      case CreateFile => true
      case ReadmeWrite => e.to == README
      case _ => !Unsafe(e.from) && !Unsafe(e.to) && e.from != []
  }

  /** The action of an executed row, given the action it was planned under. */
  predicate ActionOk(planned: Action, executed: Entry) {
    planned == executed.action
    || (planned.Move? && (executed.action.Trash? || (executed.action.ReadmeWrite? && executed.from == executed.to)))
  }

  // ----- Scripts that open a new operation

  /** The rows of a script: nothing, or a new operation planned and perhaps executed. */
  predicate NewOperation(id: nat, rows: seq<Entry>) {
    |rows| <= 2
    && (|rows| >= 1 ==> rows[0].status.Planned? && rows[0].id == id)
    && (|rows| == 2 ==> rows[1].status.Executed? && rows[1].id == id && rows[1].action == rows[0].action && Ends(rows[1]) == Ends(rows[0]) && ExecutedOk(rows[1]))
  }

  lemma RowsOfScript(m: Script)
    requires m.act == [] || (|m.act| == 2 && m.act[0].Sys? && m.act[1].Row?)
    ensures RowsOf(m.Steps()) == RowsOf(m.prep) + if m.act == [] then [] else [m.act[1].entry]
  {
    RowsOfConcat(m.prep, m.act);
    if m.act != [] {
      assert m.act == [m.act[0], m.act[1]];
      RowsOfFew(m.act[0], m.act[1]);
    }
  }

  lemma RowsOfOne(row: Step)
    requires row.Row?
    ensures RowsOf([row]) == [row.entry]
  {
    RowsOfFew(row, row);
  }

  lemma RowsOfDirs(row: Step, t: Tree, p: Path)
    requires row.Row?
    ensures RowsOf([row] + MkdirSteps(t, p)) == [row.entry]
  {
    RowsOfConcat([row], MkdirSteps(t, p));
    RowsOfMkdirs(t, p);
    RowsOfOne(row);
  }

  /** Planned once, and executed after that or not at all. */
  lemma PlanThenExecute(rows: seq<Entry>, id: nat, planned: Entry, executed: Entry, m: Script)
    requires rows == [planned] + if m.act == [] then [] else [executed]
    requires planned.status.Planned? && planned.id == id
    requires m.act != [] ==> executed.status.Executed? && executed.id == id && executed.action == planned.action
                             && executed.from == planned.from && executed.to == planned.to && ExecutedOk(executed)
    ensures NewOperation(id, rows)
  {
  }

  /** A row and perhaps directories, then a call and the closing row, or not. */
  lemma RowThenDirs(m: Script, planned: Step, dirs: seq<Step>, executed: Step)
    requires planned.Row? && executed.Row? && RowsOf(dirs) == [] && (m.prep == [planned] || m.prep == [planned] + dirs)
    requires m.act == [] || (|m.act| == 2 && m.act[0].Sys? && m.act[1] == executed)
    ensures RowsOf(m.Steps()) == [planned.entry] + if m.act == [] then [] else [executed.entry]
  {
    RowsOfScript(m);
    RowsOfOne(planned);
    RowsOfConcat([planned], dirs);
  }

  lemma MoveRows(s: State, c: Check)
    requires c.action.Move?
    ensures NewOperation(s.clock, RowsOf(MoveScript(s, c).Steps()))
  {
    var m, planned, executed := MoveScript(s, c), CheckRow(s.clock, Planned, c), CheckRow(s.clock, Executed, c);
    var dirs := if c.to == [] then [] else MkdirSteps(s.tree, Parent(c.to));
    assert RowsOf(dirs) == [] by {
      if c.to != [] { RowsOfMkdirs(s.tree, Parent(c.to)); }
    }
    RowThenDirs(m, planned, dirs, executed);
    PlanThenExecute(RowsOf(m.Steps()), s.clock, planned.entry, executed.entry, m);
  }

  /** A row and directories, then perhaps a call. */
  lemma RowsOfPrep(planned: Step, t: Tree, home: Path, call: Step)
    requires planned.Row? && call.Sys?
    ensures RowsOf([planned]) == RowsOf([planned] + MkdirSteps(t, home)) == [planned.entry]
    ensures RowsOf([planned] + MkdirSteps(t, home) + [call]) == [planned.entry]
  {
    RowsOfOne(planned);
    RowsOfDirs(planned, t, home);
    RowsOfConcat([planned] + MkdirSteps(t, home), [call]);
    RowsOfFew(call, call);
  }

  lemma TrashRows(s: State, from: Path)
    requires WellFormed(s.tree)
    ensures NewOperation(s.clock, RowsOf(TrashScript(s, from).Steps()))
  {
    var m, planned, home := TrashScript(s, from), TrashRow(s.clock, Planned, from), TrashHome(s.clock);
    RowsOfScript(m);
    RowsOfPrep(planned, s.tree, home, Sys(Write(Metadata(s.clock), METADATA_TEXT)));
    if m.prep == [] {
      assert RowsOf([]) == [];
    } else {
      SafePayload(s.clock);
      PlanThenExecute(RowsOf(m.Steps()), s.clock, planned.entry, TrashRow(s.clock, Executed, from).entry, m);
    }
  }

  /** Directories and a call leave no row; the row after them is the only one. */
  lemma RowsWithKeepsake(dirs: seq<Step>, keep: Step, planned: Step)
    requires RowsOf(dirs) == [] && keep.Sys? && planned.Row?
    ensures RowsOf(dirs + [keep, planned]) == [planned.entry]
  {
    RowsOfConcat(dirs, [keep, planned]);
    RowsOfFew(keep, planned);
  }

  lemma ReadmeRows(s: State, c: Check)
    ensures NewOperation(s.clock, RowsOf(ReadmeScript(s, c).Steps()))
  {
    var m, dirs, planned := ReadmeScript(s, c), MkdirSteps(s.tree, BACKUP_DIR), ReadmeRow(s.clock, Planned);
    RowsOfScript(m);
    RowsOfMkdirs(s.tree, BACKUP_DIR);
    if m.act == [] {
      assert RowsOf([]) == [];
    } else {
      RowsWithKeepsake(dirs, Sys(Keepsake(s.tree, s.clock)), planned);
      PlanThenExecute(RowsOf(m.Steps()), s.clock, planned.entry, ReadmeRow(s.clock, Executed).entry, m);
    }
  }

  lemma ReadmePreparedJournal(s: State, c: Check)
    requires WellFormed(s.tree) && ReadmeScript(s, c).out.Done?
    ensures Do(s, ReadmeScript(s, c).prep).journal == s.journal + [ReadmeRow(s.clock, Planned).entry]
  {
    RowsOfMkdirs(s.tree, BACKUP_DIR);
    DoJournal(s, ReadmeScript(s, c).prep);
    RowsWithKeepsake(MkdirSteps(s.tree, BACKUP_DIR), Sys(Keepsake(s.tree, s.clock)), ReadmeRow(s.clock, Planned));
  }

  lemma CreateRows(s: State, c: Check, m: Script)
    requires c.action.CreateDir? || c.action.CreateFile?
    requires m.prep == [CheckRow(s.clock, Planned, c)]
    requires m.act == [] || (|m.act| == 2 && m.act[0].Sys? && m.act[1] == CheckRow(s.clock, Executed, c) && c.to != [])
    ensures NewOperation(s.clock, RowsOf(m.Steps()))
  {
    RowsOfScript(m);
    RowsOfOne(CheckRow(s.clock, Planned, c));
    PlanThenExecute(RowsOf(m.Steps()), s.clock, CheckRow(s.clock, Planned, c).entry, CheckRow(s.clock, Executed, c).entry, m);
  }

  lemma ReadyRows(s: State, c: Check, prior: seq<Entry>)
    requires WellFormed(s.tree) && c.status.Ready?
    ensures NewOperation(s.clock, RowsOf(ItemScript(s, c, prior).Steps()))
  {
    var m := ItemScript(s, c, prior);
    match c.action {
      case Move => MoveRows(s, c);
      case Trash => TrashRows(s, c.from);
      case ReadmeWrite => ReadmeRows(s, c);
      case _ => CreateRows(s, c, m);
    }
  }

  lemma RenameRows(s: State, p: Path, name: string)
    ensures NewOperation(s.clock, RowsOf(RenameScript(s, p, name).Steps()))
  {
    var m := RenameScript(s, p, name);
    RowsOfScript(m);
    if m.prep == [] {
      assert RowsOf([]) == [];
    } else {
      RowsOfOne(m.prep[0]);
      PlanThenExecute(RowsOf(m.Steps()), s.clock, m.prep[0].entry, m.act[1].entry, m);
    }
  }

  lemma CreateEmptyRows(s: State, p: Path)
    ensures RowsOf(CreateEmptyScript(s, p).Steps()) == []
  {
    var m := CreateEmptyScript(s, p);
    assert RowsOf([]) == [];
    if m.act != [] {
      assert m.Steps() == [m.act[0]];
      RowsOfFew(m.act[0], m.act[0]);
    }
  }

  lemma PlanRows(s: State, c: Check)
    ensures NewOperation(s.clock, RowsOf(PlanScript(s, c).Steps()))
  {
    var m := PlanScript(s, c);
    assert RowsOf([]) == [];
    if m.prep != [] {
      assert m.Steps() == [m.prep[0]];
      RowsOfOne(m.prep[0]);
    }
  }

  lemma SingleRows(s: State, job: Job)
    requires WellFormed(s.tree) && !job.Item? && !job.Reverse?
    ensures NewOperation(s.clock, RowsOf(ScriptOf(s, job).Steps()))
  {
    match job {
      case TrashOne(p) => TrashRows(s, p);
      case RenameOne(p, name) => RenameRows(s, p, name);
      case CreateOne(p) => CreateEmptyRows(s, p);
      case PlanOne(c) => PlanRows(s, c);
    }
  }

  // ----- Undo scripts

  /** Undo rows of operation e: an attempt or not, then the final row or not. */
  predicate UndoRows(e: Entry, rows: seq<Entry>) {
    var planned, undone := UndoRow(e, UndoPlanned).entry, UndoRow(e, Undone).entry;
    rows == [] || rows == [planned] || rows == [undone] || rows == [planned, undone]
  }

  lemma UndoScriptRows(s: State, e: Entry, undone: set<nat>, only: Option<nat>)
    ensures UndoRows(e, RowsOf(UndoScript(s, e, undone, only).Steps()))
  {
    var m := UndoScript(s, e, undone, only);
    assert RowsOf([]) == [];
    RowsOfOne(UndoRow(e, UndoPlanned));
    if m.prep != [] && m.prep != [UndoRow(e, UndoPlanned)] {
      UndoMovePrepRows(s, e);
    }
    ShapedUndoRows(e, m);
  }

  lemma UndoMovePrepRows(s: State, e: Entry)
    requires UndoMove(s, e).prep != []
    ensures RowsOf(UndoMove(s, e).prep) == [] || RowsOf(UndoMove(s, e).prep) == [UndoRow(e, UndoPlanned).entry]
  {
    var dirs := MkdirSteps(s.tree, Parent(e.from));
    RowsOfMkdirs(s.tree, Parent(e.from));
    RowsOfConcat(dirs, [UndoRow(e, UndoPlanned)]);
    RowsOfOne(UndoRow(e, UndoPlanned));
  }

  lemma ShapedUndoRows(e: Entry, m: Script)
    requires RowsOf(m.prep) == [] || RowsOf(m.prep) == [UndoRow(e, UndoPlanned).entry]
    requires m.act == [] || m.act == [UndoRow(e, Undone)] || (|m.act| == 2 && m.act[0].Sys? && m.act[1] == UndoRow(e, Undone))
    ensures UndoRows(e, RowsOf(m.Steps()))
  {
    RowsOfConcat(m.prep, m.act);
    assert RowsOf([]) == [];
    if |m.act| == 1 {
      RowsOfOne(UndoRow(e, Undone));
    } else if |m.act| == 2 {
      assert m.act == [m.act[0], m.act[1]];
      RowsOfFew(m.act[0], m.act[1]);
    }
  }

  lemma UndoRowsPrefix(e: Entry, rows: seq<Entry>, part: seq<Entry>)
    requires UndoRows(e, rows) && part <= rows
    ensures UndoRows(e, part)
  {
    assert part == rows[..|part|];
  }

  lemma StaysIn(rows: seq<Entry>, later: seq<Entry>)
    requires rows <= later
    ensures forall e :: e in rows ==> e in later
  {
    forall e | e in rows ensures e in later {
      var x :| 0 <= x < |rows| && rows[x] == e;
      assert later[x] == e;
    }
  }
}
