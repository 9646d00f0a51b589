/**
 The engine as it is written: objects that change the tree and the journal step by step, checking the
 result of every call. Each method is proved to do exactly what the script of its operation says,
 with power for `fuel` more steps.
 */
module Engine {
  import opened FileSystem
  import opened Journal
  import opened Scripts
  import opened Steps
  import opened Wrappers

  /** From s0 with power f0, the steps were made as far as the power went. */
  ghost predicate Reached(s0: State, f0: nat, steps: seq<Step>, alive: bool, s1: State, f1: nat) {
    alive == (|steps| <= f0)
    && (if alive then s1 == Do(s0, steps) && f1 == f0 - |steps| else s1 == Do(s0, steps[..f0]) && f1 == 0)
  }

  lemma ReachedNothing(s: State, f: nat)
    ensures Reached(s, f, [], true, s, f)
  {
  }

  lemma ReachedThen(s0: State, f0: nat, a: seq<Step>, s1: State, f1: nat, b: seq<Step>, alive: bool, s2: State, f2: nat)
    requires Reached(s0, f0, a, true, s1, f1) && Reached(s1, f1, b, alive, s2, f2)
    ensures Reached(s0, f0, a + b, alive, s2, f2)
  {
    if alive {
      DoConcat(s0, a, b);
    } else {
      assert (a + b)[..f0] == a + b[..f1];
      DoConcat(s0, a, b[..f1]);
    }
  }

  lemma ReachedCut(s0: State, f0: nat, a: seq<Step>, s1: State, f1: nat, rest: seq<Step>)
    requires Reached(s0, f0, a, false, s1, f1)
    ensures Reached(s0, f0, a + rest, false, s1, f1)
  {
    assert (a + rest)[..f0] == a[..f0];
  }

  lemma ReachedOne(s: State, f: nat, step: Step)
    requires f > 0
    ensures Reached(s, f, [step], true, Apply(s, step), f - 1)
  {
    DoOne(s, step);
  }

  datatype Answer = Ok | Refused | Dead

  class Machine {
    var tree: Tree
    var journal: seq<Entry>
    var clock: nat
    var fuel: nat

    constructor (s: State, f: nat)
      ensures Now() == s && fuel == f
    {
      tree, journal, clock, fuel := s.tree, s.journal, s.clock, f;
    }

    function Now(): State
      reads this
    {
      State(tree, journal, clock)
    }

    /** `JournalStore::append`. */
    method Append(e: Entry) returns (alive: bool)
      modifies this
      ensures Reached(old(Now()), old(fuel), [Row(e)], alive, Now(), fuel)
    {
      alive := fuel > 0;
      if alive {
        ReachedOne(Now(), fuel, Row(e));
        journal, clock, fuel := journal + [e], clock + 1, fuel - 1;
      } else {
        assert Do(Now(), [Row(e)][..0]) == Now();
      }
    }

    /** One system call: performed, refused without a trace, or never reached. */
    method Perform(call: Call) returns (answer: Answer)
      modifies this
      ensures answer.Refused? <==> !Enabled(old(tree), call)
      ensures answer.Refused? ==> Now() == old(Now()) && fuel == old(fuel)
      ensures !answer.Refused? ==> Reached(old(Now()), old(fuel), [Sys(call)], answer.Ok?, Now(), fuel)
    {
      if !Enabled(tree, call) {
        answer := Refused;
      } else if fuel == 0 {
        assert Do(Now(), [Sys(call)][..0]) == Now();
        answer := Dead;
      } else {
        ReachedOne(Now(), fuel, Sys(call));
        tree, clock, fuel := Effect(tree, call, clock), clock + 1, fuel - 1;
        answer := Ok;
      }
    }

    /** `create_dir_all`: the parent first, then the directory itself. */
    method CreateDirAll(p: Path) returns (ok: bool, alive: bool)
      requires WellFormed(tree)
      modifies this
      ensures !CanMakeDirs(old(tree), p) ==> !ok && alive && Now() == old(Now()) && fuel == old(fuel)
      ensures CanMakeDirs(old(tree), p) ==>
                (alive ==> ok) && Reached(old(Now()), old(fuel), MkdirSteps(old(tree), p), alive, Now(), fuel)
      decreases |p|
    {
      ghost var s0, f0 := Now(), fuel;
      alive := true;
      if p in tree {
        ok := IsDir(tree, p);
        ReachedNothing(s0, f0);
      } else {
        ok, alive := CreateDirAll(Parent(p));
        ghost var before := MkdirSteps(s0.tree, Parent(p));
        if alive && ok {
          Mkdirs(s0, Parent(p));
          AddDirsAdds(s0.tree, Parent(p));
          AddDirsMakes(s0.tree, Parent(p));
          ghost var s1, f1 := Now(), fuel;
          var answer := Perform(Mkdir(p));
          ok, alive := !answer.Refused?, !answer.Dead?;
          ReachedThen(s0, f0, before, s1, f1, [Sys(Mkdir(p))], alive, Now(), fuel);
        } else if !alive {
          ReachedCut(s0, f0, before, Now(), fuel, [Sys(Mkdir(p))]);
        }
      }
    }

    /** The common end of an operation: its effect and its closing row. */
    method ActAndClose(call: Call, e: Entry) returns (out: Outcome, alive: bool)
      modifies this
      ensures !Enabled(old(tree), call) ==> alive && out == Failed && Now() == old(Now()) && fuel == old(fuel)
      ensures Enabled(old(tree), call) ==>
                (alive ==> out == Done) && Reached(old(Now()), old(fuel), [Sys(call), Row(e)], alive, Now(), fuel)
    {
      ghost var s0, f0 := Now(), fuel;
      var answer := Perform(call);
      out, alive := Failed, true;
      assert [Sys(call)] + [Row(e)] == [Sys(call), Row(e)];
      if answer.Ok? {
        ghost var s1, f1 := Now(), fuel;
        alive := Append(e);
        out := Done;
        ReachedThen(s0, f0, [Sys(call)], s1, f1, [Row(e)], alive, Now(), fuel);
      } else if answer.Dead? {
        alive := false;
        ReachedCut(s0, f0, [Sys(call)], Now(), fuel, [Row(e)]);
      }
    }

    // ----- Execute

    /** Journal the plan, then make the directories it needs. */
    method PlanWithDirs(e: Entry, p: Path) returns (ok: bool, alive: bool)
      requires WellFormed(tree)
      modifies this
      ensures !CanMakeDirs(old(tree), p) ==> (alive ==> !ok) && Reached(old(Now()), old(fuel), [Row(e)], alive, Now(), fuel)
      ensures CanMakeDirs(old(tree), p) ==>
                (alive ==> ok && tree == AddDirs(old(tree), p) && WellFormed(tree) && IsDir(tree, p))
                && Reached(old(Now()), old(fuel), [Row(e)] + MkdirSteps(old(tree), p), alive, Now(), fuel)
    {
      ghost var s0, f0, dirs := Now(), fuel, MkdirSteps(tree, p);
      ok := false;
      alive := Append(e);
      if !alive {
        ReachedCut(s0, f0, [Row(e)], Now(), fuel, dirs);
        return;
      }
      DoOne(s0, Row(e));
      ghost var s1, f1 := Now(), fuel;
      ok, alive := CreateDirAll(p);
      if CanMakeDirs(s0.tree, p) {
        ReachedThen(s0, f0, [Row(e)], s1, f1, dirs, alive, Now(), fuel);
        Mkdirs(s1, p);
        AddDirsMakes(s0.tree, p);
      }
    }

    /** `execute_move`. */
    method ExecuteMove(c: Check) returns (out: Outcome, alive: bool)
      requires WellFormed(tree) && c.action.Move?
      modifies this
      ensures Reached(old(Now()), old(fuel), MoveScript(old(Now()), c).Steps(), alive, Now(), fuel)
      ensures alive ==> out == MoveScript(old(Now()), c).out
    {
      ghost var s0, f0 := Now(), fuel;
      ghost var m := MoveScript(s0, c);
      var e := Entry(clock, Planned, Move, c.from, c.to);
      assert m.act == [] ==> m.Steps() == m.prep;
      out := Skipped;
      if ResolveExisting(tree, c.from) != Found {
        alive := Append(e);
        return;
      }
      out := Failed;
      if ResolveForCreate(tree, c.to).Rejected? {
        alive := Append(e);
        return;
      }
      var ok;
      ok, alive := PlanWithDirs(e, Parent(c.to));
      if !alive || !ok {
        ReachedPart(s0, f0, m.prep, alive, Now(), fuel, m.act);
        return;
      }
      AddDirsAdds(s0.tree, Parent(c.to));
      if c.to in tree {
        out := Skipped;
        return;
      }
      ghost var s1, f1 := Now(), fuel;
      out, alive := ActAndClose(Rename(c.from, c.to), e.(status := Executed));
      if c.from <= c.to {
        assert out == Failed;
      } else {
        ReachedThen(s0, f0, m.prep, s1, f1, m.act, alive, Now(), fuel);
      }
    }

    /** `trash_file`: row, directory, metadata, rename, row. */
    method Trash(from: Path) returns (out: Outcome, alive: bool)
      requires WellFormed(tree)
      modifies this
      ensures Reached(old(Now()), old(fuel), TrashScript(old(Now()), from).Steps(), alive, Now(), fuel)
      ensures alive ==> out == TrashScript(old(Now()), from).out
    {
      ghost var s0, f0 := Now(), fuel;
      ghost var m := TrashScript(s0, from);
      assert m.act == [] ==> m.Steps() == m.prep;
      out, alive := Failed, true;
      if ResolveExisting(tree, from) != Found || !IsFile(tree, from) {
        ReachedNothing(s0, f0);
        return;
      }
      var id := clock;
      var e := Entry(id, Planned, Action.Trash, from, Payload(id));
      ghost var start := [Row(e)] + MkdirSteps(tree, TrashHome(id));
      var ok;
      ok, alive := PlanWithDirs(e, TrashHome(id));
      if !ok || !alive {
        if !alive && CanMakeDirs(s0.tree, TrashHome(id)) { TrashPrefix(s0, from, start); ReachedCut(s0, f0, start, Now(), fuel, m.Steps()[|start|..]); }
        return;
      }
      TrashRoom(s0.tree, id, tree);
      if Payload(id) in tree || Metadata(id) in tree {
        return;
      }
      ghost var s1, f1 := Now(), fuel;
      out, alive := TrashInto(from, id);
      ReachedThen(s0, f0, start, s1, f1, [Sys(Write(Metadata(id), METADATA_TEXT))] + m.act, alive, Now(), fuel);
      assert m.Steps() == start + ([Sys(Write(Metadata(id), METADATA_TEXT))] + m.act);
    }

    /** The part of `trash_file` after the trash directory exists. */
    method TrashInto(from: Path, id: nat) returns (out: Outcome, alive: bool)
      requires WellFormed(tree) && IsDir(tree, TrashHome(id)) && IsFile(tree, from) && Payload(id) !in tree && Metadata(id) !in tree
      modifies this
      ensures Reached(old(Now()), old(fuel), [Sys(Write(Metadata(id), METADATA_TEXT))]
                      + [Sys(Rename(from, Payload(id))), TrashRow(id, Executed, from)], alive, Now(), fuel)
      ensures alive ==> out == Done
    {
      ghost var s0, f0 := Now(), fuel;
      var call := Write(Metadata(id), METADATA_TEXT);
      ghost var act := [Sys(Rename(from, Payload(id))), TrashRow(id, Executed, from)];
      assert Parent(Metadata(id)) == TrashHome(id);
      out := Done;
      var answer := Perform(call);
      alive := answer.Ok?;
      if !alive {
        ReachedCut(s0, f0, [Sys(call)], Now(), fuel, act);
        return;
      }
      DoOne(s0, Sys(call));
      TrashFits(s0.tree, id, from);
      ghost var s1, f1 := Now(), fuel;
      out, alive := ActAndClose(Rename(from, Payload(id)), Entry(id, Executed, Action.Trash, from, Payload(id)));
      ReachedThen(s0, f0, [Sys(call)], s1, f1, act, alive, Now(), fuel);
    }

    /** `execute_create_dir`. */
    method ExecuteCreateDir(c: Check) returns (out: Outcome, alive: bool)
      requires c.action.CreateDir?
      modifies this
      ensures Reached(old(Now()), old(fuel), CreateDirScript(old(Now()), c).Steps(), alive, Now(), fuel)
      ensures alive ==> out == CreateDirScript(old(Now()), c).out
    {
      ghost var s0, f0 := Now(), fuel;
      ghost var m, planned := CreateDirScript(s0, c), CheckRow(clock, Planned, c);
      var id := clock;
      out := Skipped;
      assert m.Steps() == [planned] + m.act;
      assert [planned] + [] == [planned];
      alive := Append(Entry(id, Planned, CreateDir, c.from, c.to));
      if !alive {
        ReachedCut(s0, f0, [planned], Now(), fuel, m.act);
        return;
      }
      DoOne(s0, planned);
      if ResolveForCreate(tree, c.to) != Found || c.to in tree {
        return;
      }
      ghost var s1, f1 := Now(), fuel;
      out, alive := ActAndClose(Mkdir(c.to), Entry(id, Executed, CreateDir, c.from, c.to));
      if m.act != [] {
        ReachedThen(s0, f0, [planned], s1, f1, m.act, alive, Now(), fuel);
      }
    }

    /** `execute_create_file`. */
    method ExecuteCreateFile(c: Check) returns (out: Outcome, alive: bool)
      requires c.action.CreateFile?
      modifies this
      ensures Reached(old(Now()), old(fuel), CreateFileScript(old(Now()), c).Steps(), alive, Now(), fuel)
      ensures alive ==> out == CreateFileScript(old(Now()), c).out
    {
      ghost var s0, f0 := Now(), fuel;
      ghost var m, planned := CreateFileScript(s0, c), CheckRow(clock, Planned, c);
      var id := clock;
      out := Skipped;
      assert m.Steps() == [planned] + m.act;
      assert [planned] + [] == [planned];
      alive := Append(Entry(id, Planned, CreateFile, c.from, c.to));
      if !alive {
        ReachedCut(s0, f0, [planned], Now(), fuel, m.act);
        return;
      }
      DoOne(s0, planned);
      if (c.content.Some? && c.content.value != "") || ResolveForCreate(tree, c.to) != Found {
        return;
      }
      ghost var s1, f1 := Now(), fuel;
      out, alive := ActAndClose(Create(c.to), Entry(id, Executed, CreateFile, c.from, c.to));
      if m.act != [] {
        ReachedThen(s0, f0, [planned], s1, f1, m.act, alive, Now(), fuel);
      }
      if alive && out == Failed && c.to in tree {
        out := Skipped;
      }
    }

    /** The directories for the keepsake, then the keepsake. */
    method MakeKeepsake(id: nat) returns (ok: bool, alive: bool)
      requires WellFormed(tree)
      modifies this
      ensures var keep, dirs := Keepsake(old(tree), id), MkdirSteps(old(tree), BACKUP_DIR);
              if !CanMakeDirs(old(tree), BACKUP_DIR) then alive && !ok && Now() == old(Now()) && fuel == old(fuel)
              else if IsDir(old(tree), README) || IsDir(old(tree), keep.path) then (alive ==> !ok) && Reached(old(Now()), old(fuel), dirs, alive, Now(), fuel)
              else (alive ==> ok && Enabled(tree, Write(README, ""))) && Reached(old(Now()), old(fuel), dirs + [Sys(keep)], alive, Now(), fuel)
    {
      ghost var s0, f0, dirs := Now(), fuel, MkdirSteps(tree, BACKUP_DIR);
      var keep := Keepsake(tree, id);
      ok, alive := CreateDirAll(BACKUP_DIR);
      if !alive {
        ReachedCut(s0, f0, dirs, Now(), fuel, [Sys(keep)]);
        return;
      }
      if !ok {
        return;
      }
      Mkdirs(s0, BACKUP_DIR);
      AddDirsAdds(s0.tree, BACKUP_DIR);
      AddDirsMakes(s0.tree, BACKUP_DIR);
      ReadmeRoom(s0.tree, id, tree);
      if IsDir(tree, README) || IsDir(tree, keep.path) {
        ok := false;
        return;
      }
      ghost var s1, f1 := Now(), fuel;
      var answer := Perform(keep);
      alive := answer.Ok?;
      ReachedThen(s0, f0, dirs, s1, f1, [Sys(keep)], alive, Now(), fuel);
      if alive {
        DoOne(s1, Sys(keep));
        ReadmeFits(s1.tree, id, keep, tree, s1.clock);
      }
    }

    /** `execute_readme_write`: the keepsake first, then row, write, row. */
    method ExecuteReadme(c: Check) returns (out: Outcome, alive: bool)
      requires WellFormed(tree)
      modifies this
      ensures Reached(old(Now()), old(fuel), ReadmeScript(old(Now()), c).Steps(), alive, Now(), fuel)
      ensures alive ==> out == ReadmeScript(old(Now()), c).out
    {
      ghost var s0, f0 := Now(), fuel;
      ghost var m := ReadmeScript(s0, c);
      assert m.act == [] ==> m.Steps() == m.prep;
      out, alive := Skipped, true;
      if c.from != README || c.to != README || c.content.None? {
        ReachedNothing(s0, f0);
        return;
      }
      out := Failed;
      var id := clock;
      ghost var start := MkdirSteps(tree, BACKUP_DIR) + [Sys(Keepsake(tree, id))];
      var ok;
      ok, alive := MakeKeepsake(id);
      if !ok || !alive {
        ReachedNothing(s0, f0);
        if !alive && m.act != [] { ReadmePrefix(s0, c, start); ReachedCut(s0, f0, start, Now(), fuel, [ReadmeRow(id, Planned)] + m.act); }
        return;
      }
      ghost var s1, f1 := Now(), fuel;
      out, alive := WriteReadme(c.content.value, id);
      ReadmePrefix(s0, c, start);
      ReachedThen(s0, f0, start, s1, f1, [ReadmeRow(id, Planned)] + m.act, alive, Now(), fuel);
    }

    method WriteReadme(text: string, id: nat) returns (out: Outcome, alive: bool)
      requires Enabled(tree, Write(README, ""))
      modifies this
      ensures Reached(old(Now()), old(fuel), [ReadmeRow(id, Planned)] + [Sys(Write(README, text)), ReadmeRow(id, Executed)], alive, Now(), fuel)
      ensures alive ==> out == Done
    {
      ghost var s0, f0, act := Now(), fuel, [Sys(Write(README, text)), ReadmeRow(id, Executed)];
      out := Done;
      alive := Append(Entry(id, Planned, ReadmeWrite, Backup(id), README));
      if !alive {
        ReachedCut(s0, f0, [ReadmeRow(id, Planned)], Now(), fuel, act);
        return;
      }
      DoOne(s0, ReadmeRow(id, Planned));
      ghost var s1, f1 := Now(), fuel;
      out, alive := ActAndClose(Write(README, text), Entry(id, Executed, ReadmeWrite, Backup(id), README));
      ReachedThen(s0, f0, [ReadmeRow(id, Planned)], s1, f1, act, alive, Now(), fuel);
    }

    /** `recover_planned_move`, with `pending_planned_operation` as its search. */
    method Recover(c: Check, prior: seq<Entry>) returns (out: Outcome, alive: bool)
      modifies this
      ensures Reached(old(Now()), old(fuel), RecoverScript(old(Now()), c, prior).Steps(), alive, Now(), fuel)
      ensures alive ==> out == RecoverScript(old(Now()), c, prior).out
    {
      ghost var s0, f0 := Now(), fuel;
      out, alive := Skipped, true;
      ReachedNothing(s0, f0);
      if !c.status.MissingSource? {
        return;
      }
      var found, id := FindPending(prior, c.from, c.to);
      if !found || ResolveExisting(tree, c.to) != Found {
        return;
      }
      alive := Append(Entry(id, Executed, c.action, c.from, c.to));
      out := Done;
      assert RecoverScript(s0, c, prior).Steps() == [CheckRow(id, Executed, c)];
    }

    /** One checked proposal. */
    method ExecuteItem(c: Check, prior: seq<Entry>) returns (out: Outcome, alive: bool)
      requires WellFormed(tree)
      modifies this
      ensures Reached(old(Now()), old(fuel), ItemScript(old(Now()), c, prior).Steps(), alive, Now(), fuel)
      ensures alive ==> out == ItemScript(old(Now()), c, prior).out
    {
      if !c.status.Ready? {
        out, alive := Recover(c, prior);
      } else {
        match c.action {
          case Move => out, alive := ExecuteMove(c);
          case Trash => out, alive := Trash(c.from);
          case CreateDir => out, alive := ExecuteCreateDir(c);
          case CreateFile => out, alive := ExecuteCreateFile(c);
          case ReadmeWrite => out, alive := ExecuteReadme(c);
        }
      }
    }

    /** `execute_proposals`: all prechecks, one reading of the journal, then item by item. */
    method Execute(proposals: seq<Proposal>) returns (end: End, outs: seq<Outcome>)
      requires WellFormed(tree)
      modifies this
      ensures Run(Now(), end, fuel, outs) == RunCommand(old(Now()), Command.Execute(proposals), old(fuel))
    {
      ghost var run := RunCommand(Now(), Command.Execute(proposals), fuel);
      ghost var jobs := ItemJobs(tree, proposals, journal);
      var checks := seq(|proposals|, i requires 0 <= i < |proposals| reads this => Precheck(tree, proposals[i]));
      var prior := journal;
      outs := [];
      var i := 0;
      while i < |checks|
        invariant i <= |checks| == |jobs| && forall k :: 0 <= k < |jobs| ==> jobs[k] == Item(checks[k], prior)
        invariant WellFormed(tree) && run == Prepend(outs, RunJobs(Now(), jobs[i..], fuel))
      {
        ghost var s0, f0 := Now(), fuel;
        var out, alive := ExecuteItem(checks[i], prior);
        Turned(run, outs, s0, f0, jobs, i, alive, Now(), fuel);
        if !alive {
          end := Crashed;
          return;
        }
        outs := outs + [out];
        if out.Failed? {
          end := Stopped;
          return;
        }
        i := i + 1;
      }
      end := Finished;
    }

    // ----- Undo

    /** The common end of an undo: an attempt row, the effect, the final row. */
    method AttemptAndClose(e: Entry, call: Call) returns (out: Outcome, alive: bool)
      modifies this
      ensures var prep, act := [UndoRow(e, UndoPlanned)], [Sys(call), UndoRow(e, Undone)];
              if Enabled(old(tree), call) then (alive ==> out == Done) && Reached(old(Now()), old(fuel), prep + act, alive, Now(), fuel)
              else (alive ==> out == Failed) && Reached(old(Now()), old(fuel), prep, alive, Now(), fuel)
    {
      ghost var s0, f0, prep, act := Now(), fuel, [UndoRow(e, UndoPlanned)], [Sys(call), UndoRow(e, Undone)];
      out := Failed;
      alive := Append(UndoRow(e, UndoPlanned).entry);
      if !alive {
        ReachedCut(s0, f0, prep, Now(), fuel, act);
        return;
      }
      DoOne(s0, UndoRow(e, UndoPlanned));
      ghost var s1, f1 := Now(), fuel;
      out, alive := ActAndClose(call, UndoRow(e, Undone).entry);
      if Enabled(s0.tree, call) {
        ReachedThen(s0, f0, prep, s1, f1, act, alive, Now(), fuel);
      }
    }

    /** The branch of the undo loop for moves and trashed files. */
    method ReturnFile(e: Entry) returns (out: Outcome, alive: bool)
      requires WellFormed(tree)
      modifies this
      ensures Reached(old(Now()), old(fuel), UndoMove(old(Now()), e).Steps(), alive, Now(), fuel)
      ensures alive ==> out == UndoMove(old(Now()), e).out
    {
      ghost var s0, f0, m := Now(), fuel, UndoMove(Now(), e);
      out, alive := Skipped, true;
      assert m.act == [] ==> m.Steps() == m.prep;
      assert m.prep == [] ==> m.Steps() == m.act;
      ReachedNothing(s0, f0);
      if ResolveExisting(tree, e.to) != Found {
        if ResolveExisting(tree, e.from) == Found {
          alive := Append(UndoRow(e, Undone).entry);
          out := Done;
        }
        return;
      }
      if ResolveForCreate(tree, e.from).Rejected? {
        out := Failed;
        return;
      }
      out, alive := ReturnTo(e);
    }

    /** The directories of the original path, then the way back. */
    method ReturnTo(e: Entry) returns (out: Outcome, alive: bool)
      requires WellFormed(tree) && ResolveExisting(tree, e.to) == Found
      requires !ResolveForCreate(tree, e.from).Rejected?
      modifies this
      ensures Reached(old(Now()), old(fuel), UndoMove(old(Now()), e).Steps(), alive, Now(), fuel)
      ensures alive ==> out == UndoMove(old(Now()), e).out
    {
      ghost var s0, f0, dirs := Now(), fuel, MkdirSteps(tree, Parent(e.from));
      ghost var m, row := UndoMove(s0, e), [UndoRow(e, UndoPlanned)];
      out := Failed;
      var ok;
      ok, alive := CreateDirAll(Parent(e.from));
      if alive && !ok {
        assert m.Steps() == [];
        return;
      }
      assert m.Steps() == if e.from in s0.tree then dirs else dirs + (row + m.act);
      if !alive {
        ReachedCut(s0, f0, dirs, Now(), fuel, row + m.act);
        return;
      }
      Mkdirs(s0, Parent(e.from));
      AddDirsAdds(s0.tree, Parent(e.from));
      AddDirsMakes(s0.tree, Parent(e.from));
      if e.from in tree {
        assert |e.from| > |Parent(e.from)|;
        out := Skipped;
        return;
      }
      ghost var s1, f1 := Now(), fuel;
      assert m.act == [] ==> row + m.act == row;
      out, alive := AttemptAndClose(e, Rename(e.to, e.from));
      ReachedThen(s0, f0, dirs, s1, f1, row + m.act, alive, Now(), fuel);
    }

    /** `undo_create_file`. */
    method RemoveCreatedFile(e: Entry) returns (out: Outcome, alive: bool)
      modifies this
      ensures Reached(old(Now()), old(fuel), UndoCreateFile(old(Now()), e).Steps(), alive, Now(), fuel)
      ensures alive ==> out == UndoCreateFile(old(Now()), e).out
    {
      ghost var m := UndoCreateFile(Now(), e);
      assert m.prep == [] ==> m.Steps() == m.act;
      ReachedNothing(Now(), fuel);
      out, alive := Skipped, true;
      if e.to !in tree {
        alive := Append(UndoRow(e, Undone).entry);
        out := Done;
      } else if IsFile(tree, e.to) && tree[e.to].content == "" {
        out, alive := AttemptAndClose(e, Remove(e.to));
      }
    }

    /** `undo_create_dir`. */
    method RemoveCreatedDir(e: Entry) returns (out: Outcome, alive: bool)
      modifies this
      ensures Reached(old(Now()), old(fuel), UndoCreateDir(old(Now()), e).Steps(), alive, Now(), fuel)
      ensures alive ==> out == UndoCreateDir(old(Now()), e).out
    {
      ghost var m := UndoCreateDir(Now(), e);
      assert m.prep == [] ==> m.Steps() == m.act;
      ReachedNothing(Now(), fuel);
      out, alive := Skipped, true;
      if e.to !in tree {
        alive := Append(UndoRow(e, Undone).entry);
        out := Done;
      } else if IsDir(tree, e.to) && !HasChild(tree, e.to) && e.to != [] {
        out, alive := AttemptAndClose(e, Rmdir(e.to));
      }
    }

    /** `undo_readme_write`. */
    method RestoreReadme(e: Entry) returns (out: Outcome, alive: bool)
      requires WellFormed(tree)
      modifies this
      ensures Reached(old(Now()), old(fuel), UndoReadme(old(Now()), e).Steps(), alive, Now(), fuel)
      ensures alive ==> out == UndoReadme(old(Now()), e).out
    {
      ghost var m := UndoReadme(Now(), e);
      assert m.act == [] ==> m.Steps() == m.prep;
      assert Parent(README) == [];
      ReachedNothing(Now(), fuel);
      out, alive := Skipped, true;
      if e.to != README {
        return;
      }
      if e.from in tree {
        if IsFile(tree, e.from) {
          out, alive := AttemptAndClose(e, Write(README, Copied(tree, e.from, README)));
        } else {
          alive := Append(UndoRow(e, UndoPlanned).entry);
          out := Failed;
        }
      } else if WithAbsent(e.from) in tree {
        if README in tree {
          out, alive := AttemptAndClose(e, Remove(README));
        } else {
          ghost var s0, f0 := Now(), fuel;
          alive := Append(UndoRow(e, UndoPlanned).entry);
          if !alive {
            ReachedCut(s0, f0, m.prep, Now(), fuel, m.act);
            return;
          }
          DoOne(s0, UndoRow(e, UndoPlanned));
          ghost var s1, f1 := Now(), fuel;
          alive := Append(UndoRow(e, Undone).entry);
          out := Done;
          ReachedThen(s0, f0, m.prep, s1, f1, m.act, alive, Now(), fuel);
        }
      } else {
        alive := Append(UndoRow(e, UndoPlanned).entry);
      }
    }

    /** One turn of the undo loop. */
    method UndoOne(e: Entry, undone: set<nat>, only: Option<nat>) returns (out: Outcome, alive: bool)
      requires WellFormed(tree)
      modifies this
      ensures Reached(old(Now()), old(fuel), ScriptOf(old(Now()), Reverse(e, undone, only)).Steps(), alive, Now(), fuel)
      ensures alive ==> out == ScriptOf(old(Now()), Reverse(e, undone, only)).out
    {
      if (only.Some? && only.value != e.id) || !e.status.Executed? || e.id in undone {
        ReachedNothing(Now(), fuel);
        assert UndoScript(Now(), e, undone, only).Steps() == [];
        return Ignored, true;
      }
      match e.action {
        case CreateDir => out, alive := RemoveCreatedDir(e);
        case CreateFile => out, alive := RemoveCreatedFile(e);
        case ReadmeWrite => out, alive := RestoreReadme(e);
        case _ => out, alive := ReturnFile(e);
      }
    }

    /** `undo_with_filter`: from the newest row to the oldest. */
    method Undo(only: Option<nat>) returns (end: End, outs: seq<Outcome>)
      requires WellFormed(tree)
      modifies this
      ensures Run(Now(), end, fuel, outs) == RunCommand(old(Now()), Command.Undo(only), old(fuel))
    {
      var entries := journal;
      end, outs := UndoRows(entries, UndoneIds(entries), only);
    }

    method UndoRows(entries: seq<Entry>, undone: set<nat>, only: Option<nat>) returns (end: End, outs: seq<Outcome>)
      requires WellFormed(tree)
      modifies this
      ensures Run(Now(), end, fuel, outs) == RunJobs(old(Now()), UndoJobs(entries, undone, only), old(fuel))
    {
      ghost var jobs := UndoJobs(entries, undone, only);
      ghost var run := RunJobs(Now(), jobs, fuel);
      assert jobs[0..] == jobs;
      outs := [];
      var i := 0;
      while i < |entries|
        invariant i <= |entries| == |jobs|
        invariant forall k :: 0 <= k < |jobs| ==> jobs[k] == Reverse(entries[|entries| - 1 - k], undone, only)
        invariant WellFormed(tree) && run == Prepend(outs, RunJobs(Now(), jobs[i..], fuel))
      {
        var e := entries[|entries| - 1 - i];
        ghost var s0, f0 := Now(), fuel;
        var out, alive := UndoOne(e, undone, only);
        Turned(run, outs, s0, f0, jobs, i, alive, Now(), fuel);
        if !alive {
          end := Crashed;
          return;
        }
        outs := outs + [out];
        if out.Failed? {
          end := Stopped;
          return;
        }
        i := i + 1;
      }
      end := Finished;
    }

    // ----- Direct file operations

    /** `rename_file`. */
    method RenameFile(from: Path, name: string) returns (out: Outcome, alive: bool)
      requires WellFormed(tree)
      modifies this
      ensures Reached(old(Now()), old(fuel), RenameScript(old(Now()), from, name).Steps(), alive, Now(), fuel)
      ensures alive ==> out == RenameScript(old(Now()), from, name).out
    {
      ghost var s0, f0, m := Now(), fuel, RenameScript(Now(), from, name);
      out, alive := Failed, true;
      assert m.prep == [] ==> m.Steps() == [];
      ReachedNothing(s0, f0);
      if !ValidName(name) || ResolveExisting(tree, from) != Found || !IsFile(tree, from) || from == [] {
        return;
      }
      var to := Parent(from) + [name];
      if ResolveForCreate(tree, to) != Found || to in tree {
        return;
      }
      var id := clock;
      ghost var planned := Row(Entry(id, Planned, Move, from, to));
      alive := Append(Entry(id, Planned, Move, from, to));
      if !alive {
        ReachedCut(s0, f0, [planned], Now(), fuel, m.act);
        return;
      }
      DoOne(s0, planned);
      assert Parent(to) == Parent(from) && |to| == |from| && IsDir(s0.tree, Parent(from));
      assert from <= to ==> from == to;
      ghost var s1, f1 := Now(), fuel;
      out, alive := ActAndClose(Rename(from, to), Entry(id, Executed, Move, from, to));
      ReachedThen(s0, f0, [planned], s1, f1, m.act, alive, Now(), fuel);
    }

    /** `create_empty_file`: no row is written. */
    method CreateEmpty(p: Path) returns (out: Outcome, alive: bool)
      modifies this
      ensures Reached(old(Now()), old(fuel), CreateEmptyScript(old(Now()), p).Steps(), alive, Now(), fuel)
      ensures alive ==> out == CreateEmptyScript(old(Now()), p).out
    {
      ghost var m := CreateEmptyScript(Now(), p);
      out, alive := Failed, true;
      assert m.Steps() == m.act;
      ReachedNothing(Now(), fuel);
      if ResolveForCreate(tree, p) == Found {
        var answer := Perform(Create(p));
        out, alive := if answer.Refused? then Failed else Done, !answer.Dead?;
      }
    }
  }

  /** `pending_planned_operation`: the ids that are through, then the newest planned row that is not. */
  method FindPending(entries: seq<Entry>, from: Path, to: Path) returns (found: bool, id: nat)
    ensures PendingPlanned(entries, from, to) == if found then Some(id) else None
  {
    var completed := CompletedIds(entries);
    var n := |entries|;
    assert entries[..n] == entries;
    while n > 0
      invariant n <= |entries| && NewestPending(entries[..n], completed, from, to) == PendingPlanned(entries, from, to)
    {
      var e := entries[n - 1];
      assert entries[..n][..n - 1] == entries[..n - 1];
      if Pending(e, completed, from, to) {
        return true, e.id;
      }
      n := n - 1;
    }
    return false, 0;
  }

  /** A run with these outcomes before it. */
  function Prepend(outs: seq<Outcome>, r: Run): Run {
    r.(outs := outs + r.outs)
  }

  /** One turn of a loop over jobs, in terms of the run that is due. */
  lemma Turned(run: Run, outs: seq<Outcome>, s0: State, f0: nat, jobs: seq<Job>, i: nat, alive: bool, s1: State, f1: nat)
    requires i < |jobs| && WellFormed(s0.tree) && run == Prepend(outs, RunJobs(s0, jobs[i..], f0))
    requires Reached(s0, f0, ScriptOf(s0, jobs[i]).Steps(), alive, s1, f1)
    ensures var out := ScriptOf(s0, jobs[i]).out;
            if !alive then run == Run(s1, Crashed, f1, outs)
            else if out.Failed? then run == Run(s1, Stopped, f1, outs + [out])
            else WellFormed(s1.tree) && run == Prepend(outs + [out], RunJobs(s1, jobs[i + 1..], f1))
  {
    var steps := ScriptOf(s0, jobs[i]).Steps();
    ScriptKeepsWellFormed(s0, jobs[i], |steps|);
    assert steps[..|steps|] == steps;
    Unfolded(s0, jobs[i..], f0, outs);
    assert jobs[i..][1..] == jobs[i + 1..];
  }

  lemma Unfolded(s: State, jobs: seq<Job>, fuel: nat, outs: seq<Outcome>)
    requires jobs != []
    ensures var m := ScriptOf(s, jobs[0]);
            Prepend(outs, RunJobs(s, jobs, fuel))
            == (if fuel < |m.Steps()| then Run(Do(s, m.Steps()[..fuel]), Crashed, 0, outs)
                else if m.out.Failed? then Run(Do(s, m.Steps()), Stopped, fuel - |m.Steps()|, outs + [Failed])
                else Prepend(outs + [m.out], RunJobs(Do(s, m.Steps()), jobs[1..], fuel - |m.Steps()|)))
  {
    var m := ScriptOf(s, jobs[0]);
    if fuel >= |m.Steps()| && !m.out.Failed? {
      var rest := RunJobs(Do(s, m.Steps()), jobs[1..], fuel - |m.Steps()|);
      assert outs + ([m.out] + rest.outs) == outs + [m.out] + rest.outs;
    }
  }

  lemma ReachedPart(s0: State, f0: nat, a: seq<Step>, alive: bool, s1: State, f1: nat, rest: seq<Step>)
    requires Reached(s0, f0, a, alive, s1, f1) && (alive ==> rest == [])
    ensures Reached(s0, f0, a + rest, alive, s1, f1)
  {
    if alive {
      assert a + rest == a;
    } else {
      ReachedCut(s0, f0, a, s1, f1, rest);
    }
  }

  lemma TrashPrefix(s: State, from: Path, start: seq<Step>)
    requires ResolveExisting(s.tree, from) == Found && IsFile(s.tree, from) && CanMakeDirs(s.tree, TrashHome(s.clock))
    requires start == [TrashRow(s.clock, Planned, from)] + MkdirSteps(s.tree, TrashHome(s.clock))
    ensures |start| <= |TrashScript(s, from).Steps()| && TrashScript(s, from).Steps() == start + TrashScript(s, from).Steps()[|start|..]
  {
  }

  lemma ReadmePrefix(s: State, c: Check, start: seq<Step>)
    requires ReadmeScript(s, c).act != [] && start == MkdirSteps(s.tree, BACKUP_DIR) + [Sys(Keepsake(s.tree, s.clock))]
    ensures ReadmeScript(s, c).Steps() == start + ([ReadmeRow(s.clock, Planned)] + ReadmeScript(s, c).act)
  {
  }

  lemma TrashRoom(t: Tree, id: nat, u: Tree)
    requires WellFormed(t) && CanMakeDirs(t, TrashHome(id)) && u == AddDirs(t, TrashHome(id))
    ensures (Payload(id) in u <==> Payload(id) in t) && (Metadata(id) in u <==> Metadata(id) in t)
    ensures WellFormed(u) && IsDir(u, TrashHome(id)) && Parent(Metadata(id)) == TrashHome(id) && Parent(Payload(id)) == TrashHome(id)
    ensures forall p :: IsFile(t, p) ==> IsFile(u, p)
  {
    AddDirsAdds(t, TrashHome(id));
    AddDirsMakes(t, TrashHome(id));
    assert |Payload(id)| == 3 && |Metadata(id)| == 3;
  }

  /** With the metadata written, the payload can be placed. */
  lemma TrashFits(u: Tree, id: nat, from: Path)
    requires WellFormed(u) && IsDir(u, TrashHome(id)) && IsFile(u, from) && Payload(id) !in u && Metadata(id) !in u
    ensures forall f: Node :: f.File? ==> Enabled(u[Metadata(id) := f], Rename(from, Payload(id)))
  {
    PrivateNames(id, id);
    assert Parent(Payload(id)) == TrashHome(id) && Payload(id) != Metadata(id);
    NotBelowFile(u, from, Payload(id));
    assert LeftBy(Metadata(id), id);
  }

  lemma ReadmeRoom(t: Tree, id: nat, u: Tree)
    requires DirsAdded(t, u, BACKUP_DIR) && IsDir(u, BACKUP_DIR)
    ensures Keepsake(u, id) == Keepsake(t, id) && (IsDir(u, README) <==> IsDir(t, README))
    ensures IsDir(u, Keepsake(t, id).path) <==> IsDir(t, Keepsake(t, id).path)
    ensures !IsDir(t, Keepsake(t, id).path) ==> Enabled(u, Keepsake(t, id))
  {
    var p := Keepsake(t, id).path;
    assert |p| == 3 && Parent(p) == BACKUP_DIR && |README| == 1 && README[0] != STATE_DIR;
  }

  lemma ReadmeFits(u: Tree, id: nat, keep: Call, v: Tree, now: nat)
    requires WellFormed(u) && !IsDir(u, README) && keep.Write? && (keep.path == Backup(id) || keep.path == Absent(id))
    requires v == Effect(u, keep, now)
    ensures forall text :: Enabled(v, Write(README, text))
  {
    assert Parent(README) == [] && |README| == 1 && |keep.path| == 3;
  }
}
