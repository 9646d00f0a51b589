/** Facts about runs of steps, shared by every theorem on the engine. */
module Steps {
  import opened FileSystem
  import opened Journal
  import opened Scripts
  import opened Wrappers

  lemma {:induction false} DoConcat(s: State, a: seq<Step>, b: seq<Step>)
    ensures Do(s, a + b) == Do(Do(s, a), b)
    ensures Succeeds(s, a + b) <==> Succeeds(s, a) && Succeeds(Do(s, a), b)
    decreases |b|
  {
    if b == [] {
      assert a + b == a;
    } else {
      var rest := b[..|b| - 1];
      assert (a + b)[..|a + b| - 1] == a + rest;
      DoConcat(s, a, rest);
    }
  }

  lemma DoOne(s: State, step: Step)
    ensures Do(s, [step]) == Apply(s, step)
    ensures Succeeds(s, [step]) <==> (step.Sys? ==> Enabled(s.tree, step.call))
  {
    assert [step][..0] == [];
    assert Do(s, []) == s;
  }

  lemma DoTwo(s: State, x: Step, y: Step)
    ensures Do(s, [x, y]) == Apply(Apply(s, x), y)
    ensures Succeeds(s, [x, y]) <==> (x.Sys? ==> Enabled(s.tree, x.call)) && (y.Sys? ==> Enabled(Apply(s, x).tree, y.call))
  {
    assert [x, y][..1] == [x];
    DoOne(s, x);
    assert Do(s, [x, y]) == Apply(Do(s, [x]), y);
  }

  lemma {:induction false} DoClock(s: State, steps: seq<Step>)
    ensures Do(s, steps).clock == s.clock + |steps|
    decreases |steps|
  {
    if steps != [] {
      DoClock(s, steps[..|steps| - 1]);
    }
  }

  lemma {:induction false} SucceedsPrefix(s: State, steps: seq<Step>, n: nat)
    requires Succeeds(s, steps) && n <= |steps|
    ensures Succeeds(s, steps[..n])
  {
    assert steps == steps[..n] + steps[n..];
    DoConcat(s, steps[..n], steps[n..]);
  }

  /** Steps that succeed keep the tree a tree. */
  lemma {:induction false} DoKeepsWellFormed(s: State, steps: seq<Step>)
    requires WellFormed(s.tree) && Succeeds(s, steps)
    ensures WellFormed(Do(s, steps).tree)
    decreases |steps|
  {
    if steps != [] {
      var rest, last := steps[..|steps| - 1], steps[|steps| - 1];
      DoKeepsWellFormed(s, rest);
      var r := Do(s, rest);
      if last.Sys? {
        EffectKeepsWellFormed(r.tree, last.call, r.clock);
      }
    }
  }

  // ----- create_dir_all

  lemma DoAppend(s: State, steps: seq<Step>, step: Step)
    ensures Do(s, steps + [step]) == Apply(Do(s, steps), step)
    ensures Succeeds(s, steps + [step]) <==> Succeeds(s, steps) && (step.Sys? ==> Enabled(Do(s, steps).tree, step.call))
  {
    assert (steps + [step])[..|steps|] == steps;
  }

  lemma {:induction false} Mkdirs(s: State, p: Path)
    requires WellFormed(s.tree) && CanMakeDirs(s.tree, p)
    ensures Succeeds(s, MkdirSteps(s.tree, p))
    ensures Do(s, MkdirSteps(s.tree, p)).tree == AddDirs(s.tree, p)
    ensures Do(s, MkdirSteps(s.tree, p)).journal == s.journal
    decreases |p|
  {
    if p !in s.tree {
      var before := MkdirSteps(s.tree, Parent(p));
      Mkdirs(s, Parent(p));
      AddDirsAdds(s.tree, Parent(p));
      AddDirsMakes(s.tree, Parent(p));
      DoAppend(s, before, Sys(Mkdir(p)));
    }
  }

  /** Cut short, `create_dir_all` has made the directories down to some ancestor. */
  lemma {:induction false} MkdirsCut(s: State, p: Path, n: nat) returns (q: Path)
    requires WellFormed(s.tree) && CanMakeDirs(s.tree, p) && n <= |MkdirSteps(s.tree, p)|
    ensures q <= p && CanMakeDirs(s.tree, q)
    ensures Do(s, MkdirSteps(s.tree, p)[..n]).tree == AddDirs(s.tree, q)
    ensures Do(s, MkdirSteps(s.tree, p)[..n]).journal == s.journal
    decreases |p|
  {
    var steps := MkdirSteps(s.tree, p);
    if n == |steps| {
      assert steps[..n] == steps;
      Mkdirs(s, p);
      q := p;
    } else {
      assert steps[..n] == MkdirSteps(s.tree, Parent(p))[..n];
      q := MkdirsCut(s, Parent(p), n);
    }
  }

  // ----- No system call in a script is ever refused

  /** The shape of most scripts: rows, then directories, then rows. */
  lemma Bracketed(s: State, first: seq<Step>, p: Path, last: seq<Step>)
    requires WellFormed(s.tree) && CanMakeDirs(s.tree, p)
    requires forall x :: x in first || x in last ==> x.Row?
    ensures var steps := first + MkdirSteps(s.tree, p) + last;
            Succeeds(s, steps) && Do(s, steps).tree == AddDirs(s.tree, p)
            && Do(s, steps).journal == s.journal + RowsOf(first) + RowsOf(last)
  {
    var dirs := MkdirSteps(s.tree, p);
    DoConcat(s, first + dirs, last);
    DoConcat(s, first, dirs);
    DoRows(s, first);
    Mkdirs(Do(s, first), p);
    DoRows(Do(s, first + dirs), last);
  }

  function RowsOf(steps: seq<Step>): seq<Entry> {
    if steps == [] then []
    else RowsOf(steps[..|steps| - 1]) + match steps[|steps| - 1] case Row(e) => [e] case Sys(_) => []
  }

  lemma {:induction false} RowsOfConcat(a: seq<Step>, b: seq<Step>)
    ensures RowsOf(a + b) == RowsOf(a) + RowsOf(b)
    decreases |b|
  {
    if b == [] {
      assert a + b == a;
    } else {
      assert (a + b)[..|a + b| - 1] == a + b[..|b| - 1];
      RowsOfConcat(a, b[..|b| - 1]);
    }
  }

  lemma RowsOfPrefix(steps: seq<Step>, n: nat)
    requires n <= |steps|
    ensures RowsOf(steps[..n]) <= RowsOf(steps)
  {
    assert steps == steps[..n] + steps[n..];
    RowsOfConcat(steps[..n], steps[n..]);
  }

  lemma {:induction false} RowsOfMkdirs(t: Tree, p: Path)
    ensures RowsOf(MkdirSteps(t, p)) == []
    decreases |p|
  {
    if p !in t && p != [] {
      RowsOfMkdirs(t, Parent(p));
      RowsOfConcat(MkdirSteps(t, Parent(p)), [Sys(Mkdir(p))]);
    }
  }

  lemma RowsOfFew(x: Step, y: Step)
    ensures RowsOf([]) == []
    ensures RowsOf([x]) == match x case Row(e) => [e] case Sys(_) => []
    ensures RowsOf([x, y]) == RowsOf([x]) + match y case Row(e) => [e] case Sys(_) => []
  {
    assert [x][..0] == [];
    assert [x, y][..1] == [x];
  }

  /** Steps append exactly their rows to the journal. */
  lemma {:induction false} DoJournal(s: State, steps: seq<Step>)
    ensures Do(s, steps).journal == s.journal + RowsOf(steps)
    decreases |steps|
  {
    if steps != [] {
      DoJournal(s, steps[..|steps| - 1]);
    }
  }

  lemma {:induction false} DoRows(s: State, steps: seq<Step>)
    requires forall x :: x in steps ==> x.Row?
    ensures Succeeds(s, steps) && Do(s, steps).tree == s.tree && Do(s, steps).journal == s.journal + RowsOf(steps)
    decreases |steps|
  {
    if steps != [] {
      assert steps[|steps| - 1] in steps;
      DoRows(s, steps[..|steps| - 1]);
    }
  }

  /** A prepared effect and its closing row. */
  lemma ThenAct(s: State, prep: seq<Step>, act: seq<Step>)
    requires Succeeds(s, prep) && 1 <= |act| <= 2 && (|act| == 2 ==> act[1].Row?)
    requires act[0].Sys? ==> Enabled(Do(s, prep).tree, act[0].call)
    ensures Succeeds(s, prep + act)
  {
    DoConcat(s, prep, act);
    if |act| == 1 {
      assert act == [act[0]];
      DoOne(Do(s, prep), act[0]);
    } else {
      assert act == [act[0], act[1]];
      DoTwo(Do(s, prep), act[0], act[1]);
    }
  }

  lemma Planning(s: State, row: Step, p: Path)
    requires WellFormed(s.tree) && CanMakeDirs(s.tree, p) && row.Row?
    ensures var r := Do(s, [row] + MkdirSteps(s.tree, p));
            r.tree == AddDirs(s.tree, p) && r.journal == s.journal + [row.entry] && r.clock > s.clock
            && Succeeds(s, [row] + MkdirSteps(s.tree, p))
  {
    DoConcat(s, [row], MkdirSteps(s.tree, p));
    DoOne(s, row);
    Mkdirs(Apply(s, row), p);
    DoClock(s, [row] + MkdirSteps(s.tree, p));
  }

  /** The effect and the closing row of a prepared script. */
  lemma Acted(s: State, m: Script)
    requires |m.act| == 2 && m.act[0].Sys? && m.act[1].Row?
    ensures var q := Do(s, m.prep); var r := Do(s, m.Steps());
            r.tree == Effect(q.tree, m.act[0].call, q.clock) && r.journal == q.journal + [m.act[1].entry]
            && r.clock == q.clock + 2
  {
    var q := Do(s, m.prep);
    DoConcat(s, m.prep, m.act);
    assert m.act == [m.act[0], m.act[1]];
    DoTwo(q, m.act[0], m.act[1]);
  }

  /** Moving a regular file to a place that was prepared for it. */
  lemma Relocation(u: Tree, a: Path, b: Path)
    requires WellFormed(u) && IsFile(u, a) && Placeable(u, b)
    ensures Moved(u, a, b) == (u - {a})[b := u[a]] && WellFormed(Moved(u, a, b))
    ensures a != [] && IsDir(u, Parent(a))
  {
    MovedFile(u, a, b);
    NotBelowFile(u, a, b);
    EffectKeepsWellFormed(u, Rename(a, b), 0);
    assert IsDir(u, Parent(a));
  }

  lemma MoveScriptSucceeds(s: State, c: Check)
    requires WellFormed(s.tree)
    ensures Succeeds(s, MoveScript(s, c).Steps())
  {
    var m, t, planned, home := MoveScript(s, c), s.tree, CheckRow(s.clock, Planned, c), if c.to == [] then [] else Parent(c.to);
    if m.prep == [planned] && m.act == [] {
      DoRows(s, [planned]);
      assert m.Steps() == [planned];
    } else {
      Bracketed(s, [planned], home, []);
      assert [planned] + MkdirSteps(t, home) + [] == m.prep;
      if m.act == [] {
        assert m.Steps() == m.prep;
      } else {
        AddDirsAdds(t, home);
        AddDirsMakes(t, home);
        ThenAct(s, m.prep, m.act);
      }
    }
  }

  /** The trash home is made and the metadata written before the file is moved. */
  lemma TrashPrepared(s: State, from: Path)
    requires WellFormed(s.tree)
    ensures var m, u, r := TrashScript(s, from), AddDirs(s.tree, TrashHome(s.clock)), Do(s, TrashScript(s, from).prep);
            Succeeds(s, m.prep) && (m.out.Done? ==>
              DirsAdded(s.tree, u, TrashHome(s.clock)) && WellFormed(u) && IsDir(u, TrashHome(s.clock))
              && Placeable(u, Metadata(s.clock)) && r.clock >= 1
              && r.tree == u[Metadata(s.clock) := File(METADATA_TEXT, r.clock - 1, r.clock - 1)])
  {
    var m, t, home, planned := TrashScript(s, from), s.tree, TrashHome(s.clock), TrashRow(s.clock, Planned, from);
    if m.out.Done? {
      MetadataIsWritten(s, planned);
      assert m.prep == [planned] + MkdirSteps(t, home) + [Sys(Write(Metadata(s.clock), METADATA_TEXT))];
    } else if m.prep != [] && CanMakeDirs(t, home) {
      Bracketed(s, [planned], home, []);
      assert [planned] + MkdirSteps(t, home) + [] == m.prep;
    } else {
      DoRows(s, [planned]);
    }
  }

  lemma MetadataIsWritten(s: State, planned: Step)
    requires WellFormed(s.tree) && CanMakeDirs(s.tree, TrashHome(s.clock)) && Metadata(s.clock) !in s.tree && planned.Row?
    ensures var u, dirs := AddDirs(s.tree, TrashHome(s.clock)), [planned] + MkdirSteps(s.tree, TrashHome(s.clock));
            var steps := dirs + [Sys(Write(Metadata(s.clock), METADATA_TEXT))];
            var r := Do(s, steps);
            Succeeds(s, steps) && DirsAdded(s.tree, u, TrashHome(s.clock)) && WellFormed(u) && IsDir(u, TrashHome(s.clock))
            && Placeable(u, Metadata(s.clock)) && r.clock >= 1
            && r.tree == u[Metadata(s.clock) := File(METADATA_TEXT, r.clock - 1, r.clock - 1)]
  {
    var home, dirs := TrashHome(s.clock), [planned] + MkdirSteps(s.tree, TrashHome(s.clock));
    Planning(s, planned, home);
    AddDirsAdds(s.tree, home);
    AddDirsMakes(s.tree, home);
    assert Parent(Metadata(s.clock)) == home && |Metadata(s.clock)| == 3;
    DoAppend(s, dirs, Sys(Write(Metadata(s.clock), METADATA_TEXT)));
  }

  lemma SafePayload(id: nat)
    ensures !Unsafe(Payload(id))
  {
    var p := Payload(id);
    assert |p[0]| == 18 && p[1][0] == 't' && p[2][0] == 'f';
    assert forall i :: 0 <= i < |p| ==> p[i] != "..";
  }

  lemma TrashScriptSucceeds(s: State, from: Path)
    requires WellFormed(s.tree)
    ensures Succeeds(s, TrashScript(s, from).Steps())
  {
    var m, id := TrashScript(s, from), s.clock;
    TrashPrepared(s, from);
    if m.out.Done? {
      var u := AddDirs(s.tree, TrashHome(id));
      assert Parent(Payload(id)) == TrashHome(id) && |Payload(id)| == 3;
      PrivateNames(id, id);
      NotBelowFile(u, from, Payload(id));
      ThenAct(s, m.prep, m.act);
    } else {
      assert m.Steps() == m.prep;
    }
  }

  /** The keepsake is in place when README.md is about to be written. */
  lemma ReadmePrepared(s: State, c: Check)
    requires WellFormed(s.tree)
    ensures var m, u, r := ReadmeScript(s, c), AddDirs(s.tree, BACKUP_DIR), Do(s, ReadmeScript(s, c).prep);
            Succeeds(s, m.prep) && (m.out.Done? ==>
              DirsAdded(s.tree, u, BACKUP_DIR) && WellFormed(u) && IsDir(u, BACKUP_DIR)
              && Enabled(u, Keepsake(s.tree, s.clock)) && r.clock >= 2
              && r.tree == Effect(u, Keepsake(s.tree, s.clock), r.clock - 2))
  {
    var m, t := ReadmeScript(s, c), s.tree;
    if m.prep != [] {
      if m.out.Done? {
        KeepsakeIsKept(s);
        assert m.prep == MkdirSteps(t, BACKUP_DIR) + [Sys(Keepsake(t, s.clock)), ReadmeRow(s.clock, Planned)];
      } else {
        Mkdirs(s, BACKUP_DIR);
        assert m.prep == MkdirSteps(t, BACKUP_DIR);
      }
    }
  }

  lemma KeepsakeIsKept(s: State)
    requires WellFormed(s.tree) && CanMakeDirs(s.tree, BACKUP_DIR) && !IsDir(s.tree, Keepsake(s.tree, s.clock).path)
    ensures var t, u, keep := s.tree, AddDirs(s.tree, BACKUP_DIR), Keepsake(s.tree, s.clock);
            var steps := MkdirSteps(t, BACKUP_DIR) + [Sys(keep), ReadmeRow(s.clock, Planned)];
            var r := Do(s, steps);
            Succeeds(s, steps) && DirsAdded(t, u, BACKUP_DIR) && WellFormed(u) && IsDir(u, BACKUP_DIR) && Enabled(u, keep)
            && r.clock >= 2 && r.tree == Effect(u, keep, r.clock - 2)
  {
    var t, keep, row := s.tree, Keepsake(s.tree, s.clock), ReadmeRow(s.clock, Planned);
    var dirs := MkdirSteps(t, BACKUP_DIR);
    Mkdirs(s, BACKUP_DIR);
    AddDirsAdds(t, BACKUP_DIR);
    AddDirsMakes(t, BACKUP_DIR);
    KeepsakeFits(t, AddDirs(t, BACKUP_DIR), s.clock);
    DoConcat(s, dirs, [Sys(keep), row]);
    DoTwo(Do(s, dirs), Sys(keep), row);
  }

  lemma KeepsakeFits(t: Tree, u: Tree, id: nat)
    requires DirsAdded(t, u, BACKUP_DIR) && IsDir(u, BACKUP_DIR) && !IsDir(t, Keepsake(t, id).path)
    ensures Enabled(u, Keepsake(t, id))
  {
    var p := Keepsake(t, id).path;
    assert |p| == 3 && Parent(p) == BACKUP_DIR;
  }

  lemma ReadmeScriptSucceeds(s: State, c: Check)
    requires WellFormed(s.tree)
    ensures Succeeds(s, ReadmeScript(s, c).Steps())
  {
    var m, id := ReadmeScript(s, c), s.clock;
    ReadmePrepared(s, c);
    if m.out.Done? {
      assert Parent(README) == [];
      assert |README| == 1 && README[0] != STATE_DIR && |Keepsake(s.tree, id).path| == 3;
      ThenAct(s, m.prep, m.act);
    } else {
      assert m.Steps() == m.prep;
    }
  }

  lemma UndoMovePrepared(s: State, e: Entry)
    requires WellFormed(s.tree) && UndoMove(s, e).prep != []
    ensures Succeeds(s, UndoMove(s, e).prep)
    ensures Do(s, UndoMove(s, e).prep).tree == AddDirs(s.tree, Parent(e.from))
  {
    var home, row := Parent(e.from), UndoRow(e, UndoPlanned);
    Mkdirs(s, home);
    DoAppend(s, MkdirSteps(s.tree, home), row);
  }

  lemma UndoMoveSucceeds(s: State, e: Entry)
    requires WellFormed(s.tree)
    ensures Succeeds(s, UndoMove(s, e).Steps())
  {
    var m, t := UndoMove(s, e), s.tree;
    if m.prep == [] {
      assert m.Steps() == m.act;
      if m.out.Done? && e.to in t && !Unsafe(e.to) {
        assert false;
      }
      DoRows(s, m.act);
    } else {
      UndoMovePrepared(s, e);
      if m.act == [] {
        assert m.Steps() == m.prep;
      } else {
        AddDirsAdds(t, Parent(e.from));
        AddDirsMakes(t, Parent(e.from));
        ThenAct(s, m.prep, m.act);
      }
    }
  }

  lemma ShortScriptSucceeds(s: State, m: Script)
    requires |m.prep| <= 1 && |m.act| <= 2
    requires m.prep != [] ==> m.prep[0].Row?
    requires |m.act| == 2 ==> m.act[1].Row?
    requires m.act != [] && m.act[0].Sys? ==> Enabled(s.tree, m.act[0].call)
    ensures Succeeds(s, m.Steps())
  {
    DoRows(s, m.prep);
    if m.act == [] {
      assert m.Steps() == m.prep;
    } else {
      ThenAct(s, m.prep, m.act);
    }
  }

  lemma RenameScriptSucceeds(s: State, p: Path, name: string)
    requires WellFormed(s.tree)
    ensures Succeeds(s, RenameScript(s, p, name).Steps())
  {
    var m := RenameScript(s, p, name);
    if m.out.Done? {
      var to := Parent(p) + [name];
      assert Parent(to) == Parent(p) && |to| == |p|;
      assert IsDir(s.tree, Parent(p));
      assert p <= to ==> p == to;
    }
    ShortScriptSucceeds(s, m);
  }

  lemma UndoScriptSucceeds(s: State, e: Entry, undone: set<nat>, only: Option<nat>)
    requires WellFormed(s.tree)
    ensures Succeeds(s, UndoScript(s, e, undone, only).Steps())
  {
    var m := UndoScript(s, e, undone, only);
    if m == UndoMove(s, e) {
      UndoMoveSucceeds(s, e);
    } else {
      assert Parent(README) == [];
      ShortScriptSucceeds(s, m);
    }
  }

  lemma ItemScriptSucceeds(s: State, c: Check, prior: seq<Entry>)
    requires WellFormed(s.tree)
    ensures Succeeds(s, ItemScript(s, c, prior).Steps())
  {
    var m := ItemScript(s, c, prior);
    if !c.status.Ready? || c.action.CreateDir? || c.action.CreateFile? {
      ShortScriptSucceeds(s, m);
    } else {
      match c.action {
        case Move => MoveScriptSucceeds(s, c);
        case Trash => TrashScriptSucceeds(s, c.from);
        case ReadmeWrite => ReadmeScriptSucceeds(s, c);
      }
    }
  }

  /** A script predicts the operating system exactly: from a tree, none of its calls is refused. */
  lemma ScriptSucceeds(s: State, job: Job)
    requires WellFormed(s.tree)
    ensures Succeeds(s, ScriptOf(s, job).Steps())
  {
    match job {
      case Item(c, prior) => ItemScriptSucceeds(s, c, prior);
      case Reverse(e, undone, only) => UndoScriptSucceeds(s, e, undone, only);
      case TrashOne(p) => TrashScriptSucceeds(s, p);
      case RenameOne(p, name) => RenameScriptSucceeds(s, p, name);
      case _ => ShortScriptSucceeds(s, ScriptOf(s, job));
    }
  }

  lemma ScriptKeepsWellFormed(s: State, job: Job, n: nat)
    requires WellFormed(s.tree) && n <= |ScriptOf(s, job).Steps()|
    ensures WellFormed(Do(s, ScriptOf(s, job).Steps()[..n]).tree)
  {
    ScriptSucceeds(s, job);
    SucceedsPrefix(s, ScriptOf(s, job).Steps(), n);
    DoKeepsWellFormed(s, ScriptOf(s, job).Steps()[..n]);
  }

  // ----- Runs

  /** The first turn of a run. */
  lemma RunTurn(s: State, jobs: seq<Job>, fuel: nat)
    requires jobs != []
    ensures var m := ScriptOf(s, jobs[0]);
            var r := RunJobs(s, jobs, fuel);
            if fuel < |m.Steps()| then r.end.Crashed? && r.s == Do(s, m.Steps()[..fuel])
            else if m.out.Failed? then r.end.Stopped? && r.s == Do(s, m.Steps())
            else var rest := RunJobs(Do(s, m.Steps()), jobs[1..], fuel - |m.Steps()|);
                 r.s == rest.s && r.end == rest.end && r.outs == [m.out] + rest.outs
  {
  }

  /** The jobs are those of the items from i on. */
  predicate ItemsFrom(jobs: seq<Job>, all: seq<Check>, i: nat, prior: seq<Entry>) {
    i <= |all| && |jobs| == |all| - i && forall k :: 0 <= k < |jobs| ==> jobs[k] == Item(all[i + k], prior)
  }

  lemma ItemsTail(jobs: seq<Job>, all: seq<Check>, i: nat, prior: seq<Entry>)
    requires ItemsFrom(jobs, all, i, prior) && jobs != []
    ensures i < |all| && jobs[0] == Item(all[i], prior) && ItemsFrom(jobs[1..], all, i + 1, prior)
  {
    forall k | 0 <= k < |jobs[1..]|
      ensures jobs[1..][k] == Item(all[i + 1 + k], prior)
    {
      assert jobs[k + 1] == Item(all[i + (k + 1)], prior);
    }
  }

  /** What holds before item x, and is carried by every cut of its script to item x + 1. */
  ghost predicate Carried(all: seq<Check>, prior: seq<Entry>, inv: (nat, State) -> bool) {
    forall x: nat, r: State, n: nat ::
      x < |all| && inv(x, r) && n <= |ItemScript(r, all[x], prior).Steps()| ==> CarriedTo(inv, x, Do(r, ItemScript(r, all[x], prior).Steps()[..n]))
  }

  predicate CarriedTo(inv: (nat, State) -> bool, x: nat, r: State) {
    inv(x + 1, r)
  }

  /** What every item of a batch carries on holds wherever the run of the batch ends. */
  lemma {:induction false} BatchPreserves(s: State, jobs: seq<Job>, all: seq<Check>, i: nat, prior: seq<Entry>, fuel: nat, inv: (nat, State) -> bool)
      returns (k: nat)
    requires ItemsFrom(jobs, all, i, prior) && inv(i, s) && Carried(all, prior, inv)
    ensures i <= k <= |all| && inv(k, RunJobs(s, jobs, fuel).s)
    decreases |jobs|
  {
    k := i;
    if jobs != [] {
      ItemsTail(jobs, all, i, prior);
      var m := ItemScript(s, all[i], prior);
      RunTurn(s, jobs, fuel);
      assert m.Steps()[..|m.Steps()|] == m.Steps();
      assert CarriedTo(inv, i, Do(s, m.Steps()[..if fuel < |m.Steps()| then fuel else |m.Steps()|]));
      k := i + 1;
      if fuel >= |m.Steps()| && !m.out.Failed? {
        k := BatchPreserves(Do(s, m.Steps()), jobs[1..], all, i + 1, prior, fuel - |m.Steps()|, inv);
      }
    }
  }

  /** The state in which the run came to the item that reported success, and what was left to run after it. */
  lemma {:induction false} BatchReaches(s: State, jobs: seq<Job>, all: seq<Check>, i: nat, prior: seq<Entry>, fuel: nat, inv: (nat, State) -> bool, x: nat)
      returns (r: State, rest: seq<Job>, f: nat)
    requires ItemsFrom(jobs, all, i, prior) && inv(i, s) && Carried(all, prior, inv)
    requires i <= x < |all| && x - i < |RunJobs(s, jobs, fuel).outs| && RunJobs(s, jobs, fuel).outs[x - i].Done?
    ensures inv(x, r) && ItemScript(r, all[x], prior).out.Done? && ItemsFrom(rest, all, x + 1, prior)
    ensures RunJobs(s, jobs, fuel).s == RunJobs(Do(r, ItemScript(r, all[x], prior).Steps()), rest, f).s
    decreases |jobs|
  {
    ItemsTail(jobs, all, i, prior);
    var m := ItemScript(s, all[i], prior);
    SuccessGoesOn(s, jobs, fuel, x - i);
    r, rest, f := s, jobs[1..], fuel - |m.Steps()|;
    if i < x {
      assert m.Steps()[..|m.Steps()|] == m.Steps();
      assert CarriedTo(inv, i, Do(s, m.Steps()[..|m.Steps()|]));
      r, rest, f := BatchReaches(Do(s, m.Steps()), jobs[1..], all, i + 1, prior, fuel - |m.Steps()|, inv, x);
    }
  }

  /** When some turn reports success, the first one was neither cut nor failed. */
  lemma SuccessGoesOn(s: State, jobs: seq<Job>, fuel: nat, k: nat)
    requires jobs != [] && k < |RunJobs(s, jobs, fuel).outs| && RunJobs(s, jobs, fuel).outs[k].Done?
    ensures var m := ScriptOf(s, jobs[0]);
            fuel >= |m.Steps()| && (k == 0 ==> m.out.Done?)
            && var rest := RunJobs(Do(s, m.Steps()), jobs[1..], fuel - |m.Steps()|);
               RunJobs(s, jobs, fuel).s == rest.s && (k > 0 ==> k - 1 < |rest.outs| && rest.outs[k - 1].Done?)
  {
    RunTurn(s, jobs, fuel);
    OutsOfCutTurn(s, jobs, fuel);
  }

  /** A turn that is cut or fails reports no success. */
  lemma OutsOfCutTurn(s: State, jobs: seq<Job>, fuel: nat)
    requires jobs != []
    ensures var m := ScriptOf(s, jobs[0]); fuel < |m.Steps()| || m.out.Failed? ==> RunJobs(s, jobs, fuel).outs <= [Failed]
  {
  }

  lemma {:induction false} RowIsAppended(s: State, steps: seq<Step>, e: Entry)
    requires Row(e) in steps
    ensures e in Do(s, steps).journal
    decreases |steps|
  {
    var rest, last := steps[..|steps| - 1], steps[|steps| - 1];
    if last == Row(e) {
      assert Do(s, steps).journal == Do(s, rest).journal + [e];
    } else {
      RowIsAppended(s, rest, e);
    }
  }

  /** What every prefix of every script keeps, every run keeps, wherever it is cut. */
  lemma {:induction false} RunPreserves(s: State, jobs: seq<Job>, fuel: nat, inv: State -> bool)
    requires inv(s)
    requires forall r: State, j: Job, n: nat ::
               inv(r) && j in jobs && n <= |ScriptOf(r, j).Steps()| ==> inv(Do(r, ScriptOf(r, j).Steps()[..n]))
    ensures inv(RunJobs(s, jobs, fuel).s)
    decreases |jobs|
  {
    if jobs != [] {
      var steps := ScriptOf(s, jobs[0]).Steps();
      assert jobs[0] in jobs;
      assert steps[..|steps|] == steps;
      assert inv(Do(s, steps[..if fuel < |steps| then fuel else |steps|]));
      if fuel >= |steps| && !ScriptOf(s, jobs[0]).out.Failed? {
        RunPreserves(Do(s, steps), jobs[1..], fuel - |steps|, inv);
      }
    }
  }

  lemma RunKeepsWellFormed(s: State, jobs: seq<Job>, fuel: nat)
    requires WellFormed(s.tree)
    ensures WellFormed(RunJobs(s, jobs, fuel).s.tree)
  {
    forall r: State, j: Job, n: nat | WellFormed(r.tree) && j in jobs && n <= |ScriptOf(r, j).Steps()|
      ensures WellFormed(Do(r, ScriptOf(r, j).Steps()[..n]).tree)
    {
      ScriptKeepsWellFormed(r, j, n);
    }
    RunPreserves(s, jobs, fuel, (r: State) => WellFormed(r.tree));
  }
}
