/** Nothing happens to a user path before the journal says it will. */
module WriteAhead {
  import opened FileSystem
  import opened Journal
  import opened Scripts
  import opened Steps
  import opened Sessions
  import opened Wrappers

  /** A row written before an effect. */
  predicate Intent(e: Entry) {
    e.status.Planned? || e.status.UndoPlanned?
  }

  /** The row announces this very call: its action and the paths it works on. */
  predicate Announces(e: Entry, call: Call) {
    Intent(e) &&
    match call
    case Rename(a, b) => (e.action.Move? || e.action.Trash?) && e.from == a && e.to == b
    case Mkdir(p) => e.status.Planned? && e.action.CreateDir? && e.to == p
    case Create(p) => e.status.Planned? && e.action.CreateFile? && e.to == p
    case Write(p, _) => e.action.ReadmeWrite? && p == README
    case Remove(p) => e.status.UndoPlanned? && ((e.action.CreateFile? && e.from == p) || (e.action.ReadmeWrite? && p == README))
    case Rmdir(p) => e.status.UndoPlanned? && e.action.CreateDir? && e.from == p
  }

  /** Calls that only make room: parent directories and the engine's own files. */
  predicate MakesRoom(call: Call) {
    call.Mkdir? || (call.Write? && Internal(call.path))
  }

  /** Every call of the script before its effect makes room, and the effect is announced in `prep` under its own id. */
  ghost predicate Announced(m: Script) {
    (forall x :: x in m.prep && x.Sys? ==> MakesRoom(x.call))
    && (m.act != [] && m.act[0].Sys? ==>
          |m.act| == 2 && m.act[1].Row? && exists e :: Row(e) in m.prep && e.id == m.act[1].entry.id && Announces(e, m.act[0].call))
    && (m.act != [] && !m.act[0].Sys? ==> |m.act| == 1)
  }

  lemma {:induction false} MkdirsMakeRoom(t: Tree, p: Path)
    ensures forall x :: x in MkdirSteps(t, p) ==> x.Sys? && MakesRoom(x.call)
    decreases |p|
  {
    if p !in t && p != [] {
      MkdirsMakeRoom(t, Parent(p));
    }
  }

  lemma MoveAnnounced(s: State, c: Check)
    requires c.action.Move?
    ensures Announced(MoveScript(s, c))
  {
    var m := MoveScript(s, c);
    if c.to != [] {
      MkdirsMakeRoom(s.tree, Parent(c.to));
    }
    if m.act != [] {
      assert CheckRow(s.clock, Planned, c) in m.prep;
      assert Announces(CheckRow(s.clock, Planned, c).entry, m.act[0].call);
    }
  }

  lemma TrashAnnounced(s: State, from: Path)
    ensures Announced(TrashScript(s, from))
  {
    var m := TrashScript(s, from);
    MkdirsMakeRoom(s.tree, TrashHome(s.clock));
    PrivateNames(s.clock, s.clock);
    if m.act != [] {
      assert TrashRow(s.clock, Planned, from) in m.prep;
      assert Announces(TrashRow(s.clock, Planned, from).entry, m.act[0].call);
    }
  }

  lemma CreateAnnounced(s: State, c: Check)
    ensures c.action.CreateDir? ==> Announced(CreateDirScript(s, c))
    ensures c.action.CreateFile? ==> Announced(CreateFileScript(s, c))
  {
    var e := CheckRow(s.clock, Planned, c).entry;
    assert c.action.CreateDir? ==> Announces(e, Mkdir(c.to));
    assert c.action.CreateFile? ==> Announces(e, Create(c.to));
    assert Row(e) in CreateDirScript(s, c).prep && Row(e) in CreateFileScript(s, c).prep;
  }

  lemma ReadmeAnnounced(s: State, c: Check)
    ensures Announced(ReadmeScript(s, c))
  {
    var m := ReadmeScript(s, c);
    MkdirsMakeRoom(s.tree, BACKUP_DIR);
    PrivateNames(s.clock, s.clock);
    if m.act != [] {
      assert ReadmeRow(s.clock, Planned) in m.prep;
      assert Announces(ReadmeRow(s.clock, Planned).entry, m.act[0].call);
    }
  }

  lemma UndoAnnounced(s: State, e: Entry, undone: set<nat>, only: Option<nat>)
    ensures Announced(UndoScript(s, e, undone, only))
  {
    var m := UndoScript(s, e, undone, only);
    if e.from != [] {
      MkdirsMakeRoom(s.tree, Parent(e.from));
    }
    if m.act != [] && m.act[0].Sys? {
      assert UndoRow(e, UndoPlanned) in m.prep;
      assert Announces(UndoRow(e, UndoPlanned).entry, m.act[0].call);
    }
  }

  /** Write-ahead: every script but that of `create_empty_file`, which keeps no journal, announces its effect. */
  lemma EffectsAreAnnounced(s: State, job: Job)
    requires !job.CreateOne?
    ensures Announced(ScriptOf(s, job))
  {
    match job {
      case Item(c, prior) =>
        if c.status.Ready? {
          if c.action.Move? { MoveAnnounced(s, c); }
          TrashAnnounced(s, c.from);
          CreateAnnounced(s, c);
          ReadmeAnnounced(s, c);
        }
      case Reverse(e, undone, only) => UndoAnnounced(s, e, undone, only);
      case TrashOne(p) => TrashAnnounced(s, p);
      case RenameOne(p, name) =>
        var m := RenameScript(s, p, name);
        if m.act != [] {
          assert m.prep[0] in m.prep && Announces(m.prep[0].entry, m.act[0].call);
        }
      case PlanOne(c) =>
    }
  }

  // ----- No silent change

  /**
   The row says that work is due on the file at p. Creations name their one target, README rows their
   one file, and moves what lies at or below either end. The root is nobody's target: rows of creations
   carry it as their source, and stand for nothing when they are labelled as moves.
   */
  predicate WorksOn(e: Entry, p: Path) {
    match e.action
    case CreateDir => false
    case CreateFile => p == if e.status.Planned? then e.to else e.from
    case ReadmeWrite => p == README
    case _ => e.from != [] && e.to != [] && (e.from <= p || e.to <= p)
  }

  /** Some row written ahead of an effect says that work is due on the file at p. */
  predicate Mentioned(rows: seq<Entry>, p: Path) {
    exists e :: e in rows && Intent(e) && WorksOn(e, p)
  }

  predicate SameAt(t: Tree, u: Tree, p: Path) {
    (IsFile(t, p) <==> IsFile(u, p)) && (IsFile(t, p) ==> t[p] == u[p])
  }

  /** Whatever user file differs from t is mentioned. */
  ghost predicate Accounted(t: Tree, s: State) {
    WellFormed(s.tree) && forall p :: !Internal(p) && !SameAt(t, s.tree, p) ==> Mentioned(s.journal, p)
  }

  lemma MoreRows(t: Tree, s: State, u: Tree, rows: seq<Entry>)
    requires Accounted(t, s) && s.journal <= rows && WellFormed(u)
    requires forall p :: !Internal(p) && !SameAt(s.tree, u, p) ==> Mentioned(rows, p)
    ensures forall p :: !Internal(p) && !SameAt(t, u, p) ==> Mentioned(rows, p)
  {
    forall p | !Internal(p) && !SameAt(t, u, p)
      ensures Mentioned(rows, p)
    {
      if SameAt(s.tree, u, p) {
        assert !SameAt(t, s.tree, p);
        var e :| e in s.journal && Intent(e) && WorksOn(e, p);
        var i :| 0 <= i < |s.journal| && s.journal[i] == e;
        assert rows[i] == e;
      }
    }
  }

  /** Making room changes no user file. */
  lemma RoomChangesNothing(t: Tree, call: Call, now: nat, p: Path)
    requires Enabled(t, call) && MakesRoom(call) && !Internal(p)
    ensures SameAt(t, Effect(t, call, now), p)
  {
  }

  lemma AnnouncedChange(t: Tree, call: Call, now: nat, e: Entry, p: Path)
    requires WellFormed(t) && Enabled(t, call) && Announces(e, call) && !SameAt(t, Effect(t, call, now), p)
    ensures WorksOn(e, p)
  {
    if call.Rename? {
      MovedAt(t, call.from, call.to, p);
    }
  }

  lemma {:induction false} RoomSteps(s: State, steps: seq<Step>, p: Path)
    requires Succeeds(s, steps) && !Internal(p) && forall x :: x in steps && x.Sys? ==> MakesRoom(x.call)
    ensures SameAt(s.tree, Do(s, steps).tree, p)
    decreases |steps|
  {
    if steps != [] {
      var rest, last := steps[..|steps| - 1], steps[|steps| - 1];
      assert last in steps;
      RoomSteps(s, rest, p);
      if last.Sys? {
        RoomChangesNothing(Do(s, rest).tree, last.call, Do(s, rest).clock, p);
      }
    }
  }

  /** A job cut after n steps: what it changed, it has announced. */
  lemma CutIsAccounted(t: Tree, s: State, job: Job, n: nat)
    requires Accounted(t, s) && !job.CreateOne? && n <= |ScriptOf(s, job).Steps()|
    ensures Accounted(t, Do(s, ScriptOf(s, job).Steps()[..n]))
  {
    var m := ScriptOf(s, job);
    var r := Do(s, m.Steps()[..n]);
    EffectsAreAnnounced(s, job);
    ScriptSucceeds(s, job);
    ScriptKeepsWellFormed(s, job, n);
    DoJournal(s, m.Steps()[..n]);
    forall p | !Internal(p) && !SameAt(s.tree, r.tree, p)
      ensures Mentioned(r.journal, p)
    {
      ChangeIsMentioned(s, m, n, p);
    }
    MoreRows(t, s, r.tree, r.journal);
  }

  lemma ChangeIsMentioned(s: State, m: Script, n: nat, p: Path)
    requires WellFormed(s.tree) && Announced(m) && Succeeds(s, m.Steps()) && n <= |m.Steps()| && !Internal(p)
    requires !SameAt(s.tree, Do(s, m.Steps()[..n]).tree, p)
    ensures Mentioned(Do(s, m.Steps()[..n]).journal, p)
  {
    var r := Do(s, m.Steps()[..n]);
    SucceedsPrefix(s, m.Steps(), n);
    if n <= |m.prep| || |m.act| < 2 {
      forall i | 0 <= i < n
        ensures m.Steps()[..n][i].Sys? ==> MakesRoom(m.Steps()[..n][i].call)
      {
        assert m.Steps()[i] == if i < |m.prep| then m.prep[i] else m.act[i - |m.prep|];
        assert i < |m.prep| ==> m.Steps()[i] in m.prep;
      }
      RoomSteps(s, m.Steps()[..n], p);
    } else {
      EffectIsMentioned(s, m, n, p);
    }
  }

  lemma EffectIsMentioned(s: State, m: Script, n: nat, p: Path)
    requires WellFormed(s.tree) && Announced(m) && Succeeds(s, m.Steps()) && |m.prep| < n <= |m.Steps()| && |m.act| == 2 && !Internal(p)
    requires !SameAt(s.tree, Do(s, m.Steps()[..n]).tree, p)
    ensures Mentioned(Do(s, m.Steps()[..n]).journal, p)
  {
    var q, r := Do(s, m.prep), Do(s, m.Steps()[..n]);
    assert m.Steps()[..|m.prep|] == m.prep;
    assert m.act == [m.act[0], m.act[1]];
    DoConcat(s, m.prep, m.act);
    DoTwo(q, m.act[0], m.act[1]);
    DoKeepsWellFormed(s, m.prep);
    RoomSteps(s, m.prep, p);
    var e :| Row(e) in m.prep && Announces(e, m.act[0].call);
    RowIsAppended(s, m.prep, e);
    if n == |m.prep| + 1 {
      assert m.Steps()[..n] == m.prep + [m.act[0]];
      DoAppend(s, m.prep, m.act[0]);
    } else {
      assert m.Steps()[..n] == m.Steps();
    }
    AnnouncedChange(q.tree, m.act[0].call, q.clock, e, p);
    assert e in r.journal;
  }

  /**
   No silent change: over any session without `create_empty_file`, any command cut off anywhere, every
   user file that is not as it was at the start is accounted for by a row, written ahead, of an action
   that works on this file.
   */
  lemma {:induction false} NoSilentChange(s: State, orders: seq<Order>, p: Path)
    requires WellFormed(s.tree) && forall o :: o in orders ==> !o.cmd.CreateEmptyFile?
    ensures var r := RunSession(s, orders);
            !Internal(p) && !SameAt(s.tree, r.tree, p) ==> Mentioned(r.journal, p)
  {
    forall r: State, o: Order | Accounted(s.tree, r) && o in orders
      ensures Accounted(s.tree, RunCommand(r, o.cmd, o.fuel).s)
    {
      var jobs := JobsOf(r, o.cmd);
      forall q: State, j: Job, n: nat | Accounted(s.tree, q) && j in jobs && n <= |ScriptOf(q, j).Steps()|
        ensures Accounted(s.tree, Do(q, ScriptOf(q, j).Steps()[..n]))
      {
        var i :| 0 <= i < |jobs| && jobs[i] == j;
        CutIsAccounted(s.tree, q, j, n);
      }
      RunPreserves(r, jobs, o.fuel, (q: State) => Accounted(s.tree, q));
    }
    SessionPreserves(s, orders, (r: State) => Accounted(s.tree, r));
  }
}
