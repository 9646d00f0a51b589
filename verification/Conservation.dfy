/** No file content is ever lost or overwritten. */
module Conservation {
  import opened FileSystem
  import opened Journal
  import opened Scripts
  import opened Steps
  import opened Sessions
  import opened Wrappers

  /** User files, and trashed files under their payload names. */
  predicate Tracked(p: Path) {
    !Internal(p) || (|p| >= 3 && p[0] == TRASH_DIR && p[2] == "file")
  }

  /** Every non-empty tracked file, by identity and content. */
  ghost function Stock(t: Tree): set<(nat, string)> {
    set p | p in t && t[p].File? && Tracked(p) && t[p].content != "" :: (t[p].id, t[p].content)
  }

  /** One identity per file: no hard links, and new files get identities from the clock. */
  ghost predicate Distinct(t: Tree, clock: nat) {
    (forall p :: IsFile(t, p) ==> t[p].id < clock)
    && (forall p, q :: IsFile(t, p) && IsFile(t, q) && t[p].id == t[q].id ==> p == q)
  }

  /** The call loses nothing that is tracked. */
  predicate Harmless(t: Tree, call: Call) {
    match call
    case Rename(a, b) => Tracked(a) && Tracked(b)
    case Write(p, _) => !Tracked(p)
    case Remove(p) => IsFile(t, p) && t[p].content == ""
    case _ => true
  }

  lemma TrackedBelow(a: Path, p: Path)
    requires a != [] && Tracked(a) && a <= p
    ensures Tracked(p)
  {
    assert p[0] == a[0];
    if |a| >= 3 { assert p[2] == a[2]; }
  }

  lemma RenameKeepsStock(t: Tree, a: Path, b: Path)
    requires WellFormed(t) && Enabled(t, Rename(a, b)) && Tracked(a) && Tracked(b)
    ensures Stock(Moved(t, a, b)) == Stock(t)
  {
    var u := Moved(t, a, b);
    assert a != [];
    forall x | x in Stock(t)
      ensures x in Stock(u)
    {
      var p :| p in t && t[p].File? && Tracked(p) && t[p].content != "" && (t[p].id, t[p].content) == x;
      MovedBack(t, a, b, p);
      if a <= p {
        TrackedBelow(b, b + p[|a|..]);
      }
    }
    forall x | x in Stock(u)
      ensures x in Stock(t)
    {
      var p :| p in u && u[p].File? && Tracked(p) && u[p].content != "" && (u[p].id, u[p].content) == x;
      MovedAt(t, a, b, p);
      if b <= p && a + p[|b|..] in t {
        TrackedBelow(a, a + p[|b|..]);
      }
    }
  }

  /** Where an entry of the renamed tree came from. */
  function Origin(t: Tree, a: Path, b: Path, p: Path): Path {
    if b <= p && a + p[|b|..] in t then a + p[|b|..] else p
  }

  lemma RenameKeepsDistinct(t: Tree, a: Path, b: Path, clock: nat)
    requires WellFormed(t) && Enabled(t, Rename(a, b)) && Distinct(t, clock)
    ensures Distinct(Moved(t, a, b), clock)
  {
    var u := Moved(t, a, b);
    forall p | IsFile(u, p)
      ensures IsFile(t, Origin(t, a, b, p)) && t[Origin(t, a, b, p)] == u[p]
    {
      MovedAt(t, a, b, p);
      if !(b <= p && a + p[|b|..] in t) && b <= p && b != p {
        AncestorsAreDirs(t, p, b);
      }
    }
    forall p, q | IsFile(u, p) && IsFile(u, q) && u[p].id == u[q].id
      ensures p == q
    {
      var x, y := Origin(t, a, b, p), Origin(t, a, b, q);
      assert x == y;
      MovedAt(t, a, b, p);
      MovedAt(t, a, b, q);
      if b <= p && a + p[|b|..] in t && b <= q && a + q[|b|..] in t {
        assert p == b + x[|a|..] && q == b + y[|a|..];
      }
    }
  }

  lemma HarmlessKeeps(t: Tree, call: Call, clock: nat)
    requires WellFormed(t) && Enabled(t, call) && Harmless(t, call) && Distinct(t, clock)
    ensures Stock(Effect(t, call, clock)) == Stock(t) && Distinct(Effect(t, call, clock), clock + 1)
  {
    if call.Rename? {
      RenameKeepsStock(t, call.from, call.to);
      RenameKeepsDistinct(t, call.from, call.to, clock);
    } else {
      var u := Effect(t, call, clock);
      var p := call.path;
      assert forall q :: q != p ==> (q in t <==> q in u) && (q in t ==> u[q] == t[q]);
      OneEntryChanged(t, u, p);
    }
  }

  lemma OneEntryChanged(t: Tree, u: Tree, p: Path)
    requires forall q :: q != p ==> (q in t <==> q in u) && (q in t ==> u[q] == t[q])
    requires !Tracked(p) || ((IsFile(t, p) ==> t[p].content == "") && (IsFile(u, p) ==> u[p].content == ""))
    ensures Stock(u) == Stock(t)
  {
    forall x
      ensures x in Stock(t) <==> x in Stock(u)
    {
      if x in Stock(t) {
        var q :| q in t && t[q].File? && Tracked(q) && t[q].content != "" && (t[q].id, t[q].content) == x;
        assert q != p && u[q] == t[q];
      }
      if x in Stock(u) {
        var q :| q in u && u[q].File? && Tracked(q) && u[q].content != "" && (u[q].id, u[q].content) == x;
        assert q != p && u[q] == t[q];
      }
    }
  }

  // ----- Scripts

  /** Rows whose reversal stays within tracked files. */
  predicate RowSafe(e: Entry) {
    !e.action.ReadmeWrite?
    && (e.action.Move? || e.action.Trash? ==> Tracked(e.from) && Tracked(e.to))
  }

  /** Step by step, the rows are safe and the calls harmless. */
  ghost predicate Safe(s: State, steps: seq<Step>) {
    steps == [] ||
    var rest, last := steps[..|steps| - 1], steps[|steps| - 1];
    Safe(s, rest) && match last case Row(e) => RowSafe(e) case Sys(c) => Harmless(Do(s, rest).tree, c)
  }

  lemma {:induction false} SafePrefix(s: State, steps: seq<Step>, n: nat)
    requires Safe(s, steps) && n <= |steps|
    ensures Safe(s, steps[..n])
    decreases |steps|
  {
    if n == |steps| {
      assert steps[..n] == steps;
    } else {
      assert steps[..n] == steps[..|steps| - 1][..n];
      SafePrefix(s, steps[..|steps| - 1], n);
    }
  }

  lemma {:induction false} SafeConcat(s: State, a: seq<Step>, b: seq<Step>)
    requires Safe(s, a) && Safe(Do(s, a), b)
    ensures Safe(s, a + b)
    decreases |b|
  {
    if b == [] {
      assert a + b == a;
    } else {
      var rest := b[..|b| - 1];
      assert (a + b)[..|a + b| - 1] == a + rest;
      SafeConcat(s, a, rest);
      DoConcat(s, a, rest);
    }
  }

  lemma {:induction false} SafeMkdirs(s: State, t: Tree, p: Path)
    ensures Safe(s, MkdirSteps(t, p))
    decreases |p|
  {
    if p !in t && p != [] {
      SafeMkdirs(s, t, Parent(p));
      SafeOne(Do(s, MkdirSteps(t, Parent(p))), Sys(Mkdir(p)));
      SafeConcat(s, MkdirSteps(t, Parent(p)), [Sys(Mkdir(p))]);
    }
  }

  lemma SafeOne(s: State, step: Step)
    requires match step case Row(e) => RowSafe(e) case Sys(c) => Harmless(s.tree, c)
    ensures Safe(s, [step])
  {
    assert [step][..0] == [];
    assert Do(s, []) == s;
  }

  lemma SafeTwo(s: State, x: Step, y: Step)
    requires match x case Row(e) => RowSafe(e) case Sys(c) => Harmless(s.tree, c)
    requires y.Row? && RowSafe(y.entry)
    ensures Safe(s, [x, y])
  {
    SafeOne(s, x);
    SafeOne(Do(s, [x]), y);
    SafeConcat(s, [x], [y]);
    assert [x] + [y] == [x, y];
  }

  /** What is kept over every run: the stock, one identity per file, and safe rows. */
  ghost predicate Kept(s: State, stock: set<(nat, string)>) {
    WellFormed(s.tree) && Distinct(s.tree, s.clock) && Stock(s.tree) == stock && forall e :: e in s.journal ==> RowSafe(e)
  }

  lemma {:induction false} SafeStepsKeep(s: State, steps: seq<Step>, stock: set<(nat, string)>)
    requires Kept(s, stock) && Safe(s, steps) && Succeeds(s, steps)
    ensures Kept(Do(s, steps), stock)
    decreases |steps|
  {
    if steps != [] {
      var rest, last := steps[..|steps| - 1], steps[|steps| - 1];
      SafeStepsKeep(s, rest, stock);
      var r := Do(s, rest);
      if last.Sys? {
        HarmlessKeeps(r.tree, last.call, r.clock);
        EffectKeepsWellFormed(r.tree, last.call, r.clock);
      }
    }
  }

  predicate CheckSafe(c: Check) {
    !c.action.ReadmeWrite? && (c.action.Move? || c.action.Trash? ==> !Internal(c.from)) && (!c.action.Trash? ==> !Internal(c.to))
  }

  /** Jobs that stay within user paths and do not write README.md. */
  predicate JobSafe(job: Job) {
    match job
    case Item(c, prior) => CheckSafe(c) && forall e :: e in prior ==> RowSafe(e)
    case Reverse(e, _, _) => RowSafe(e)
    case TrashOne(p) => !Internal(p)
    case RenameOne(p, name) => !Internal(p) && (p != [] ==> !Internal(Parent(p) + [name]))
    case CreateOne(p) => true
    case PlanOne(c) => CheckSafe(c) && !Internal(c.from) && !Internal(c.to)
  }

  lemma SafeRowsThenDirs(s: State, row: Step, p: Path)
    requires row.Row? && RowSafe(row.entry)
    ensures Safe(s, [row] + MkdirSteps(s.tree, p))
  {
    SafeOne(s, row);
    SafeMkdirs(Do(s, [row]), s.tree, p);
    SafeConcat(s, [row], MkdirSteps(s.tree, p));
  }

  /** A safe preparation and then at most one harmless call and a safe row. */
  lemma SafeScript(s: State, m: Script)
    requires Safe(s, m.prep) && |m.act| <= 2
    requires m.act != [] ==> match m.act[0] case Row(e) => RowSafe(e) case Sys(c) => Harmless(Do(s, m.prep).tree, c)
    requires |m.act| == 2 ==> m.act[1].Row? && RowSafe(m.act[1].entry)
    ensures Safe(s, m.Steps())
  {
    var q := Do(s, m.prep);
    if |m.act| == 1 {
      assert m.act == [m.act[0]];
      SafeOne(q, m.act[0]);
    } else if |m.act| == 2 {
      assert m.act == [m.act[0], m.act[1]];
      SafeTwo(q, m.act[0], m.act[1]);
    }
    SafeConcat(s, m.prep, m.act);
  }

  lemma SafePayload(id: nat)
    ensures Tracked(Payload(id)) && !Tracked(Metadata(id))
  {
    assert Payload(id)[2] == "file" && Metadata(id)[2] == "original.json" && |Metadata(id)| == 3;
    assert Metadata(id)[0] == TRASH_DIR && Payload(id)[0] == TRASH_DIR;
  }

  lemma MoveSafe(s: State, c: Check)
    requires CheckSafe(c) && c.action.Move?
    ensures Safe(s, MoveScript(s, c).Steps())
  {
    var m, planned := MoveScript(s, c), CheckRow(s.clock, Planned, c);
    if m.prep == [planned] {
      SafeOne(s, planned);
    } else {
      SafeRowsThenDirs(s, planned, Parent(c.to));
    }
    SafeScript(s, m);
  }

  lemma TrashSafe(s: State, from: Path)
    requires !Internal(from)
    ensures Safe(s, TrashScript(s, from).Steps())
  {
    var m, planned, home := TrashScript(s, from), TrashRow(s.clock, Planned, from), TrashHome(s.clock);
    SafePayload(s.clock);
    if m.prep == [planned] {
      SafeOne(s, planned);
    } else if m.prep != [] {
      SafeRowsThenDirs(s, planned, home);
      var dirs := [planned] + MkdirSteps(s.tree, home);
      var write := Sys(Write(Metadata(s.clock), METADATA_TEXT));
      SafeOne(Do(s, dirs), write);
      SafeConcat(s, dirs, [write]);
    }
    SafeScript(s, m);
  }

  lemma UndoMoveSafe(s: State, e: Entry)
    requires RowSafe(e) && (e.action.Move? || e.action.Trash?)
    ensures Safe(s, UndoMove(s, e).Steps())
  {
    var m := UndoMove(s, e);
    if m.prep != [] {
      var home := Parent(e.from);
      SafeMkdirs(s, s.tree, home);
      SafeOne(Do(s, MkdirSteps(s.tree, home)), UndoRow(e, UndoPlanned));
      SafeConcat(s, MkdirSteps(s.tree, home), [UndoRow(e, UndoPlanned)]);
    }
    SafeScript(s, m);
  }

  /** An undo row, one harmless removal, and the closing row. */
  lemma RemovalSafe(s: State, e: Entry, call: Call)
    requires RowSafe(e) && Harmless(s.tree, call)
    ensures Safe(s, Script([UndoRow(e, UndoPlanned)], [Sys(call), UndoRow(e, Undone)], Done).Steps())
  {
    SafeOne(s, UndoRow(e, UndoPlanned));
    DoOne(s, UndoRow(e, UndoPlanned));
    SafeScript(s, Script([UndoRow(e, UndoPlanned)], [Sys(call), UndoRow(e, Undone)], Done));
  }

  lemma UndoCreateFileSafe(s: State, e: Entry)
    requires RowSafe(e) && e.action.CreateFile?
    ensures Safe(s, UndoCreateFile(s, e).Steps())
  {
    var m := UndoCreateFile(s, e);
    if m.prep != [] {
      RemovalSafe(s, e, Remove(e.to));
    } else {
      SafeScript(s, m);
    }
  }

  lemma UndoCreateDirSafe(s: State, e: Entry)
    requires RowSafe(e) && e.action.CreateDir?
    ensures Safe(s, UndoCreateDir(s, e).Steps())
  {
    var m := UndoCreateDir(s, e);
    if m.prep != [] {
      RemovalSafe(s, e, Rmdir(e.to));
    } else {
      SafeScript(s, m);
    }
  }

  lemma UndoSafe(s: State, e: Entry, undone: set<nat>, only: Option<nat>)
    requires RowSafe(e)
    ensures Safe(s, UndoScript(s, e, undone, only).Steps())
  {
    if UndoScript(s, e, undone, only).out.Ignored? {
      assert UndoScript(s, e, undone, only).Steps() == [];
    } else {
      match e.action {
        case CreateDir => UndoCreateDirSafe(s, e);
        case CreateFile => UndoCreateFileSafe(s, e);
        case _ => UndoMoveSafe(s, e);
      }
    }
  }

  lemma ItemSafe(s: State, c: Check, prior: seq<Entry>)
    requires CheckSafe(c) && forall e :: e in prior ==> RowSafe(e)
    ensures Safe(s, ItemScript(s, c, prior).Steps())
  {
    var m := ItemScript(s, c, prior);
    if !c.status.Ready? {
      SafeScript(s, m);
    } else if c.action.Move? {
      MoveSafe(s, c);
    } else if c.action.Trash? {
      TrashSafe(s, c.from);
    } else {
      SafeOne(s, CheckRow(s.clock, Planned, c));
      SafeScript(s, m);
    }
  }

  lemma JobStepsSafe(s: State, job: Job)
    requires JobSafe(job)
    ensures Safe(s, ScriptOf(s, job).Steps())
  {
    match job {
      case Item(c, prior) => ItemSafe(s, c, prior);
      case Reverse(e, undone, only) => UndoSafe(s, e, undone, only);
      case TrashOne(p) => TrashSafe(s, p);
      case PlanOne(c) =>
        SafeOne(s, Row(Entry(s.clock, Planned, Move, c.from, c.to)));
        SafeScript(s, ScriptOf(s, job));
      case RenameOne(p, name) => RenameSafe(s, p, name);
      case CreateOne(p) => SafeScript(s, ScriptOf(s, job));
    }
  }

  lemma RenameSafe(s: State, p: Path, name: string)
    requires !Internal(p) && (p != [] ==> !Internal(Parent(p) + [name]))
    ensures Safe(s, RenameScript(s, p, name).Steps())
  {
    var m := RenameScript(s, p, name);
    if m.prep != [] {
      SafeOne(s, m.prep[0]);
    }
    SafeScript(s, m);
  }

  // ----- Sessions

  /** Commands on user paths other than README writes. */
  predicate CommandSafe(cmd: Command) {
    match cmd
    case Execute(ps) => forall i :: 0 <= i < |ps| ==> ProposalSafe(ps[i])
    case WritePlanned(ps) => forall i :: 0 <= i < |ps| ==> ProposalSafe(ps[i]) && !Internal(ps[i].from) && !Internal(ps[i].to)
    case Undo(_) => true
    case TrashFile(p) => !Internal(p)
    case RenameFile(p, name) => !Internal(p) && (p != [] ==> !Internal(Parent(p) + [name]))
    case CreateEmptyFile(_) => true
  }

  predicate ProposalSafe(q: Proposal) {
    !q.action.ReadmeWrite? && (q.action.Move? || q.action.Trash? ==> !Internal(q.from)) && (!q.action.Trash? ==> !Internal(q.to))
  }

  lemma CommandKeeps(s: State, cmd: Command, fuel: nat, stock: set<(nat, string)>)
    requires CommandSafe(cmd) && Kept(s, stock)
    ensures Kept(RunCommand(s, cmd, fuel).s, stock)
  {
    var jobs := JobsOf(s, cmd);
    forall j | j in jobs
      ensures JobSafe(j)
    {
      var i :| 0 <= i < |jobs| && jobs[i] == j;
    }
    forall r: State, j: Job, n: nat | Kept(r, stock) && j in jobs && n <= |ScriptOf(r, j).Steps()|
      ensures Kept(Do(r, ScriptOf(r, j).Steps()[..n]), stock)
    {
      var steps := ScriptOf(r, j).Steps();
      JobStepsSafe(r, j);
      ScriptSucceeds(r, j);
      SafePrefix(r, steps, n);
      SucceedsPrefix(r, steps, n);
      SafeStepsKeep(r, steps[..n], stock);
    }
    RunPreserves(s, jobs, fuel, (r: State) => Kept(r, stock));
  }

  /**
   Conservation: whatever moves, trashings, creations, renames and undos are run, in any order, with
   any of them cut off after any step, the non-empty files are the same ones with the same contents.
   */
  lemma SessionConserves(s: State, orders: seq<Order>)
    requires WellFormed(s.tree) && s.journal == [] && Distinct(s.tree, s.clock)
    requires forall o :: o in orders ==> CommandSafe(o.cmd)
    ensures var r := RunSession(s, orders);
            Stock(r.tree) == Stock(s.tree) && Distinct(r.tree, r.clock)
  {
    var stock := Stock(s.tree);
    forall r: State, o: Order | Kept(r, stock) && o in orders
      ensures Kept(RunCommand(r, o.cmd, o.fuel).s, stock)
    {
      CommandKeeps(r, o.cmd, o.fuel, stock);
    }
    SessionPreserves(s, orders, (r: State) => Kept(r, stock));
  }
}
