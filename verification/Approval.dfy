/** Only approved work happens, and it happens to the files that were approved. */
module Approval {
  import opened FileSystem
  import opened Journal
  import opened Scripts
  import opened Steps
  import opened ExecutePast
  import opened UndoInverts
  import opened Decisions

  // ----- What one item can do to a file

  /** The steps of an item: private preparations, then at most one effect, on the paths of the item. */
  predicate Shaped(s: State, c: Check, m: Script) {
    (forall x :: x in m.prep && x.Sys? ==> x.call.Mkdir? || (x.call.Write? && LeftBy(x.call.path, s.clock)))
    && |m.act| <= 2 && (m.act != [] ==> m.act[|m.act| - 1].Row?)
    && (|m.act| == 2 ==> m.act[0].Sys? && c.status.Ready? && EffectOf(s.clock, c, m.act[0].call))
    && (m.out.Done? && c.status.Ready? ==> |m.act| == 2)
  }

  predicate EffectOf(id: nat, c: Check, call: Call) {
    match c.action
    case Move => call == Rename(c.from, c.to)
    case Trash => call == Rename(c.from, Payload(id))
    case CreateDir => call == Mkdir(c.to)
    case CreateFile => call == Create(c.to)
    case ReadmeWrite => call.Write? && call.path == README
  }

  lemma {:induction false} MkdirStepsMake(t: Tree, p: Path)
    ensures forall x :: x in MkdirSteps(t, p) ==> x.Sys? && x.call.Mkdir?
    decreases |p|
  {
    if p !in t && p != [] {
      MkdirStepsMake(t, Parent(p));
    }
  }

  lemma ItemShape(s: State, c: Check, prior: seq<Entry>)
    ensures Shaped(s, c, ItemScript(s, c, prior))
  {
    if c.to != [] {
      MkdirStepsMake(s.tree, Parent(c.to));
    }
    MkdirStepsMake(s.tree, TrashHome(s.clock));
    MkdirStepsMake(s.tree, BACKUP_DIR);
  }

  lemma {:induction false} PreparingKeeps(s: State, steps: seq<Step>, p: Path, id: nat)
    requires forall x :: x in steps && x.Sys? ==> x.call.Mkdir? || (x.call.Write? && LeftBy(x.call.path, id))
    requires Succeeds(s, steps) && IsFile(s.tree, p) && !LeftBy(p, id)
    ensures p in Do(s, steps).tree && Do(s, steps).tree[p] == s.tree[p]
    decreases |steps|
  {
    if steps != [] {
      assert steps[|steps| - 1] in steps;
      PreparingKeeps(s, steps[..|steps| - 1], p, id);
    }
  }

  /** The state when the effect of the script is due. */
  lemma BeforeEffect(s: State, c: Check, prior: seq<Entry>, p: Path) returns (q: State)
    requires WellFormed(s.tree) && IsFile(s.tree, p) && !LeftBy(p, s.clock) && |ItemScript(s, c, prior).act| == 2
    ensures var m := ItemScript(s, c, prior);
            q == Do(s, m.prep) && WellFormed(q.tree) && p in q.tree && q.tree[p] == s.tree[p]
            && Shaped(s, c, m) && Enabled(q.tree, m.act[0].call)
            && (forall n :: |m.prep| < n <= |m.Steps()| ==> Do(s, m.Steps()[..n]).tree == Effect(q.tree, m.act[0].call, q.clock))
  {
    var m := ItemScript(s, c, prior);
    q := Do(s, m.prep);
    ItemShape(s, c, prior);
    ScriptSucceeds(s, Item(c, prior));
    DoConcat(s, m.prep, m.act);
    SucceedsPrefix(s, m.Steps(), |m.prep|);
    assert m.Steps()[..|m.prep|] == m.prep;
    DoKeepsWellFormed(s, m.prep);
    PreparingKeeps(s, m.prep, p, s.clock);
    assert m.act == [m.act[0], m.act[1]];
    DoTwo(q, m.act[0], m.act[1]);
    forall n | |m.prep| < n <= |m.Steps()|
      ensures Do(s, m.Steps()[..n]).tree == Effect(q.tree, m.act[0].call, q.clock)
    {
      if n == |m.prep| + 1 {
        assert m.Steps()[..n] == m.prep + [m.act[0]];
        DoAppend(s, m.prep, m.act[0]);
      } else {
        assert m.Steps()[..n] == m.Steps();
      }
    }
  }

  /** Up to the effect, and in scripts without one, every file of the user stays. */
  lemma EarlyCutKeeps(s: State, c: Check, prior: seq<Entry>, n: nat, p: Path)
    requires WellFormed(s.tree) && IsFile(s.tree, p) && !LeftBy(p, s.clock)
    requires n <= |ItemScript(s, c, prior).Steps()| && (n <= |ItemScript(s, c, prior).prep| || |ItemScript(s, c, prior).act| < 2)
    ensures var u := Do(s, ItemScript(s, c, prior).Steps()[..n]).tree; p in u && u[p] == s.tree[p]
  {
    var m := ItemScript(s, c, prior);
    ItemShape(s, c, prior);
    ScriptSucceeds(s, Item(c, prior));
    SucceedsPrefix(s, m.Steps(), n);
    var steps := m.Steps()[..n];
    forall i | 0 <= i < n
      ensures steps[i].Sys? ==> steps[i].call.Mkdir? || (steps[i].call.Write? && LeftBy(steps[i].call.path, s.clock))
    {
      assert steps[i] == if i < |m.prep| then m.prep[i] else m.act[i - |m.prep|];
      assert i < |m.prep| ==> steps[i] in m.prep;
    }
    PreparingKeeps(s, steps, p, s.clock);
  }

  /** The item leaves file p alone. */
  predicate Spares(c: Check, p: Path) {
    (Moves(c) ==> !(c.from <= p)) && (c.action.ReadmeWrite? ==> p != README)
  }

  lemma ItemKeepsFile(s: State, c: Check, prior: seq<Entry>, n: nat, p: Path)
    requires WellFormed(s.tree) && IsFile(s.tree, p) && !LeftBy(p, s.clock)
    requires n <= |ItemScript(s, c, prior).Steps()| && (c.status.Ready? ==> Spares(c, p))
    ensures var u := Do(s, ItemScript(s, c, prior).Steps()[..n]).tree; p in u && u[p] == s.tree[p]
  {
    var m := ItemScript(s, c, prior);
    if n <= |m.prep| || |m.act| < 2 {
      EarlyCutKeeps(s, c, prior, n, p);
    } else {
      ItemShape(s, c, prior);
      var q := BeforeEffect(s, c, prior, p);
      EffectSpares(q.tree, m.act[0].call, q.clock, p);
    }
  }

  lemma EffectSpares(t: Tree, call: Call, now: nat, p: Path)
    requires WellFormed(t) && Enabled(t, call) && IsFile(t, p)
    requires match call case Rename(a, _) => !(a <= p) case Write(w, _) => w != p case Mkdir(_) => true case Create(_) => true case _ => false
    ensures p in Effect(t, call, now) && Effect(t, call, now)[p] == t[p]
  {
    if call.Rename? {
      MovedBack(t, call.from, call.to, p);
    }
  }

  // ----- Files no approved proposal names

  predicate Touches(q: Proposal, p: Path) {
    match q.action
    case Move => p == q.from || p == q.to
    case Trash => p == q.from
    case ReadmeWrite => p == README
    case _ => p == q.to
  }

  lemma ReadySpares(t: Tree, q: Proposal, p: Path)
    requires WellFormed(t) && IsFile(t, p) && !Touches(q, p) && IsReady(t, q)
    ensures Spares(Precheck(t, q), p)
  {
    ReadyMeans(t, q);
    if (q.action.Move? || q.action.Trash?) && q.from < p {
      AncestorsAreDirs(t, p, q.from);
    }
  }

  /**
   A user file at a path that no proposal of the batch names is the same after the batch, also after
   a hard error or a crash, whatever the journal held before.
   */
  lemma UnnamedFilesAreKept(s: State, ps: seq<Proposal>, fuel: nat, p: Path)
    requires WellFormed(s.tree) && IsFile(s.tree, p) && !Internal(p) && forall q :: q in ps ==> !Touches(q, p)
    ensures var u := RunCommand(s, Execute(ps), fuel).s.tree; p in u && u[p] == s.tree[p]
  {
    var jobs := JobsOf(s, Execute(ps));
    var keeps := (r: State) => WellFormed(r.tree) && p in r.tree && r.tree[p] == s.tree[p];
    forall r: State, j: Job, n: nat | keeps(r) && j in jobs && n <= |ScriptOf(r, j).Steps()|
      ensures keeps(Do(r, ScriptOf(r, j).Steps()[..n]))
    {
      var i :| 0 <= i < |jobs| && jobs[i] == j;
      assert ps[i] in ps;
      var c := Precheck(s.tree, ps[i]);
      if c.status.Ready? {
        ReadySpares(s.tree, ps[i], p);
      }
      PrivateNames(r.clock, r.clock);
      ItemKeepsFile(r, c, s.journal, n, p);
      ScriptKeepsWellFormed(r, j, n);
    }
    RunPreserves(s, jobs, fuel, keeps);
  }

  function ProposalsOf(named: seq<Named>): (ps: seq<Proposal>)
    ensures |ps| == |named| && forall i :: 0 <= i < |ps| ==> ps[i] == named[i].proposal
  {
    seq(|named|, i requires 0 <= i < |named| => named[i].proposal)
  }

  /** What is executed after the decisions: the approved part of the report. */
  function ApprovedWork(report: seq<Named>, decisions: seq<Decision>): seq<Proposal> {
    ProposalsOf(Select(report, decisions, Approve))
  }

  /** Rejected and undecided proposals have no say: a file only they name is untouched. */
  lemma OnlyApprovedWorkHappens(report: seq<Named>, decisions: seq<Decision>, s: State, fuel: nat, p: Path)
    requires WellFormed(s.tree) && IsFile(s.tree, p) && !Internal(p)
    requires forall q :: q in report && Decided(decisions, q.id, Approve) ==> !Touches(q.proposal, p)
    ensures var u := RunCommand(s, Execute(ApprovedWork(report, decisions)), fuel).s.tree; p in u && u[p] == s.tree[p]
  {
    SelectMeans(report, decisions, Approve);
    var chosen := Select(report, decisions, Approve);
    forall q | q in ApprovedWork(report, decisions)
      ensures !Touches(q, p)
    {
      var i :| 0 <= i < |chosen| && chosen[i].proposal == q;
      assert chosen[i] in chosen;
    }
    UnnamedFilesAreKept(s, ApprovedWork(report, decisions), fuel, p);
  }

  // ----- Moved files are the approved ones

  predicate Still(t: Tree, u: Tree, q: Proposal) {
    IsFile(t, q.from) && q.from in u && u[q.from] == t[q.from]
  }

  /** A row of an operation begun at n0 or later that carries out the proposal. */
  predicate Enacts(e: Entry, q: Proposal, status: Status, n0: nat) {
    e.status == status && e.action == q.action && e.from == q.from && e.id >= n0
    && e.to == if q.action.Move? then q.to else Payload(e.id)
  }

  /** The very file the proposal was made for lies where a row of its operation says. */
  ghost predicate Delivered(t: Tree, n0: nat, r: State, q: Proposal, status: Status) {
    IsFile(t, q.from) && exists e :: e in r.journal && Enacts(e, q, status, n0) && e.to in r.tree && r.tree[e.to] == t[q.from]
  }

  /** Ready proposals of the batch have no path in common. */
  ghost predicate PathsApart(t: Tree, ps: seq<Proposal>) {
    forall i, k, p :: 0 <= i < |ps| && 0 <= k < |ps| && i != k && IsReady(t, ps[i]) && IsReady(t, ps[k]) && Touches(ps[i], p) ==>
      !Touches(ps[k], p)
  }

  ghost predicate Tracked(t: Tree, n0: nat, r: State, q: Proposal, begun: bool) {
    Still(t, r.tree, q) || (begun && Delivered(t, n0, r, q, Planned))
  }

  /** Items before i have run in part or in full, later ones not yet. */
  ghost predicate Standing(t: Tree, n0: nat, ps: seq<Proposal>, i: nat, r: State) {
    WellFormed(r.tree) && n0 <= r.clock && forall k :: 0 <= k < |ps| && ReadySource(t, ps[k]) ==> Tracked(t, n0, r, ps[k], k < i)
  }

  lemma ItemKeepsUserFile(t: Tree, q: Proposal, s: State, prior: seq<Entry>, n: nat, p: Path)
    requires WellFormed(s.tree) && IsFile(s.tree, p) && !LeftBy(p, s.clock) && !Touches(q, p)
    requires n <= |ItemScript(s, Precheck(t, q), prior).Steps()|
    requires ReadySource(t, q) ==> Still(t, s.tree, q)
    ensures var u := Do(s, ItemScript(s, Precheck(t, q), prior).Steps()[..n]).tree; p in u && u[p] == s.tree[p]
  {
    if ReadySource(t, q) && q.from < p {
      AncestorsAreDirs(s.tree, p, q.from);
    }
    ItemKeepsFile(s, Precheck(t, q), prior, n, p);
  }

  lemma OtherFileKept(t: Tree, ps: seq<Proposal>, i: nat, k: nat, s: State, prior: seq<Entry>, n: nat, p: Path)
    requires i < |ps| && k < |ps| && i != k && PathsApart(t, ps) && UserBatch(ps) && WellFormed(s.tree)
    requires ReadySource(t, ps[k]) && IsFile(s.tree, p) && (ReadySource(t, ps[i]) ==> Still(t, s.tree, ps[i]))
    requires (Touches(ps[k], p) && !Internal(p)) || exists id: nat :: p == Payload(id)
    requires n <= |ItemScript(s, Precheck(t, ps[i]), prior).Steps()|
    ensures var u := Do(s, ItemScript(s, Precheck(t, ps[i]), prior).Steps()[..n]).tree; p in u && u[p] == s.tree[p]
  {
    var q := ps[i];
    assert UserPaths(q.action, q.from, q.to);
    assert |README| == 1 && README[0] != STATE_DIR && README[0] != TRASH_DIR;
    if !Internal(p) {
      PrivateNames(s.clock, s.clock);
    } else {
      var id: nat :| p == Payload(id);
      PrivateNames(id, s.clock);
    }
    if IsReady(t, q) {
      ItemKeepsUserFile(t, q, s, prior, n, p);
    } else {
      ItemKeepsFile(s, Precheck(t, q), prior, n, p);
    }
  }

  /** An item does not disturb what another one has delivered. */
  lemma OtherStaysDelivered(t: Tree, n0: nat, ps: seq<Proposal>, i: nat, k: nat, s: State, prior: seq<Entry>, n: nat, status: Status)
    requires i < |ps| && k < |ps| && i != k && PathsApart(t, ps) && UserBatch(ps) && WellFormed(s.tree)
    requires ReadySource(t, ps[k]) && Delivered(t, n0, s, ps[k], status) && (ReadySource(t, ps[i]) ==> Still(t, s.tree, ps[i]))
    requires n <= |ItemScript(s, Precheck(t, ps[i]), prior).Steps()|
    ensures Delivered(t, n0, Do(s, ItemScript(s, Precheck(t, ps[i]), prior).Steps()[..n]), ps[k], status)
  {
    var q := ps[k];
    var steps := ItemScript(s, Precheck(t, ps[i]), prior).Steps()[..n];
    var e :| e in s.journal && Enacts(e, q, status, n0) && e.to in s.tree && s.tree[e.to] == t[q.from];
    assert UserPaths(q.action, q.from, q.to);
    OtherFileKept(t, ps, i, k, s, prior, n, e.to);
    DoJournal(s, steps);
    assert e in Do(s, steps).journal;
  }

  /** An item does not disturb what belongs to another one. */
  lemma OtherStaysTracked(t: Tree, n0: nat, ps: seq<Proposal>, i: nat, k: nat, s: State, prior: seq<Entry>, n: nat, begun: bool)
    requires i < |ps| && k < |ps| && i != k && PathsApart(t, ps) && UserBatch(ps) && WellFormed(s.tree)
    requires ReadySource(t, ps[k]) && Tracked(t, n0, s, ps[k], begun) && (ReadySource(t, ps[i]) ==> Still(t, s.tree, ps[i]))
    requires n <= |ItemScript(s, Precheck(t, ps[i]), prior).Steps()|
    ensures Tracked(t, n0, Do(s, ItemScript(s, Precheck(t, ps[i]), prior).Steps()[..n]), ps[k], begun)
  {
    var q := ps[k];
    assert UserPaths(q.action, q.from, q.to);
    assert Touches(q, q.from);
    if Still(t, s.tree, q) {
      OtherFileKept(t, ps, i, k, s, prior, n, q.from);
    } else {
      OtherStaysDelivered(t, n0, ps, i, k, s, prior, n, Planned);
    }
  }

  /** The rows of an item that moves its file: one before the effect, one after it. */
  lemma RowsOfMove(t: Tree, q: Proposal, s: State, prior: seq<Entry>)
    requires ReadySource(t, q) && |ItemScript(s, Precheck(t, q), prior).act| == 2
    ensures var m, place := ItemScript(s, Precheck(t, q), prior), if q.action.Move? then q.to else Payload(s.clock);
            Row(Entry(s.clock, Planned, q.action, q.from, place)) in m.prep && m.act[1] == Row(Entry(s.clock, Executed, q.action, q.from, place))
            && m.act[0] == Sys(Rename(q.from, place))
  {
    var m := ItemScript(s, Precheck(t, q), prior);
    assert m.prep[0] in m.prep;
  }

  /** The item itself leaves its file in place or delivers it; a report of success means delivery. */
  lemma ItemDelivers(t: Tree, n0: nat, q: Proposal, s: State, prior: seq<Entry>, n: nat)
    requires WellFormed(s.tree) && n0 <= s.clock && ReadySource(t, q) && UserPaths(q.action, q.from, q.to) && Still(t, s.tree, q)
    requires n <= |ItemScript(s, Precheck(t, q), prior).Steps()|
    ensures var m := ItemScript(s, Precheck(t, q), prior); var r := Do(s, m.Steps()[..n]);
            Tracked(t, n0, r, q, true) && (n == |m.Steps()| && m.out.Done? ==> Delivered(t, n0, r, q, Executed))
  {
    var m := ItemScript(s, Precheck(t, q), prior);
    PrivateNames(s.clock, s.clock);
    ItemShape(s, Precheck(t, q), prior);
    if n <= |m.prep| || |m.act| < 2 {
      EarlyCutKeeps(s, Precheck(t, q), prior, n, q.from);
    } else {
      LateCutDelivers(t, n0, q, s, prior, n);
    }
  }

  lemma LateCutDelivers(t: Tree, n0: nat, q: Proposal, s: State, prior: seq<Entry>, n: nat)
    requires WellFormed(s.tree) && n0 <= s.clock && ReadySource(t, q) && Still(t, s.tree, q) && !LeftBy(q.from, s.clock)
    requires var m := ItemScript(s, Precheck(t, q), prior); |m.act| == 2 && |m.prep| < n <= |m.Steps()|
    ensures var m := ItemScript(s, Precheck(t, q), prior); var r := Do(s, m.Steps()[..n]);
            Delivered(t, n0, r, q, Planned) && (n == |m.Steps()| ==> Delivered(t, n0, r, q, Executed))
  {
    var m := ItemScript(s, Precheck(t, q), prior);
    var place := if q.action.Move? then q.to else Payload(s.clock);
    var planned, executed := Entry(s.clock, Planned, q.action, q.from, place), Entry(s.clock, Executed, q.action, q.from, place);
    var r := Do(s, m.Steps()[..n]);
    RowsOfMove(t, q, s, prior);
    FileArrives(t, q, s, prior, n, place);
    RowComes(s, m, n, planned, |m.prep|);
    assert Enacts(planned, q, Planned, n0);
    if n == |m.Steps()| {
      RowComes(s, m, n, executed, n);
      assert Enacts(executed, q, Executed, n0);
    }
  }

  lemma RowComes(s: State, m: Script, n: nat, e: Entry, k: nat)
    requires k <= n <= |m.Steps()| && (if k <= |m.prep| then Row(e) in m.prep[..k] else k == |m.Steps()| && |m.act| == 2 && m.act[1] == Row(e))
    ensures e in Do(s, m.Steps()[..n]).journal
  {
    var steps := m.Steps()[..n];
    if k <= |m.prep| {
      var i :| 0 <= i < k && m.prep[i] == Row(e);
      assert steps[i] == Row(e);
    } else {
      assert steps[|m.prep| + 1] == Row(e);
    }
    RowIsAppended(s, steps, e);
  }

  lemma FileArrives(t: Tree, q: Proposal, s: State, prior: seq<Entry>, n: nat, place: Path)
    requires WellFormed(s.tree) && Still(t, s.tree, q) && !LeftBy(q.from, s.clock)
    requires var m := ItemScript(s, Precheck(t, q), prior);
             |m.act| == 2 && |m.prep| < n <= |m.Steps()| && m.act[0] == Sys(Rename(q.from, place))
    ensures var u := Do(s, ItemScript(s, Precheck(t, q), prior).Steps()[..n]).tree; place in u && u[place] == t[q.from]
  {
    var b := BeforeEffect(s, Precheck(t, q), prior, q.from);
    MovedBack(b.tree, q.from, place, q.from);
    assert place + q.from[|q.from|..] == place;
  }

  /** One item of the batch, cut or not. */
  lemma ItemKeepsStanding(t: Tree, n0: nat, ps: seq<Proposal>, i: nat, s: State, prior: seq<Entry>, n: nat)
    requires i < |ps| && PathsApart(t, ps) && UserBatch(ps) && Standing(t, n0, ps, i, s)
    requires n <= |ItemScript(s, Precheck(t, ps[i]), prior).Steps()|
    ensures Standing(t, n0, ps, i + 1, Do(s, ItemScript(s, Precheck(t, ps[i]), prior).Steps()[..n]))
  {
    var steps := ItemScript(s, Precheck(t, ps[i]), prior).Steps();
    var r := Do(s, steps[..n]);
    ScriptKeepsWellFormed(s, Item(Precheck(t, ps[i]), prior), n);
    DoClock(s, steps[..n]);
    assert UserPaths(ps[i].action, ps[i].from, ps[i].to);
    forall k | 0 <= k < |ps| && ReadySource(t, ps[k])
      ensures Tracked(t, n0, r, ps[k], k < i + 1)
    {
      if k == i {
        ItemDelivers(t, n0, ps[i], s, prior, n);
      } else {
        OtherStaysTracked(t, n0, ps, i, k, s, prior, n, k < i);
      }
    }
  }

  lemma StandingIsCarried(t: Tree, n0: nat, ps: seq<Proposal>, prior: seq<Entry>)
    requires PathsApart(t, ps) && UserBatch(ps)
    ensures Carried(Checks(t, ps), prior, (i: nat, r: State) => Standing(t, n0, ps, i, r))
  {
    forall i: nat, r: State, n: nat | i < |ps| && Standing(t, n0, ps, i, r) && n <= |ItemScript(r, Precheck(t, ps[i]), prior).Steps()|
      ensures Standing(t, n0, ps, i + 1, Do(r, ItemScript(r, Precheck(t, ps[i]), prior).Steps()[..n]))
    {
      ItemKeepsStanding(t, n0, ps, i, r, prior, n);
    }
  }

  /** Item k has been run in full, and has delivered. */
  ghost predicate Settled(t: Tree, n0: nat, ps: seq<Proposal>, k: nat, i: nat, r: State)
    requires k < |ps|
  {
    Standing(t, n0, ps, i, r) && k < i && Delivered(t, n0, r, ps[k], Executed)
  }

  lemma SettledIsCarried(t: Tree, n0: nat, ps: seq<Proposal>, prior: seq<Entry>, k: nat)
    requires PathsApart(t, ps) && UserBatch(ps) && k < |ps| && ReadySource(t, ps[k])
    ensures Carried(Checks(t, ps), prior, (i: nat, r: State) => Settled(t, n0, ps, k, i, r))
  {
    forall i: nat, r: State, n: nat | i < |ps| && Settled(t, n0, ps, k, i, r) && n <= |ItemScript(r, Precheck(t, ps[i]), prior).Steps()|
      ensures Settled(t, n0, ps, k, i + 1, Do(r, ItemScript(r, Precheck(t, ps[i]), prior).Steps()[..n]))
    {
      ItemKeepsStanding(t, n0, ps, i, r, prior, n);
      assert ReadySource(t, ps[i]) ==> Tracked(t, n0, r, ps[i], i < i);
      OtherStaysDelivered(t, n0, ps, i, k, r, prior, n, Executed);
    }
  }

  /**
   All prechecks run before the first effect, and still: when ready proposals have no path in common,
   every ready file passed the check of its proposal (size, time, and identity if recorded), and wherever
   the run stopped that very file is in its place or lies where a row of its own operation says. A
   reported success has an executed row.
   */
  lemma MovedFilesAreTheApprovedOnes(s: State, ps: seq<Proposal>, fuel: nat, k: nat)
    requires WellFormed(s.tree) && UserBatch(ps) && PathsApart(s.tree, ps) && k < |ps| && ReadySource(s.tree, ps[k])
    ensures var r := RunCommand(s, Execute(ps), fuel);
            SameSource(s.tree, ps[k].from, ps[k])
            && (Still(s.tree, r.s.tree, ps[k]) || Delivered(s.tree, s.clock, r.s, ps[k], Planned))
            && (k < |r.outs| && r.outs[k].Done? ==> Delivered(s.tree, s.clock, r.s, ps[k], Executed))
  {
    var t, n0, all, jobs := s.tree, s.clock, Checks(s.tree, ps), JobsOf(s, Execute(ps));
    var standing := (i: nat, r: State) => Standing(t, n0, ps, i, r);
    forall i | 0 <= i < |ps| && ReadySource(t, ps[i])
      ensures Still(t, t, ps[i])
    {
      ReadyMeans(t, ps[i]);
    }
    StandingIsCarried(t, n0, ps, s.journal);
    var x := BatchPreserves(s, jobs, all, 0, s.journal, fuel, standing);
    assert Tracked(t, n0, RunCommand(s, Execute(ps), fuel).s, ps[k], k < x);
    if k < |RunCommand(s, Execute(ps), fuel).outs| && RunCommand(s, Execute(ps), fuel).outs[k].Done? {
      SuccessIsDelivery(s, ps, fuel, k);
    }
  }

  lemma SuccessIsDelivery(s: State, ps: seq<Proposal>, fuel: nat, k: nat)
    requires WellFormed(s.tree) && UserBatch(ps) && PathsApart(s.tree, ps) && k < |ps| && ReadySource(s.tree, ps[k])
    requires Standing(s.tree, s.clock, ps, 0, s)
    requires var r := RunCommand(s, Execute(ps), fuel); k < |r.outs| && r.outs[k].Done?
    ensures Delivered(s.tree, s.clock, RunCommand(s, Execute(ps), fuel).s, ps[k], Executed)
  {
    var t, n0, all, jobs := s.tree, s.clock, Checks(s.tree, ps), JobsOf(s, Execute(ps));
    var standing := (i: nat, r: State) => Standing(t, n0, ps, i, r);
    StandingIsCarried(t, n0, ps, s.journal);
    var r, rest, f := BatchReaches(s, jobs, all, 0, s.journal, fuel, standing, k);
    var m := ItemScript(r, all[k], s.journal);
    assert m.Steps()[..|m.Steps()|] == m.Steps();
    assert Tracked(t, n0, r, ps[k], k < k) && UserPaths(ps[k].action, ps[k].from, ps[k].to);
    ItemDelivers(t, n0, ps[k], r, s.journal, |m.Steps()|);
    ItemKeepsStanding(t, n0, ps, k, r, s.journal, |m.Steps()|);
    SettledIsCarried(t, n0, ps, s.journal, k);
    var settled := (i: nat, r: State) => Settled(t, n0, ps, k, i, r);
    var x := BatchPreserves(Do(r, m.Steps()), rest, all, k + 1, s.journal, f, settled);
  }
}
