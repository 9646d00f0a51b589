/** Undo inverts execute. */
module UndoInverts {
  import opened FileSystem
  import opened Journal
  import opened Scripts
  import opened Steps
  import opened UndoTheory
  import opened UndoRun
  import opened ExecutePast
  import opened Wrappers

  // ----- A batch becomes a past

  /** The past h has led to state s. */
  ghost predicate Story(h: Past, s: State) {
    h.Valid() && Untouched(h, s) && h.n1 == s.clock && NoFuture(s.tree, s.clock)
  }

  lemma EmptyStory(strict: bool, s: State) returns (h: Past)
    requires WellFormed(s.tree) && s.journal == [] && NoFuture(s.tree, s.clock)
    ensures h == Past(strict, s.tree, s.clock, [], s.tree, s.clock) && Story(h, s)
  {
    h := Past(strict, s.tree, s.clock, [], s.tree, s.clock);
    assert h.Linked(0);
  }

  lemma {:induction false} MatchesPlanned(rows: seq<Entry>, later: seq<Entry>, deeds: seq<Deed>)
    requires Matches(rows, deeds) && rows <= later
    requires forall i :: |rows| <= i < |later| ==> later[i].status.Planned?
    ensures Matches(later, deeds)
    decreases |later|
  {
    if later != rows {
      assert rows <= later[..|later| - 1];
      MatchesPlanned(rows, later[..|later| - 1], deeds);
    }
  }

  /** Nothing is undone by rows that are planned or executed. */
  lemma NoneUndone(rows: seq<Entry>, later: seq<Entry>)
    requires UndoneIds(rows) == {} && rows <= later
    requires forall i :: |rows| <= i < |later| ==> later[i].status.Planned? || later[i].status.Executed?
    ensures UndoneIds(later) == {}
  {
  }

  lemma ExtendGrowth(h: Past, s: State, r: State) returns (g: Past)
    requires Story(h, s) && ItemResult(h.strict, s, r, None)
    ensures Story(g, r) && g == h.(t1 := r.tree, n1 := r.clock)
  {
    g := h.(t1 := r.tree, n1 := r.clock);
    var k := |h.deeds|;
    assert h.Linked(k);
    GrownTransitive(h.PostTree(k), h.PostId(k), s.tree, s.clock, r.tree);
    forall j | 0 <= j <= |g.deeds|
      ensures g.Linked(j)
    {
      assert h.Linked(j);
    }
    MatchesPlanned(s.journal, r.journal, h.deeds);
    NoneUndone(s.journal, r.journal);
  }

  lemma ExtendDeed(h: Past, s: State, r: State, d: Deed) returns (g: Past)
    requires Story(h, s) && ItemResult(h.strict, s, r, Some(d))
    ensures Story(g, r) && g == h.(deeds := h.deeds + [d], t1 := r.tree, n1 := r.clock)
  {
    g := h.(deeds := h.deeds + [d], t1 := r.tree, n1 := r.clock);
    var k := |h.deeds|;
    assert h.Linked(k);
    GrownTransitive(h.PostTree(k), h.PostId(k), s.tree, s.clock, d.pre);
    forall j | 0 <= j <= |g.deeds|
      ensures g.Linked(j)
    {
      if j <= k {
        assert h.Linked(j);
      }
    }
    var planned := r.journal[..|s.journal| + 1];
    MatchesPlanned(s.journal, planned, h.deeds);
    assert r.journal[..|r.journal| - 1] == planned;
    assert g.deeds[..k] == h.deeds;
    NoneUndone(s.journal, r.journal);
  }

  /** A Move or Trash that passed its precheck. */
  predicate ReadyMove(c: Check) {
    c.status.Ready? && Moves(c)
  }

  /**
   The shape of batch under which sources stay movable. Either the sources of ready moves are
   distinct, or none of them is a proper ancestor of a destination or the target of a new directory.
   */
  ghost predicate Fits(distinct: bool, all: seq<Check>) {
    if distinct then forall i, k :: 0 <= i < k < |all| && ReadyMove(all[i]) && ReadyMove(all[k]) ==> all[i].from != all[k].from
    else forall i, k :: 0 <= i < |all| && 0 <= k < |all| && i != k && ReadyMove(all[i]) && all[k].status.Ready? ==>
      (all[k].action.Move? ==> !(all[i].from < all[k].to)) && (all[k].action.CreateDir? ==> all[i].from != all[k].to)
  }

  /** Sources in the tree when item i is about to run. */
  ghost predicate Ahead(distinct: bool, all: seq<Check>, i: nat, t: Tree) {
    if distinct then forall k :: i <= k < |all| && ReadyMove(all[k]) ==> IsFile(t, all[k].from)
    else forall k :: 0 <= k < |all| && ReadyMove(all[k]) ==> !IsDir(t, all[k].from)
  }

  ghost predicate UserChecks(strict: bool, all: seq<Check>) {
    forall k :: 0 <= k < |all| ==>
      UserPaths(all[k].action, all[k].from, all[k].to) && (strict && all[k].status.Ready? ==> !all[k].action.ReadmeWrite?)
  }

  lemma AheadStays(distinct: bool, all: seq<Check>, i: nat, t: Tree, u: Tree)
    requires Fits(distinct, all) && UserChecks(false, all) && i < |all| && Ahead(distinct, all, i, t)
    requires all[i].status.Ready? && Footprint(t, all[i], u)
    ensures Ahead(distinct, all, i + 1, u)
  {
    if distinct {
      forall k | i + 1 <= k < |all| && ReadyMove(all[k])
        ensures IsFile(u, all[k].from)
      {
        assert IsFile(t, all[k].from);
      }
    } else {
      forall k | 0 <= k < |all| && ReadyMove(all[k])
        ensures !IsDir(u, all[k].from)
      {
        assert !IsDir(t, all[k].from) && !Internal(all[k].from);
      }
    }
  }

  /** Every deed comes from an item before i; in a distinct batch no two moves share a source. */
  ghost predicate FromItems(distinct: bool, deeds: seq<Deed>, all: seq<Check>, i: nat)
    requires i <= |all|
  {
    (forall j :: 0 <= j < |deeds| ==> Origin(deeds[j].entry, all, i))
    && (distinct ==> forall j, l :: 0 <= j < l < |deeds| && MoveLike(deeds[j].entry) && MoveLike(deeds[l].entry) ==>
                       deeds[j].entry.from != deeds[l].entry.from)
  }

  ghost predicate Origin(e: Entry, all: seq<Check>, i: nat)
    requires i <= |all|
  {
    exists k :: 0 <= k < i && all[k].status.Ready? && Yields(all[k], e)
  }

  lemma OriginLater(e: Entry, all: seq<Check>, i: nat, k: nat)
    requires i <= k <= |all| && Origin(e, all, i)
    ensures Origin(e, all, k)
  {
    var x :| 0 <= x < i && all[x].status.Ready? && Yields(all[x], e);
  }

  lemma FromItemsLater(distinct: bool, deeds: seq<Deed>, all: seq<Check>, i: nat, k: nat)
    requires i <= k <= |all| && FromItems(distinct, deeds, all, i)
    ensures FromItems(distinct, deeds, all, k)
  {
    forall j | 0 <= j < |deeds|
      ensures Origin(deeds[j].entry, all, k)
    {
      OriginLater(deeds[j].entry, all, i, k);
    }
  }

  lemma FromItemsNext(distinct: bool, deeds: seq<Deed>, all: seq<Check>, i: nat, d: Deed)
    requires i < |all| && Fits(distinct, all) && FromItems(distinct, deeds, all, i) && all[i].status.Ready? && Yields(all[i], d.entry)
    ensures FromItems(distinct, deeds + [d], all, i + 1)
  {
    var more := deeds + [d];
    FromItemsLater(distinct, deeds, all, i, i + 1);
    assert Origin(d.entry, all, i + 1);
    forall j | 0 <= j < |more|
      ensures Origin(more[j].entry, all, i + 1)
    {
      if j < |deeds| {
        assert more[j] == deeds[j];
      }
    }
    forall j, l | 0 <= j < l < |more| && distinct && MoveLike(more[j].entry) && MoveLike(more[l].entry)
      ensures more[j].entry.from != more[l].entry.from
    {
      if l == |deeds| {
        assert Origin(deeds[j].entry, all, i);
        var k :| 0 <= k < i && all[k].status.Ready? && Yields(all[k], deeds[j].entry);
        assert ReadyMove(all[k]) && ReadyMove(all[i]);
      }
    }
  }

  /** The loop of a batch on an empty journal, from item i on. */
  lemma {:induction false} BatchIsPast(distinct: bool, h: Past, s: State, all: seq<Check>, i: nat, jobs: seq<Job>, fuel: nat) returns (g: Past)
    requires ItemsFrom(jobs, all, i, [])
    requires Story(h, s) && Fits(distinct, all) && UserChecks(h.strict, all) && Ahead(distinct, all, i, s.tree)
    requires FromItems(distinct, h.deeds, all, i)
    ensures var r := RunJobs(s, jobs, fuel);
            !r.end.Crashed? ==>
              Story(g, r.s) && g.strict == h.strict && g.t0 == h.t0 && g.n0 == h.n0
              && FromItems(distinct, g.deeds, all, |all|) && (!distinct ==> Ahead(distinct, all, 0, r.s.tree))
    decreases |jobs|
  {
    g := h;
    if jobs != [] {
      ItemsTail(jobs, all, i, []);
      var script := ItemScript(s, all[i], []);
      RunTurn(s, jobs, fuel);
      if fuel >= |script.Steps()| {
        g := ItemExtends(distinct, h, s, all, i);
        if script.out.Failed? {
          FromItemsLater(distinct, g.deeds, all, i + 1, |all|);
        } else {
          g := BatchIsPast(distinct, g, Do(s, script.Steps()), all, i + 1, jobs[1..], fuel - |script.Steps()|);
        }
      }
    }
  }

  lemma ItemExtends(distinct: bool, h: Past, s: State, all: seq<Check>, i: nat) returns (g: Past)
    requires i < |all| && Story(h, s) && Fits(distinct, all) && UserChecks(h.strict, all) && Ahead(distinct, all, i, s.tree)
    requires FromItems(distinct, h.deeds, all, i)
    ensures var r := Do(s, ItemScript(s, all[i], []).Steps());
            Story(g, r) && g.strict == h.strict && g.t0 == h.t0 && g.n0 == h.n0
            && Ahead(distinct, all, i + 1, r.tree) && FromItems(distinct, g.deeds, all, i + 1)
  {
    var c := all[i];
    var r := Do(s, ItemScript(s, c, []).Steps());
    assert ReadyMove(c) ==> !IsDir(s.tree, c.from);
    var deed := ItemIsDeed(h.strict, s, c);
    if c.status.Ready? {
      AheadStays(distinct, all, i, s.tree, r.tree);
    }
    match deed {
      case None =>
        g := ExtendGrowth(h, s, r);
        FromItemsLater(distinct, h.deeds, all, i, i + 1);
      case Some(d) =>
        g := ExtendDeed(h, s, r, d);
        FromItemsNext(distinct, h.deeds, all, i, d);
    }
  }

  // ----- Batches of proposals

  /** A tree with an empty journal; private names of this or later operations are not taken. */
  ghost predicate Start(s: State) {
    WellFormed(s.tree) && s.journal == [] && NoFuture(s.tree, s.clock)
  }

  predicate ReadySource(t: Tree, q: Proposal) {
    IsReady(t, q) && (q.action.Move? || q.action.Trash?)
  }

  /** Proposals name user paths only. */
  predicate UserBatch(ps: seq<Proposal>) {
    forall i :: 0 <= i < |ps| ==> UserPaths(ps[i].action, ps[i].from, ps[i].to)
  }

  /** No source that is ready to be moved lies properly above another item's destination. */
  predicate NoNesting(t: Tree, ps: seq<Proposal>) {
    forall i, k :: 0 <= i < |ps| && 0 <= k < |ps| && i != k && ReadySource(t, ps[i]) && IsReady(t, ps[k]) && ps[k].action.Move? ==>
      !Above(ps[i].from, ps[k].to)
  }

  predicate DistinctSources(t: Tree, ps: seq<Proposal>) {
    forall i, k :: 0 <= i < k < |ps| && ReadySource(t, ps[i]) && ReadySource(t, ps[k]) ==> ps[i].from != ps[k].from
  }

  /** Modification times survive unless README.md is written. */
  predicate KeepsTimes(t: Tree, ps: seq<Proposal>) {
    forall i :: 0 <= i < |ps| && IsReady(t, ps[i]) ==> !ps[i].action.ReadmeWrite?
  }

  lemma ReadyMeans(t: Tree, q: Proposal)
    requires IsReady(t, q)
    ensures q.action.Move? || q.action.Trash? ==> IsFile(t, q.from) && !Unsafe(q.from)
    ensures q.action.CreateDir? ==> q.to !in t
  {
  }

  lemma BatchFits(distinct: bool, t: Tree, ps: seq<Proposal>)
    requires UserBatch(ps) && if distinct then DistinctSources(t, ps) else NoNesting(t, ps)
    ensures Fits(distinct, Checks(t, ps)) && UserChecks(KeepsTimes(t, ps), Checks(t, ps)) && Ahead(distinct, Checks(t, ps), 0, t)
  {
    var all := Checks(t, ps);
    forall k | 0 <= k < |all| && ReadyMove(all[k])
      ensures IsFile(t, all[k].from)
    {
      ReadyMeans(t, ps[k]);
    }
    if !distinct {
      forall i, k | 0 <= i < |all| && 0 <= k < |all| && i != k && ReadyMove(all[i]) && all[k].status.Ready?
        ensures all[k].action.Move? ==> !(all[i].from < all[k].to)
        ensures all[k].action.CreateDir? ==> all[i].from != all[k].to
      {
        assert ReadySource(t, ps[i]) && IsReady(t, ps[k]);
        ReadyMeans(t, ps[k]);
        if all[k].action.Move? { assert !Above(ps[i].from, ps[k].to); }
      }
    }
  }

  /** A batch that was not cut off has a past, made of ready items. */
  lemma ExecutePastOf(distinct: bool, s: State, ps: seq<Proposal>, fuel: nat) returns (h: Past)
    requires Start(s) && UserBatch(ps) && if distinct then DistinctSources(s.tree, ps) else NoNesting(s.tree, ps)
    requires !RunCommand(s, Execute(ps), fuel).end.Crashed?
    ensures var r := RunCommand(s, Execute(ps), fuel);
            Story(h, r.s) && h.strict == KeepsTimes(s.tree, ps) && h.t0 == s.tree
            && FromItems(distinct, h.deeds, Checks(s.tree, ps), |ps|) && (!distinct ==> Ahead(distinct, Checks(s.tree, ps), 0, r.s.tree))
  {
    var all := Checks(s.tree, ps);
    BatchFits(distinct, s.tree, ps);
    h := EmptyStory(KeepsTimes(s.tree, ps), s);
    h := BatchIsPast(distinct, h, s, all, 0, ItemJobs(s.tree, ps, s.journal), fuel);
  }

  /**
   Undo inverts execute. A batch runs on an empty journal, to its end or to a hard error; then undo
   runs, cut short any number of times. When undo gets to its end it has restored exactly the user
   files, no directory is missing, every operation has an Undone row but for created directories that
   are still there because they are not empty, and another undo changes nothing at all.
   */
  lemma UndoInvertsExecute(s: State, ps: seq<Proposal>, fuel: nat, fuels: seq<nat>, last: nat, again: nat)
    requires Start(s) && UserBatch(ps) && NoNesting(s.tree, ps)
    requires !RunCommand(s, Execute(ps), fuel).end.Crashed?
    ensures var done := RunCommand(s, Execute(ps), fuel).s;
            var r := RunCommand(UndoAgain(done, fuels), Undo(None), last);
            !r.end.Stopped?
            && (r.end.Finished? ==>
                SameUserFiles(KeepsTimes(s.tree, ps), s.tree, r.s.tree)
                && (forall p :: IsDir(s.tree, p) ==> IsDir(r.s.tree, p))
                && (forall e :: e in done.journal && e.status.Executed? ==> Reverted(e, r.s))
                && RunCommand(r.s, Undo(None), again).s == r.s)
  {
    var h := ExecutePastOf(false, s, ps, fuel);
    var done := RunCommand(s, Execute(ps), fuel).s;
    StaticallyClear(h, s.tree, ps, done);
    UndoConverges(h, done, fuels, last);
    UndoOnceMore(h, done, fuels, last, again);
    var r := RunCommand(UndoAgain(done, fuels), Undo(None), last);
    if r.end.Finished? {
      forall e | e in done.journal && e.status.Executed?
        ensures Reverted(e, r.s)
      {
        var j := ExecutedIsDeed(done.journal, h.deeds, e);
      }
    }
  }

  lemma StaticallyClear(h: Past, t: Tree, ps: seq<Proposal>, done: State)
    requires Story(h, done) && FromItems(false, h.deeds, Checks(t, ps), |ps|) && Ahead(false, Checks(t, ps), 0, done.tree)
    ensures h.Clear()
  {
    var all := Checks(t, ps);
    forall j | 0 <= j < |h.deeds| && MoveLike(h.deeds[j].entry)
      ensures !IsDir(h.t1, h.deeds[j].entry.from)
    {
      assert Origin(h.deeds[j].entry, all, |ps|);
      var k :| 0 <= k < |ps| && all[k].status.Ready? && Yields(all[k], h.deeds[j].entry);
      assert ReadyMove(all[k]);
    }
  }

  lemma {:induction false} DeedIsExecuted(rows: seq<Entry>, deeds: seq<Deed>, j: nat)
    requires Matches(rows, deeds) && j < |deeds|
    ensures deeds[j].entry in rows && deeds[j].entry.status.Executed?
    decreases |rows|
  {
    var last, rest := rows[|rows| - 1], rows[..|rows| - 1];
    if !last.status.Executed? {
      DeedIsExecuted(rest, deeds, j);
    } else if j < |deeds| - 1 {
      DeedIsExecuted(rest, deeds[..|deeds| - 1], j);
    }
  }

  // ----- When undo cannot restore

  /** The past of a batch with distinct sources: the files moved and the places made are from t0. */
  ghost predicate FromStart(h: Past) {
    h.Valid()
    && (forall j :: 0 <= j < |h.deeds| && MoveLike(h.deeds[j].entry) ==> IsFile(h.t0, h.deeds[j].entry.from))
    && (forall j :: 0 <= j < |h.deeds| && h.deeds[j].entry.action.CreateDir? ==> h.deeds[j].entry.to !in h.t0)
    && (forall j, l :: 0 <= j < l < |h.deeds| && MoveLike(h.deeds[j].entry) && MoveLike(h.deeds[l].entry) ==>
          h.deeds[j].entry.from != h.deeds[l].entry.from)
  }

  lemma BatchFromStart(h: Past, t: Tree, ps: seq<Proposal>)
    requires h.Valid() && h.t0 == t && FromItems(true, h.deeds, Checks(t, ps), |ps|)
    ensures FromStart(h)
  {
    var all := Checks(t, ps);
    forall j | 0 <= j < |h.deeds|
      ensures MoveLike(h.deeds[j].entry) ==> IsFile(t, h.deeds[j].entry.from)
      ensures h.deeds[j].entry.action.CreateDir? ==> h.deeds[j].entry.to !in t
    {
      assert Origin(h.deeds[j].entry, all, |ps|);
      var k :| 0 <= k < |ps| && all[k].status.Ready? && Yields(all[k], h.deeds[j].entry);
      ReadyMeans(t, ps[k]);
    }
  }

  /** Where a deed put a file there is no directory at the end. */
  lemma TargetsStayFree(h: Past, j: nat)
    requires FromStart(h) && j < |h.deeds| && !h.deeds[j].entry.action.CreateDir?
    requires !h.deeds[j].entry.action.ReadmeWrite?
    ensures !IsDir(h.t1, h.deeds[j].entry.to)
  {
    var p := h.deeds[j].entry.to;
    assert DeedOk(h.strict, h.deeds[j]);
    FilesStay(h, j + 1, |h.deeds|, p);
    if IsDir(h.t1, p) {
      var i :| j + 1 <= i < |h.deeds| && MoveLike(h.deeds[i].entry) && h.deeds[i].entry.from == p;
      FilesStay(h, 0, j, p);
    }
  }

  /** Undo keeps the directory f and touches no directory of the original tree. */
  ghost predicate Stuck(h: Past, f: Path, u: Tree) {
    WellFormed(u) && IsDir(u, f)
    && (forall p :: IsDir(u, p) ==> p in Dirs(h.t1))
    && (forall p :: IsDir(h.t0, p) ==> IsDir(u, p))
  }

  lemma StuckMove(h: Past, f: Path, j: nat, s: State)
    requires FromStart(h) && j < |h.deeds| && MoveLike(h.deeds[j].entry) && Stuck(h, f, s.tree) && WellFormed(h.t0)
    ensures var m := UndoMove(s, h.deeds[j].entry);
            OneShot(h.deeds[j].entry, m) && Stuck(h, f, FullTree(s, m))
  {
    var e, u := h.deeds[j].entry, s.tree;
    assert DeedOk(h.strict, h.deeds[j]);
    assert IsDir(h.t0, Parent(e.from));
    UndoMoveIsOneShot(s, e);
    TargetsStayFree(h, j);
    if |UndoMove(s, e).act| == 2 {
      assert IsDir(u, e.to) ==> e.to in Dirs(h.t1);
      Relocation(u, e.to, e.from);
      StuckRelocated(h, f, u, e.to, e.from);
    }
  }

  /** Moving a file disturbs no directory. */
  lemma StuckRelocated(h: Past, f: Path, u: Tree, a: Path, b: Path)
    requires Stuck(h, f, u) && IsFile(u, a) && Placeable(u, b) && WellFormed((u - {a})[b := u[a]])
    ensures Stuck(h, f, (u - {a})[b := u[a]])
  {
  }

  lemma StuckTurn(h: Past, f: Path, j: nat, s: State, undone: set<nat>, n: nat)
    requires FromStart(h) && j < |h.deeds| && Stuck(h, f, s.tree) && WellFormed(h.t0) && IsFile(h.t0, f)
    requires n <= |UndoScript(s, h.deeds[j].entry, undone, None).Steps()|
    ensures Stuck(h, f, Do(s, UndoScript(s, h.deeds[j].entry, undone, None).Steps()[..n]).tree)
  {
    var e, m := h.deeds[j].entry, UndoScript(s, h.deeds[j].entry, undone, None);
    assert DeedOk(h.strict, h.deeds[j]);
    if m.Steps() == [] {
      assert Do(s, []) == s;
    } else {
      if MoveLike(e) {
        StuckMove(h, f, j, s);
      } else {
        ScriptSucceeds(s, Reverse(e, undone, None));
        StuckOther(h, f, j, s);
      }
      OneShotCut(s, e, m, n);
    }
  }

  lemma StuckOther(h: Past, f: Path, j: nat, s: State)
    requires FromStart(h) && j < |h.deeds| && !MoveLike(h.deeds[j].entry) && Stuck(h, f, s.tree) && IsFile(h.t0, f)
    ensures var m := UndoScript(s, h.deeds[j].entry, {}, None);
            OneShot(h.deeds[j].entry, m) && Stuck(h, f, FullTree(s, m))
  {
    var e := h.deeds[j].entry;
    assert DeedOk(h.strict, h.deeds[j]);
    var m := UndoScript(s, e, {}, None);
    assert Parent(README) == [];
    if |m.act| == 2 {
      EffectKeepsWellFormed(s.tree, m.act[0].call, s.clock + |m.prep|);
    }
  }

  lemma UndoStaysStuck(h: Past, f: Path, s: State, fuel: nat)
    requires FromStart(h) && Untouched(h, s) && WellFormed(h.t0) && IsFile(h.t0, f) && IsDir(h.t1, f)
    ensures IsDir(RunCommand(s, Undo(None), fuel).s.tree, f)
  {
    var undone := UndoneIds(s.journal);
    var jobs := UndoJobs(s.journal, undone, None);
    forall p | IsDir(h.t0, p)
      ensures IsDir(h.t1, p)
    {
      assert h.Linked(0);
      DirsStay(h, 0, |h.deeds|, p);
    }
    forall r: State, job: Job, n: nat | Stuck(h, f, r.tree) && job in jobs && n <= |ScriptOf(r, job).Steps()|
      ensures Stuck(h, f, Do(r, ScriptOf(r, job).Steps()[..n]).tree)
    {
      var i :| 0 <= i < |jobs| && jobs[i] == job;
      var e := s.journal[|s.journal| - 1 - i];
      assert job == Reverse(e, undone, None) && e in s.journal;
      if e.status.Executed? {
        var j := ExecutedIsDeed(s.journal, h.deeds, e);
        StuckTurn(h, f, j, r, undone, n);
      } else {
        assert ScriptOf(r, job).Steps()[..n] == [];
        assert Do(r, []) == r;
      }
    }
    RunPreserves(s, jobs, fuel, (r: State) => Stuck(h, f, r.tree));
  }

  /**
   For a batch with distinct sources, undo gets to its end with all user files restored exactly when
   no source of an executed move has turned into a directory by the time undo starts.
   */
  lemma UndoRestoresIffUnblocked(s: State, ps: seq<Proposal>, fuel: nat, last: nat)
    requires Start(s) && UserBatch(ps) && DistinctSources(s.tree, ps)
    requires !RunCommand(s, Execute(ps), fuel).end.Crashed?
    requires !RunCommand(RunCommand(s, Execute(ps), fuel).s, Undo(None), last).end.Crashed?
    ensures var done := RunCommand(s, Execute(ps), fuel).s;
            var r := RunCommand(done, Undo(None), last);
            r.end.Finished? && SameUserFiles(KeepsTimes(s.tree, ps), s.tree, r.s.tree)
            <==> forall e :: e in done.journal && e.status.Executed? && MoveLike(e) ==> !IsDir(done.tree, e.from)
  {
    var h := ExecutePastOf(true, s, ps, fuel);
    var done := RunCommand(s, Execute(ps), fuel).s;
    var r := RunCommand(done, Undo(None), last);
    BatchFromStart(h, s.tree, ps);
    if e :| e in done.journal && e.status.Executed? && MoveLike(e) && IsDir(done.tree, e.from) {
      var j := ExecutedIsDeed(done.journal, h.deeds, e);
      assert DeedOk(h.strict, h.deeds[j]);
      UndoStaysStuck(h, e.from, done, last);
      assert !Internal(e.from) && IsFile(s.tree, e.from) && !IsFile(r.s.tree, e.from);
    } else {
      forall j | 0 <= j < |h.deeds| && MoveLike(h.deeds[j].entry)
        ensures !IsDir(h.t1, h.deeds[j].entry.from)
      {
        DeedIsExecuted(done.journal, h.deeds, j);
      }
      UndoConverges(h, done, [], last);
    }
  }
}
