/** Executing a batch, seen as a past. */
module ExecutePast {
  import opened FileSystem
  import opened Journal
  import opened Scripts
  import opened Steps
  import opened JournalRows
  import opened UndoTheory
  import opened UndoRun
  import opened Wrappers

  /** Ids are fresh: the tree holds no private file of this or a later operation. */
  ghost predicate NoFuture(t: Tree, n: nat) {
    forall p :: p in t ==> !LeftFrom(p, n)
  }

  predicate Moves(c: Check) {
    c.action.Move? || c.action.Trash?
  }

  /** The paths a check may touch are user paths. */
  predicate UserPaths(action: Action, from: Path, to: Path) {
    (action.Move? || action.Trash? ==> !Internal(from)) && (!action.Trash? ==> !Internal(to))
  }

  /** The executed row is the one this check asks for. */
  predicate Yields(c: Check, e: Entry) {
    e.action == c.action && (MoveLike(e) ==> e.from == c.from)
    && (e.action.Move? || e.action.CreateDir? || e.action.CreateFile? ==> e.to == c.to)
  }

  // ----- Growth

  lemma AddDirsGrow(t: Tree, n: nat, p: Path)
    requires Internal(p) ==> |p| <= 2
    ensures Grown(t, n, AddDirs(t, p))
  {
    AddDirsAdds(t, p);
    forall q | q in AddDirs(t, p) && q !in t
      ensures DirPath(q)
    {
      assert q <= p && q != [];
      assert q[0] == p[0];
    }
  }

  lemma AddLeftFile(t: Tree, n: nat, u: Tree, p: Path, f: Node)
    requires Grown(t, n, u) && f.File? && p !in u && LeftBy(p, n)
    ensures Grown(t, n, u[p := f])
  {
    assert LeftFrom(p, n);
  }

  lemma NotLeftLater(p: Path, n: nat, m: nat)
    requires n < m && (DirPath(p) || LeftBy(p, n) || p == Payload(n))
    ensures !LeftFrom(p, m)
  {
    forall k: nat | k >= m
      ensures !LeftBy(p, k)
    {
      PrivateNames(k, k);
      PrivateNames(n, k);
    }
  }

  lemma NoFutureGrown(t: Tree, n: nat, u: Tree, m: nat)
    requires NoFuture(t, n) && n < m
    requires forall p :: p in u && p !in t ==> DirPath(p) || LeftBy(p, n) || p == Payload(n)
    ensures NoFuture(u, m)
  {
    forall p | p in u
      ensures !LeftFrom(p, m)
    {
      if p in t {
        assert !LeftFrom(p, n);
      } else {
        NotLeftLater(p, n, m);
      }
    }
  }

  // ----- One item

  /** What one item did: nothing but growth, or one deed. */
  ghost predicate ItemResult(strict: bool, s: State, r: State, deed: Option<Deed>) {
    WellFormed(r.tree) && s.clock <= r.clock && NoFuture(r.tree, r.clock)
    && match deed
       case None =>
         Grown(s.tree, s.clock, r.tree) && s.journal <= r.journal
         && forall i :: |s.journal| <= i < |r.journal| ==> r.journal[i].status.Planned?
       case Some(d) =>
         d.entry.id == s.clock && s.clock < r.clock && DeedOk(strict, d) && Grown(s.tree, s.clock, d.pre) && r.tree == d.post
         && |r.journal| == |s.journal| + 2 && s.journal <= r.journal && r.journal[|s.journal|].status.Planned?
         && r.journal[|s.journal| + 1] == d.entry
  }

  /** How the item changed the tree, in terms of its check. */
  ghost predicate Footprint(t: Tree, c: Check, u: Tree) {
    forall p ::
      (IsDir(u, p) ==> IsDir(t, p) || Internal(p) || (c.action.Move? && p < c.to && p != c.from) || (c.action.CreateDir? && p == c.to))
      && (IsFile(t, p) ==> IsFile(u, p) || (Moves(c) && p == c.from))
  }

  /** A state that differs by made directories and perhaps a Planned row. */
  lemma OnlyPrepared(strict: bool, s: State, c: Check, p: Path, r: State)
    requires WellFormed(s.tree) && NoFuture(s.tree, s.clock) && CanMakeDirs(s.tree, p)
    requires Internal(p) ==> |p| <= 2
    requires Internal(p) || p == [] || (c.action.Move? && p < c.to && c.from in s.tree)
    requires r.tree == AddDirs(s.tree, p) && (r == s || r.clock > s.clock)
    requires s.journal <= r.journal && forall i :: |s.journal| <= i < |r.journal| ==> r.journal[i].status.Planned?
    ensures ItemResult(strict, s, r, None) && Footprint(s.tree, c, r.tree)
  {
    AddDirsGrow(s.tree, s.clock, p);
    AddDirsMakes(s.tree, p);
    AddDirsAdds(s.tree, p);
    if r != s {
      forall q | q in r.tree && q !in s.tree
        ensures DirPath(q)
      {
        assert q <= p && q != [] && q[0] == p[0];
      }
      NoFutureGrown(s.tree, s.clock, r.tree, r.clock);
    }
    MadeFootprint(s.tree, c, p);
  }

  lemma MadeFootprint(t: Tree, c: Check, p: Path)
    requires Internal(p) || p == [] || (c.action.Move? && p < c.to && c.from in t)
    ensures Footprint(t, c, AddDirs(t, p))
  {
    var u := AddDirs(t, p);
    AddDirsAdds(t, p);
    forall q
      ensures IsDir(u, q) ==> IsDir(t, q) || Internal(q) || (c.action.Move? && q < c.to && q != c.from) || (c.action.CreateDir? && q == c.to)
      ensures IsFile(t, q) ==> IsFile(u, q)
    {
      if IsDir(u, q) && q !in t {
        assert q <= p && q != [] && q[0] == p[0];
      }
    }
  }

  /** A script that plans, makes directories and stops. */
  lemma StopsEarly(strict: bool, s: State, c: Check, m: Script, row: Step, p: Path)
    requires WellFormed(s.tree) && NoFuture(s.tree, s.clock) && CanMakeDirs(s.tree, p)
    requires m.act == [] && m.prep == [row] + MkdirSteps(s.tree, p) && row.Row? && row.entry.status.Planned?
    requires Internal(p) ==> |p| <= 2
    requires Internal(p) || p == [] || (c.action.Move? && p < c.to && c.from in s.tree)
    ensures ItemResult(strict, s, Do(s, m.Steps()), None) && Footprint(s.tree, c, Do(s, m.Steps()).tree)
  {
    Planning(s, row, p);
    assert m.Steps() == m.prep;
    OnlyPrepared(strict, s, c, p, Do(s, m.prep));
  }

  // ----- Deeds

  lemma FootprintMoved(t: Tree, c: Check, u: Tree, b: Path)
    requires Footprint(t, c, u) && Moves(c) && IsFile(u, c.from)
    ensures Footprint(t, c, (u - {c.from})[b := u[c.from]])
  {
  }

  lemma NoFutureMoved(t: Tree, n: nat, u: Tree, m: nat, a: Path, b: Path)
    requires NoFuture(t, n) && n < m && IsFile(u, a) && (!Internal(b) || b == Payload(n))
    requires forall p :: p in u && p !in t ==> DirPath(p) || LeftBy(p, n)
    ensures NoFuture((u - {a})[b := u[a]], m)
  {
    NoFutureGrown(t, n, (u - {a})[b := u[a]], m);
  }

  lemma MoveDeed(strict: bool, s: State, c: Check, r: State, d: Deed)
    requires WellFormed(s.tree) && NoFuture(s.tree, s.clock)
    requires c.action.Move? && !Internal(c.from) && !Internal(c.to) && IsFile(s.tree, c.from)
    requires !Unsafe(c.from) && !Unsafe(c.to) && c.to != [] && c.to !in s.tree && CanMakeDirs(s.tree, Parent(c.to))
    requires d == Deed(CheckRow(s.clock, Executed, c).entry, AddDirs(s.tree, Parent(c.to)), r.tree)
    requires r.tree == Moved(d.pre, c.from, c.to)
    requires r.journal == s.journal + [CheckRow(s.clock, Planned, c).entry, d.entry] && r.clock > s.clock
    ensures ItemResult(strict, s, r, Some(d)) && Footprint(s.tree, c, r.tree)
  {
    var t, u, home := s.tree, d.pre, Parent(c.to);
    AddDirsAdds(t, home);
    AddDirsMakes(t, home);
    AddDirsGrow(t, s.clock, home);
    Relocation(u, c.from, c.to);
    MadeFootprint(t, c, home);
    FootprintMoved(t, c, u, c.to);
    NoFutureMoved(t, s.clock, u, r.clock, c.from, c.to);
  }

  lemma MoveResult(strict: bool, s: State, c: Check) returns (deed: Option<Deed>)
    requires WellFormed(s.tree) && NoFuture(s.tree, s.clock)
    requires c.action.Move? && !Internal(c.from) && !Internal(c.to) && !IsDir(s.tree, c.from)
    ensures ItemResult(strict, s, Do(s, MoveScript(s, c).Steps()), deed)
    ensures Footprint(s.tree, c, Do(s, MoveScript(s, c).Steps()).tree)
    ensures deed.Some? ==> Yields(c, deed.value.entry)
  {
    var m, t, planned := MoveScript(s, c), s.tree, CheckRow(s.clock, Planned, c);
    deed := None;
    if m.act != [] {
      Planning(s, planned, Parent(c.to));
      Acted(s, m);
      var r := Do(s, m.Steps());
      var d := Deed(m.act[1].entry, AddDirs(t, Parent(c.to)), r.tree);
      assert r.journal == s.journal + [planned.entry, d.entry];
      MoveDeed(strict, s, c, r, d);
      deed := Some(d);
    } else if m.prep == [planned] {
      assert [planned] + MkdirSteps(t, []) == [planned];
      StopsEarly(strict, s, c, m, planned, []);
    } else {
      StopsEarly(strict, s, c, m, planned, Parent(c.to));
    }
  }

  lemma TrashDeed(strict: bool, s: State, c: Check, u: Tree, f: Node, r: State, d: Deed)
    requires WellFormed(s.tree) && NoFuture(s.tree, s.clock)
    requires c.action.Trash? && !Internal(c.from) && IsFile(s.tree, c.from) && !Unsafe(c.from)
    requires CanMakeDirs(s.tree, TrashHome(s.clock)) && Payload(s.clock) !in s.tree && Metadata(s.clock) !in s.tree
    requires u == AddDirs(s.tree, TrashHome(s.clock)) && f.File?
    requires d == Deed(TrashRow(s.clock, Executed, c.from).entry, u[Metadata(s.clock) := f], r.tree)
    requires r.tree == Moved(d.pre, c.from, Payload(s.clock)) && WellFormed(d.pre)
    requires r.journal == s.journal + [TrashRow(s.clock, Planned, c.from).entry, d.entry] && r.clock > s.clock
    ensures ItemResult(strict, s, r, Some(d)) && Footprint(s.tree, c, r.tree)
  {
    var t, id, home := s.tree, s.clock, TrashHome(s.clock);
    TrashPlaces(t, id, u);
    AddDirsGrow(t, id, home);
    AddLeftFile(t, id, u, Metadata(id), f);
    Relocation(d.pre, c.from, Payload(id));
    MadeFootprint(t, c, home);
    FootprintMoved(t, c, d.pre, Payload(id));
    NoFutureMoved(t, id, d.pre, r.clock, c.from, Payload(id));
    SafePayload(id);
  }

  lemma TrashPlaces(t: Tree, id: nat, u: Tree)
    requires WellFormed(t) && CanMakeDirs(t, TrashHome(id)) && Payload(id) !in t && Metadata(id) !in t
    requires u == AddDirs(t, TrashHome(id))
    ensures Payload(id) !in u && Metadata(id) !in u && Payload(id) != Metadata(id) && IsDir(u, TrashHome(id))
    ensures Parent(Payload(id)) == TrashHome(id) && Internal(Metadata(id)) && DirsAdded(t, u, TrashHome(id))
  {
    AddDirsAdds(t, TrashHome(id));
    AddDirsMakes(t, TrashHome(id));
    PrivateNames(id, id);
    assert |Metadata(id)| == 3 && |Payload(id)| == 3;
    assert LeftBy(Metadata(id), id);
  }

  lemma TrashResult(strict: bool, s: State, c: Check) returns (deed: Option<Deed>)
    requires WellFormed(s.tree) && NoFuture(s.tree, s.clock) && c.action.Trash? && !Internal(c.from)
    ensures ItemResult(strict, s, Do(s, TrashScript(s, c.from).Steps()), deed)
    ensures Footprint(s.tree, c, Do(s, TrashScript(s, c.from).Steps()).tree)
    ensures deed.Some? ==> Yields(c, deed.value.entry)
  {
    var m, t, planned, home := TrashScript(s, c.from), s.tree, TrashRow(s.clock, Planned, c.from), TrashHome(s.clock);
    deed := None;
    if m.act != [] {
      var d := TrashActs(strict, s, c);
      deed := Some(d);
    } else if m.prep == [] {
      assert m.Steps() == [];
      assert AddDirs(t, []) == t;
      OnlyPrepared(strict, s, c, [], s);
    } else if m.prep == [planned] {
      assert [planned] + MkdirSteps(t, []) == [planned];
      StopsEarly(strict, s, c, m, planned, []);
    } else {
      StopsEarly(strict, s, c, m, planned, home);
    }
  }

  lemma TrashActs(strict: bool, s: State, c: Check) returns (d: Deed)
    requires WellFormed(s.tree) && NoFuture(s.tree, s.clock) && c.action.Trash? && !Internal(c.from) && TrashScript(s, c.from).out.Done?
    ensures ItemResult(strict, s, Do(s, TrashScript(s, c.from).Steps()), Some(d))
    ensures Footprint(s.tree, c, Do(s, TrashScript(s, c.from).Steps()).tree) && Yields(c, d.entry)
  {
    var m := TrashScript(s, c.from);
    var q, r := Do(s, m.prep), Do(s, m.Steps());
    TrashPrepared(s, c.from);
    TrashFacts(s, c.from);
    d := Deed(TrashRow(s.clock, Executed, c.from).entry, q.tree, r.tree);
    TrashDeed(strict, s, c, AddDirs(s.tree, TrashHome(s.clock)), File(METADATA_TEXT, q.clock - 1, q.clock - 1), r, d);
  }

  /** The state right before a file is moved to the trash, and the state at the end. */
  lemma TrashFacts(s: State, from: Path)
    requires WellFormed(s.tree) && TrashScript(s, from).out.Done?
    ensures IsFile(s.tree, from) && !Unsafe(from) && CanMakeDirs(s.tree, TrashHome(s.clock))
    ensures Payload(s.clock) !in s.tree && Metadata(s.clock) !in s.tree
    ensures var q, r := Do(s, TrashScript(s, from).prep), Do(s, TrashScript(s, from).Steps());
            WellFormed(q.tree) && r.tree == Moved(q.tree, from, Payload(s.clock)) && r.clock > s.clock
            && r.journal == s.journal + [TrashRow(s.clock, Planned, from).entry, TrashRow(s.clock, Executed, from).entry]
  {
    var m := TrashScript(s, from);
    TrashPreparedJournal(s, from);
    Acted(s, m);
    ScriptKeepsWellFormed(s, TrashOne(from), |m.prep|);
    assert m.Steps()[..|m.prep|] == m.prep;
    DoClock(s, m.Steps());
    assert Do(s, m.Steps()).journal == s.journal + [TrashRow(s.clock, Planned, from).entry, TrashRow(s.clock, Executed, from).entry];
  }

  lemma TrashPreparedJournal(s: State, from: Path)
    requires WellFormed(s.tree) && TrashScript(s, from).out.Done?
    ensures Do(s, TrashScript(s, from).prep).journal == s.journal + [TrashRow(s.clock, Planned, from).entry]
  {
    var planned := TrashRow(s.clock, Planned, from);
    Planning(s, planned, TrashHome(s.clock));
    DoAppend(s, [planned] + MkdirSteps(s.tree, TrashHome(s.clock)), Sys(Write(Metadata(s.clock), METADATA_TEXT)));
  }

  /** A creation that plans one row and then either acts or stops. */
  lemma CreateResult(strict: bool, s: State, c: Check) returns (deed: Option<Deed>)
    requires WellFormed(s.tree) && NoFuture(s.tree, s.clock)
    requires (c.action.CreateDir? || c.action.CreateFile?) && !Internal(c.to)
    ensures var m := if c.action.CreateDir? then CreateDirScript(s, c) else CreateFileScript(s, c);
            ItemResult(strict, s, Do(s, m.Steps()), deed) && Footprint(s.tree, c, Do(s, m.Steps()).tree)
    ensures deed.Some? ==> Yields(c, deed.value.entry)
  {
    var m, t, planned := if c.action.CreateDir? then CreateDirScript(s, c) else CreateFileScript(s, c), s.tree, CheckRow(s.clock, Planned, c);
    assert [planned] + MkdirSteps(t, []) == [planned];
    if m.act == [] {
      StopsEarly(strict, s, c, m, planned, []);
      deed := None;
    } else {
      Planning(s, planned, []);
      Acted(s, m);
      DoOne(s, planned);
      var r := Do(s, m.Steps());
      var d := Deed(m.act[1].entry, t, r.tree);
      assert r.journal == s.journal + [planned.entry, d.entry];
      EffectKeepsWellFormed(t, m.act[0].call, s.clock + 1);
      NoFutureCreated(t, s.clock, r.tree, r.clock, c.to);
      deed := Some(d);
    }
  }

  lemma NoFutureCreated(t: Tree, n: nat, u: Tree, m: nat, p: Path)
    requires NoFuture(t, n) && n < m && !Internal(p) && forall q :: q in u ==> q in t || q == p
    ensures NoFuture(u, m)
  {
    NoFutureGrown(t, n, u, m);
  }

  lemma ReadmeDeed(s: State, c: Check, u: Tree, f: Node, r: State, d: Deed)
    requires WellFormed(s.tree) && NoFuture(s.tree, s.clock) && c.action.ReadmeWrite?
    requires CanMakeDirs(s.tree, BACKUP_DIR) && u == AddDirs(s.tree, BACKUP_DIR) && f.File? && f.content == Keepsake(s.tree, s.clock).content
    requires !IsDir(s.tree, README)
    requires d == Deed(ReadmeRow(s.clock, Executed).entry, u[Keepsake(s.tree, s.clock).path := f], r.tree)
    requires IsFile(r.tree, README) && r.tree == d.pre[README := r.tree[README]]
    requires IsFile(d.pre, README) ==> r.tree[README].id == d.pre[README].id
    requires r.journal == s.journal + [ReadmeRow(s.clock, Planned).entry, d.entry] && r.clock > s.clock && WellFormed(r.tree)
    ensures ItemResult(false, s, r, Some(d)) && Footprint(s.tree, c, r.tree)
  {
    var t, id, keep := s.tree, s.clock, Keepsake(s.tree, s.clock).path;
    AddDirsAdds(t, BACKUP_DIR);
    AddDirsGrow(t, id, BACKUP_DIR);
    assert |README| == 1 && |keep| == 3 && |Backup(id)| == 3 && README[0] != STATE_DIR;
    PrivateNames(id, id);
    assert LeftBy(keep, id) && LeftBy(Backup(id), id);
    assert LeftFrom(keep, id) && LeftFrom(Backup(id), id);
    AddLeftFile(t, id, u, keep, f);
    ReadmeDeedOk(t, id, u, f, d);
    MadeFootprint(t, c, BACKUP_DIR);
    KeepsakeFuture(t, id, u, r.tree, r.clock, keep);
  }

  lemma ReadmeDeedOk(t: Tree, id: nat, u: Tree, f: Node, d: Deed)
    requires DirsAdded(t, u, BACKUP_DIR) && f.File? && f.content == Keepsake(t, id).content && !IsDir(t, README) && NoFuture(t, id)
    requires d == Deed(ReadmeRow(id, Executed).entry, u[Keepsake(t, id).path := f], d.post)
    requires IsDir(d.post, []) && IsFile(d.post, README) && d.post == d.pre[README := d.post[README]]
    requires IsFile(d.pre, README) ==> d.post[README].id == d.pre[README].id
    ensures DeedOk(false, d)
  {
    assert |README| == 1 && |Keepsake(t, id).path| == 3 && |Backup(id)| == 3 && Parent(README) == [];
    PrivateNames(id, id);
    assert LeftBy(Backup(id), id) && LeftFrom(Backup(id), id);
    assert Backup(id) !in u;
  }

  lemma KeepsakeFuture(t: Tree, n: nat, u: Tree, r: Tree, m: nat, keep: Path)
    requires NoFuture(t, n) && n < m && DirsAdded(t, u, BACKUP_DIR) && LeftBy(keep, n)
    requires forall p :: p in r ==> p in u || p == keep || p == README
    ensures NoFuture(r, m)
  {
    NoFutureGrown(t, n, r, m);
  }

  lemma ReadmeResult(strict: bool, s: State, c: Check) returns (deed: Option<Deed>)
    requires WellFormed(s.tree) && NoFuture(s.tree, s.clock) && c.action.ReadmeWrite? && !strict
    ensures ItemResult(strict, s, Do(s, ReadmeScript(s, c).Steps()), deed)
    ensures Footprint(s.tree, c, Do(s, ReadmeScript(s, c).Steps()).tree)
    ensures deed.Some? ==> Yields(c, deed.value.entry)
  {
    var m, t, id := ReadmeScript(s, c), s.tree, s.clock;
    deed := None;
    if m.act != [] {
      var d := ReadmeActs(s, c);
      deed := Some(d);
    } else if m.prep == [] {
      assert m.Steps() == [] && AddDirs(t, []) == t;
      OnlyPrepared(strict, s, c, [], s);
    } else {
      assert m.Steps() == m.prep;
      Mkdirs(s, BACKUP_DIR);
      DoClock(s, m.prep);
      OnlyPrepared(strict, s, c, BACKUP_DIR, Do(s, m.prep));
    }
  }

  lemma ReadmeActs(s: State, c: Check) returns (d: Deed)
    requires WellFormed(s.tree) && NoFuture(s.tree, s.clock) && c.action.ReadmeWrite? && ReadmeScript(s, c).out.Done?
    ensures ItemResult(false, s, Do(s, ReadmeScript(s, c).Steps()), Some(d))
    ensures Footprint(s.tree, c, Do(s, ReadmeScript(s, c).Steps()).tree) && Yields(c, d.entry)
  {
    var m, t, id := ReadmeScript(s, c), s.tree, s.clock;
    ReadmePrepared(s, c);
    ReadmePreparedJournal(s, c);
    Acted(s, m);
    ReadmeScriptSucceeds(s, c);
    DoKeepsWellFormed(s, m.Steps());
    DoClock(s, m.Steps());
    var q, r := Do(s, m.prep), Do(s, m.Steps());
    var keep := Keepsake(t, id).path;
    assert |README| == 1 && |keep| == 3;
    d := Deed(ReadmeRow(id, Executed).entry, q.tree, r.tree);
    assert r.journal == s.journal + [ReadmeRow(id, Planned).entry, d.entry];
    ReadmeDeed(s, c, AddDirs(t, BACKUP_DIR), q.tree[keep], r, d);
  }

  /** One item of a batch on an empty journal. */
  lemma ItemIsDeed(strict: bool, s: State, c: Check) returns (deed: Option<Deed>)
    requires WellFormed(s.tree) && NoFuture(s.tree, s.clock)
    requires UserPaths(c.action, c.from, c.to)
    requires c.status.Ready? && Moves(c) ==> !IsDir(s.tree, c.from)
    requires c.status.Ready? && c.action.ReadmeWrite? ==> !strict
    ensures ItemResult(strict, s, Do(s, ItemScript(s, c, []).Steps()), deed)
    ensures Footprint(s.tree, c, Do(s, ItemScript(s, c, []).Steps()).tree)
    ensures !c.status.Ready? ==> Do(s, ItemScript(s, c, []).Steps()) == s
    ensures deed.Some? ==> c.status.Ready? && Yields(c, deed.value.entry)
  {
    if !c.status.Ready? {
      NothingToRecover(strict, s, c);
      deed := None;
    } else if c.action.Move? {
      deed := MoveResult(strict, s, c);
    } else if c.action.Trash? {
      deed := TrashResult(strict, s, c);
    } else if c.action.ReadmeWrite? {
      deed := ReadmeResult(strict, s, c);
    } else {
      deed := CreateResult(strict, s, c);
    }
  }

  lemma NothingToRecover(strict: bool, s: State, c: Check)
    requires WellFormed(s.tree) && NoFuture(s.tree, s.clock) && !c.status.Ready?
    ensures ItemResult(strict, s, Do(s, ItemScript(s, c, []).Steps()), None) && Do(s, ItemScript(s, c, []).Steps()) == s
    ensures Footprint(s.tree, c, Do(s, ItemScript(s, c, []).Steps()).tree)
  {
    assert PendingPlanned([], c.from, c.to) == None;
    assert ItemScript(s, c, []).Steps() == [];
    assert AddDirs(s.tree, []) == s.tree;
    OnlyPrepared(strict, s, c, [], s);
  }
}
