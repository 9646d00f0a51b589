/**
 What each operation on its own really does, when it is not cut off: the tree, the journal and the report
 after it, for every tree, with the guards written out in terms of the tree.
 */
module Effects {
  import opened FileSystem
  import opened Journal
  import opened Scripts
  import opened Steps
  import opened JournalRows
  import opened History
  import opened Wrappers

  // ----- One job

  /** A single job that is not cut. */
  lemma OneJob(s: State, job: Job, fuel: nat)
    requires fuel >= |ScriptOf(s, job).Steps()|
    ensures var r, m := RunJobs(s, [job], fuel), ScriptOf(s, job);
            r.s == Do(s, m.Steps()) && r.outs == [m.out] && r.end == if m.out.Failed? then Stopped else Finished
  {
    RunTurn(s, [job], fuel);
    assert [job][1..] == [];
  }

  /** A batch of one proposal that is not cut. */
  lemma OneItem(s: State, q: Proposal, fuel: nat)
    requires fuel >= |ItemScript(s, Precheck(s.tree, q), s.journal).Steps()|
    ensures var r, m := RunCommand(s, Execute([q]), fuel), ItemScript(s, Precheck(s.tree, q), s.journal);
            r.s == Do(s, m.Steps()) && r.outs == [m.out] && r.end == if m.out.Failed? then Stopped else Finished
  {
    OneJob(s, Item(Precheck(s.tree, q), s.journal), fuel);
    assert JobsOf(s, Execute([q])) == [Item(Precheck(s.tree, q), s.journal)];
  }

  lemma {:induction false} MkdirCount(t: Tree, p: Path)
    ensures |MkdirSteps(t, p)| <= |p|
    decreases |p|
  {
    if p !in t && p != [] {
      MkdirCount(t, Parent(p));
    }
  }

  // ----- What a run comes to

  /** Done, with these two rows and nothing else in the journal. */
  predicate DoneWith(s: State, r: Run, action: Action, from: Path, to: Path) {
    r.end == Finished && r.outs == [Done]
    && r.s.journal == s.journal + [Entry(s.clock, Planned, action, from, to), Entry(s.clock, Executed, action, from, to)]
  }

  /** The entry at p is the same in both trees, or in neither. */
  predicate SameEntry(t: Tree, u: Tree, p: Path) {
    (p in t <==> p in u) && (p in t ==> t[p] == u[p])
  }

  /** No absolute path, no way up. */
  predicate Guarded(p: Path) {
    (p == [] || p[0] != "") && forall i :: 0 <= i < |p| ==> p[i] != ".."
  }

  lemma GuardedIsSafe(p: Path)
    ensures Guarded(p) <==> !Unsafe(p)
  {
    if ".." in p {
      var i :| 0 <= i < |p| && p[i] == "..";
    }
  }

  // ----- Creations

  /** A new entry can be made at p: in an existing directory, where nothing is. */
  predicate Vacant(t: Tree, p: Path) {
    p != [] && Guarded(p) && IsDir(t, Parent(p)) && p !in t
  }

  /** An empty file, or a directory, is all that has changed. */
  ghost predicate FileAdded(t: Tree, u: Tree, p: Path) {
    IsFile(u, p) && u[p].content == "" && forall x :: x != p ==> SameEntry(t, u, x)
  }

  ghost predicate DirAdded(t: Tree, u: Tree, p: Path) {
    IsDir(u, p) && forall x :: x != p ==> SameEntry(t, u, x)
  }

  lemma EntryAdded(t: Tree, p: Path, now: nat)
    ensures FileAdded(t, Effect(t, Create(p), now), p) && DirAdded(t, Effect(t, Mkdir(p), now), p)
  {
  }

  /** What a proposal to create needs. */
  predicate MayCreate(t: Tree, q: Proposal) {
    !q.destinationExists && Vacant(t, q.to) && q.to != ["."] && (q.action.CreateFile? ==> q.content.None? || q.content.value == "")
  }

  /**
   A file or directory is created exactly when its place is vacant and no text is asked for. Then it is the
   only change to the tree, the file is empty, and there are two rows. Otherwise the tree stays as it is.
   */
  lemma CreatedIff(s: State, q: Proposal, fuel: nat)
    requires WellFormed(s.tree) && (q.action.CreateFile? || q.action.CreateDir?) && fuel >= 3
    ensures var r := RunCommand(s, Execute([q]), fuel);
            if MayCreate(s.tree, q) then
              DoneWith(s, r, q.action, q.from, q.to)
              && if q.action.CreateFile? then FileAdded(s.tree, r.s.tree, q.to) else DirAdded(s.tree, r.s.tree, q.to)
            else r.s.tree == s.tree && r.outs in [[Skipped], [Failed]]
  {
    var c := Precheck(s.tree, q);
    MayCreateMeans(s, q);
    if MayCreate(s.tree, q) {
      CreationEffect(s, q, c);
    } else if c.status.Ready? {
      RowAlone(s, CheckRow(s.clock, Planned, c), ItemScript(s, c, s.journal));
    } else {
      RecoverKeepsTree(s, q, fuel);
    }
    if c.status.Ready? {
      OneItem(s, q, fuel);
    }
  }

  function CreationCall(q: Proposal): Call {
    if q.action.CreateDir? then Mkdir(q.to) else Create(q.to)
  }

  lemma MayCreateMeans(s: State, q: Proposal)
    requires WellFormed(s.tree) && (q.action.CreateDir? || q.action.CreateFile?)
    ensures var c := Precheck(s.tree, q); var m, planned := ItemScript(s, c, s.journal), CheckRow(s.clock, Planned, c);
            !c.status.MissingSource?
            && if MayCreate(s.tree, q) then
                 c.status.Ready? && m == Script([planned], [Sys(CreationCall(q)), CheckRow(s.clock, Executed, c)], Done)
               else c.status.Ready? ==> m.prep == [planned] && m.act == [] && (m.out.Skipped? || m.out.Failed?)
  {
    GuardedIsSafe(q.to);
  }

  lemma CreationEffect(s: State, q: Proposal, c: Check)
    requires c == Precheck(s.tree, q) && (q.action.CreateDir? || q.action.CreateFile?)
    ensures var planned, executed := CheckRow(s.clock, Planned, c), CheckRow(s.clock, Executed, c);
            var r := Do(s, Script([planned], [Sys(CreationCall(q)), executed], Done).Steps());
            r.journal == s.journal + [planned.entry, executed.entry]
            && if q.action.CreateFile? then FileAdded(s.tree, r.tree, q.to) else DirAdded(s.tree, r.tree, q.to)
  {
    RowsAround(s, CheckRow(s.clock, Planned, c), CreationCall(q), CheckRow(s.clock, Executed, c));
    EntryAdded(s.tree, q.to, s.clock + 1);
  }

  /** A row, a call and a row. */
  lemma RowsAround(s: State, first: Step, call: Call, last: Step)
    requires first.Row? && last.Row?
    ensures var r := Do(s, Script([first], [Sys(call), last], Done).Steps());
            r.tree == Effect(s.tree, call, s.clock + 1) && r.journal == s.journal + [first.entry, last.entry]
  {
    var m := Script([first], [Sys(call), last], Done);
    DoOne(s, first);
    Acted(s, m);
    TwoRows(s.journal, first.entry, last.entry);
  }

  lemma TwoRows(rows: seq<Entry>, a: Entry, b: Entry)
    ensures rows + [a] + [b] == rows + [a, b]
  {
  }

  lemma RowAlone(s: State, row: Step, m: Script)
    requires row.Row? && m.prep == [row] && m.act == []
    ensures |m.Steps()| == 1 && Do(s, m.Steps()) == State(s.tree, s.journal + [row.entry], s.clock + 1)
  {
    assert m.Steps() == [row];
    DoOne(s, row);
  }

  /** `create_empty_file` makes an empty file in a vacant place, without a row, and else does nothing. */
  lemma EmptyFileIsCreatedIff(s: State, p: Path, fuel: nat)
    requires WellFormed(s.tree) && fuel >= 1
    ensures var r := RunCommand(s, CreateEmptyFile(p), fuel);
            if Vacant(s.tree, p) then r.end == Finished && r.s.journal == s.journal && FileAdded(s.tree, r.s.tree, p)
            else r.end == Stopped && r.s == s
  {
    CreateEmptyMeans(s, p);
    CallAlone(s, Create(p));
    NoSteps(s, Script([], [], Failed));
    EntryAdded(s.tree, p, s.clock);
    OneJob(s, CreateOne(p), fuel);
  }

  lemma CallAlone(s: State, call: Call)
    ensures var m := Script([], [Sys(call)], Done);
            |m.Steps()| == 1 && Do(s, m.Steps()) == State(Effect(s.tree, call, s.clock), s.journal, s.clock + 1)
  {
    assert Script([], [Sys(call)], Done).Steps() == [Sys(call)];
    DoOne(s, Sys(call));
  }

  lemma CreateEmptyMeans(s: State, p: Path)
    requires WellFormed(s.tree)
    ensures CreateEmptyScript(s, p) == if Vacant(s.tree, p) then Script([], [Sys(Create(p))], Done) else Script([], [], Failed)
  {
    GuardedIsSafe(p);
  }

  // ----- Moves, trashings and renames

  /** The file at p is still the one the proposal was made for. */
  predicate StillThere(t: Tree, p: Path, q: Proposal) {
    IsFile(t, p) && Guarded(p) && |t[p].content| == q.size && q.mtime == Some(t[p].mtime)
    && (q.fileId == None || q.fileId == Some(t[p].id))
  }

  /** A file can be brought to p: nothing is there, and no file is above. */
  predicate Reachable(t: Tree, p: Path) {
    p != [] && Guarded(p) && p !in t && forall n :: 0 <= n < |p| ==> !IsFile(t, p[..n])
  }

  /** The very file is at `to` and no longer at `from`; what else is new are directories above `to`. */
  ghost predicate Relocated(t: Tree, u: Tree, from: Path, to: Path)
    requires from in t
  {
    from !in u && to in u && u[to] == t[from]
    && forall p :: p != from && p != to ==> SameEntry(t, u, p) || (p !in t && IsDir(u, p) && Above(p, to))
  }

  /** All entries are the same, but for directories above `to` that may be new. */
  ghost predicate OnlyRoomMade(t: Tree, u: Tree, to: Path) {
    forall p :: SameEntry(t, u, p) || (p !in t && IsDir(u, p) && Above(p, to))
  }

  lemma StillThereIsReady(t: Tree, q: Proposal)
    requires q.action.Move? || q.action.Trash?
    ensures IsReady(t, q) <==> !q.destinationExists && StillThere(t, q.from, q)
  {
    GuardedIsSafe(q.from);
  }

  lemma ReachableIsOpen(t: Tree, from: Path, to: Path)
    requires WellFormed(t) && IsFile(t, from)
    ensures Reachable(t, to) <==> to != [] && !Unsafe(to) && to !in t && CanMakeDirs(t, Parent(to)) && !(from <= to)
  {
    GuardedIsSafe(to);
    if to != [] {
      FileAboveIff(t, to);
      if from <= to && from != to {
        assert to[..|from|] == from;
      }
    }
  }

  lemma OnlyRoom(t: Tree, u: Tree, to: Path)
    requires to != [] && DirsAdded(t, u, Parent(to))
    ensures OnlyRoomMade(t, u, to)
  {
    assert forall p :: p <= Parent(to) ==> Above(p, to);
  }

  lemma RoomIsRelocation(t: Tree, u: Tree, from: Path, to: Path)
    requires to != [] && DirsAdded(t, u, Parent(to)) && IsFile(t, from) && to !in t && from != to
    ensures Relocated(t, (u - {from})[to := t[from]], from, to)
  {
    assert forall p :: p <= Parent(to) ==> Above(p, to);
  }

  /** A move whose source is a file and whose destination can be made is done. */
  lemma MoveIsDone(s: State, c: Check)
    requires WellFormed(s.tree) && c.action.Move? && IsFile(s.tree, c.from) && !Unsafe(c.from) && !Unsafe(c.to)
    requires c.to != [] && c.to !in s.tree && CanMakeDirs(s.tree, Parent(c.to)) && !(c.from <= c.to)
    ensures var m := MoveScript(s, c); var r := Do(s, m.Steps()); var u := AddDirs(s.tree, Parent(c.to));
            m.out.Done? && r.tree == (u - {c.from})[c.to := s.tree[c.from]] && WellFormed(r.tree) && IsDir(r.tree, Parent(c.to))
            && r.journal == s.journal + [CheckRow(s.clock, Planned, c).entry, CheckRow(s.clock, Executed, c).entry]
  {
    var u, planned := AddDirs(s.tree, Parent(c.to)), CheckRow(s.clock, Planned, c);
    Planning(s, planned, Parent(c.to));
    Acted(s, Script([planned] + MkdirSteps(s.tree, Parent(c.to)), [Sys(Rename(c.from, c.to)), CheckRow(s.clock, Executed, c)], Done));
    TwoRows(s.journal, planned.entry, CheckRow(s.clock, Executed, c).entry);
    MovedIntoRoom(s.tree, c.from, c.to);
  }

  lemma MovedIntoRoom(t: Tree, from: Path, to: Path)
    requires WellFormed(t) && IsFile(t, from) && to != [] && to !in t && CanMakeDirs(t, Parent(to)) && !(from <= to)
    ensures var u, v := AddDirs(t, Parent(to)), Moved(AddDirs(t, Parent(to)), from, to);
            v == (u - {from})[to := t[from]] && WellFormed(v) && IsDir(v, Parent(to))
  {
    AddDirsAdds(t, Parent(to));
    AddDirsMakes(t, Parent(to));
    Relocation(AddDirs(t, Parent(to)), from, to);
  }

  /**
   A move is done exactly when its file is still the one that was approved, the guard accepts the target,
   nothing is there and no file is above it. Then the file itself, with its identity, content and time, is at
   the target, parent directories are all that is new, and there are two rows. Otherwise no file changes.
   */
  lemma MoveIsDoneIff(s: State, q: Proposal, fuel: nat)
    requires WellFormed(s.tree) && q.action.Move? && fuel >= |q.to| + 3
    ensures var r := RunCommand(s, Execute([q]), fuel);
            if !q.destinationExists && StillThere(s.tree, q.from, q) && Reachable(s.tree, q.to) then
              DoneWith(s, r, Move, q.from, q.to) && Relocated(s.tree, r.s.tree, q.from, q.to)
            else OnlyRoomMade(s.tree, r.s.tree, q.to) && (r.outs == [Done] ==> r.s.tree == s.tree && q.from !in s.tree && q.to in s.tree)
  {
    var c := Precheck(s.tree, q);
    StillThereIsReady(s.tree, q);
    if c.status.Ready? {
      MoveRuns(s, q, c, fuel);
    } else {
      RecoverKeepsTree(s, q, fuel);
    }
  }

  lemma RecoverKeepsTree(s: State, q: Proposal, fuel: nat)
    requires !IsReady(s.tree, q) && fuel >= 1
    ensures var r := RunCommand(s, Execute([q]), fuel);
            r.s.tree == s.tree && r.outs in [[Skipped], [Done]] && (r.outs == [Done] ==> q.to in s.tree && PrecheckStatus(s.tree, q).MissingSource?)
  {
    RecoverEffect(s, Precheck(s.tree, q), s.journal);
    OneItem(s, q, fuel);
  }

  /** A row for the pending operation, or nothing. */
  lemma RecoverShape(s: State, c: Check, prior: seq<Entry>)
    ensures var m := RecoverScript(s, c, prior);
            m.prep == []
            && ((m.act == [] && m.out.Skipped?) || (|m.act| == 1 && m.act[0].Row? && m.out.Done? && c.to in s.tree && c.status.MissingSource?))
  {
  }

  lemma RecoverEffect(s: State, c: Check, prior: seq<Entry>)
    ensures var m := RecoverScript(s, c, prior);
            |m.Steps()| <= 1 && Do(s, m.Steps()).tree == s.tree
            && (m.out.Skipped? || (m.out.Done? && c.to in s.tree && c.status.MissingSource?))
  {
    RecoverShape(s, c, prior);
    RowOrNothing(s, RecoverScript(s, c, prior));
  }

  lemma RowOrNothing(s: State, m: Script)
    requires m.prep == [] && (m.act == [] || (|m.act| == 1 && m.act[0].Row?))
    ensures |m.Steps()| <= 1 && Do(s, m.Steps()).tree == s.tree
  {
    if m.act == [] {
      NoSteps(s, m);
    } else {
      assert m.Steps() == [m.act[0]];
      DoOne(s, m.act[0]);
    }
  }

  /** A script without steps. */
  lemma NoSteps(s: State, m: Script)
    requires m.prep == [] && m.act == []
    ensures m.Steps() == [] && Do(s, m.Steps()) == s
  {
  }

  lemma MoveRuns(s: State, q: Proposal, c: Check, fuel: nat)
    requires WellFormed(s.tree) && q.action.Move? && fuel >= |q.to| + 3 && c == Precheck(s.tree, q) && c.status.Ready? && IsFile(s.tree, q.from)
    requires Guarded(q.from)
    ensures var r := RunCommand(s, Execute([q]), fuel);
            if Reachable(s.tree, q.to) then DoneWith(s, r, Move, q.from, q.to) && Relocated(s.tree, r.s.tree, q.from, q.to)
            else OnlyRoomMade(s.tree, r.s.tree, q.to) && r.outs != [Done]
  {
    GuardedIsSafe(q.from);
    ReachableIsOpen(s.tree, q.from, q.to);
    if q.to != [] { MkdirCount(s.tree, Parent(q.to)); }
    OneItem(s, q, fuel);
    if Reachable(s.tree, q.to) {
      MoveIsDone(s, c);
      AddDirsAdds(s.tree, Parent(q.to));
      RoomIsRelocation(s.tree, AddDirs(s.tree, Parent(q.to)), q.from, q.to);
    } else {
      GuardedIsSafe(q.to);
      MoveIsNotDone(s, c);
    }
  }

  lemma MoveIsNotDone(s: State, c: Check)
    requires WellFormed(s.tree) && c.action.Move? && MoveScript(s, c).act == []
    ensures OnlyRoomMade(s.tree, Do(s, MoveScript(s, c).Steps()).tree, c.to)
  {
    var m, planned := MoveScript(s, c), CheckRow(s.clock, Planned, c);
    assert m.Steps() == m.prep;
    if m.prep == [planned] {
      DoOne(s, planned);
    } else {
      Planning(s, planned, Parent(c.to));
      AddDirsAdds(s.tree, Parent(c.to));
      OnlyRoom(s.tree, AddDirs(s.tree, Parent(c.to)), c.to);
    }
  }

  /** The file is where operation `id` keeps it, with its record beside it, and no longer at `from`. */
  ghost predicate Trashed(t: Tree, u: Tree, from: Path, id: nat)
    requires from in t
  {
    from !in u && Payload(id) in u && u[Payload(id)] == t[from] && IsFile(u, Metadata(id))
    && forall p :: p != from && p != Payload(id) && p != Metadata(id) ==>
         SameEntry(t, u, p) || (p !in t && IsDir(u, p) && Above(p, Payload(id)))
  }

  /** The trash can take a file of operation `id`. */
  predicate TrashOpen(t: Tree, id: nat) {
    Reachable(t, Payload(id)) && Metadata(id) !in t
  }

  lemma TrashOpenMeans(t: Tree, id: nat)
    requires WellFormed(t)
    ensures TrashOpen(t, id) <==> CanMakeDirs(t, TrashHome(id)) && Payload(id) !in t && Metadata(id) !in t
    ensures Parent(Payload(id)) == TrashHome(id) && Payload(id) != Metadata(id)
  {
    SafePayload(id);
    GuardedIsSafe(Payload(id));
    FileAboveIff(t, Payload(id));
    assert Parent(Payload(id)) == TrashHome(id);
    assert Payload(id)[2] == "file" && Metadata(id)[2] == "original.json";
  }

  lemma TrashEffect(s: State, from: Path)
    requires WellFormed(s.tree) && IsFile(s.tree, from) && !Unsafe(from) && TrashOpen(s.tree, s.clock)
    ensures var m, r := TrashScript(s, from), Do(s, TrashScript(s, from).Steps());
            m.out.Done? && |m.Steps()| <= 6 && Trashed(s.tree, r.tree, from, s.clock)
            && r.journal == s.journal + [Entry(s.clock, Planned, Trash, from, Payload(s.clock)), Entry(s.clock, Executed, Trash, from, Payload(s.clock))]
  {
    var m, id := TrashScript(s, from), s.clock;
    TrashOpenMeans(s.tree, id);
    MkdirCount(s.tree, TrashHome(id));
    TrashPrepared(s, from);
    TrashJournal(s, from);
    Acted(s, m);
    TrashTree(s.tree, AddDirs(s.tree, TrashHome(id)), from, id, Do(s, m.prep).tree);
  }

  lemma TrashJournal(s: State, from: Path)
    requires WellFormed(s.tree) && TrashScript(s, from).out.Done?
    ensures Do(s, TrashScript(s, from).prep).journal == s.journal + [TrashRow(s.clock, Planned, from).entry]
  {
    RowsOfPrep(TrashRow(s.clock, Planned, from), s.tree, TrashHome(s.clock), Sys(Write(Metadata(s.clock), METADATA_TEXT)));
    DoJournal(s, TrashScript(s, from).prep);
  }

  lemma TrashTree(t: Tree, u: Tree, from: Path, id: nat, v: Tree)
    requires WellFormed(t) && IsFile(t, from) && TrashOpen(t, id) && DirsAdded(t, u, TrashHome(id)) && WellFormed(u)
    requires Metadata(id) in v && v[Metadata(id)].File? && v == u[Metadata(id) := v[Metadata(id)]] && Placeable(u, Metadata(id))
    ensures Trashed(t, Moved(v, from, Payload(id)), from, id)
  {
    TrashOpenMeans(t, id);
    assert |Payload(id)| == 3 && |TrashHome(id)| == 2;
    MetadataFits(u, Metadata(id), v);
    MovedFile(v, from, Payload(id));
    TrashedEntries(t, u, from, id, v[Metadata(id)]);
  }

  lemma TrashedEntries(t: Tree, u: Tree, from: Path, id: nat, f: Node)
    requires IsFile(t, from) && Payload(id) !in t && Metadata(id) !in t && Payload(id) != Metadata(id)
    requires DirsAdded(t, u, TrashHome(id)) && Parent(Payload(id)) == TrashHome(id) && f.File?
    ensures Trashed(t, (u[Metadata(id) := f] - {from})[Payload(id) := t[from]], from, id)
  {
    assert forall p :: p <= TrashHome(id) ==> Above(p, Payload(id));
  }

  lemma MetadataFits(u: Tree, p: Path, v: Tree)
    requires WellFormed(u) && Placeable(u, p) && p in v && v[p].File? && v == u[p := v[p]]
    ensures WellFormed(v)
  {
  }

  /**
   A file goes to the trash exactly when it is a file the guard accepts and the trash is open to the
   operation: the file itself lies in the trash then, with its record, and there are two rows. Otherwise
   the operation fails and no file changes.
   */
  lemma FileIsTrashedIff(s: State, from: Path, fuel: nat)
    requires WellFormed(s.tree) && fuel >= 6
    ensures var r := RunCommand(s, TrashFile(from), fuel);
            if IsFile(s.tree, from) && Guarded(from) && TrashOpen(s.tree, s.clock) then
              DoneWith(s, r, Trash, from, Payload(s.clock)) && Trashed(s.tree, r.s.tree, from, s.clock)
            else r.end == Stopped && r.outs == [Failed] && OnlyRoomMade(s.tree, r.s.tree, Payload(s.clock))
  {
    GuardedIsSafe(from);
    if IsFile(s.tree, from) && Guarded(from) && TrashOpen(s.tree, s.clock) {
      TrashEffect(s, from);
    } else {
      TrashFails(s, from);
    }
    OneJob(s, TrashOne(from), fuel);
  }

  lemma TrashFails(s: State, from: Path)
    requires WellFormed(s.tree) && !(IsFile(s.tree, from) && !Unsafe(from) && TrashOpen(s.tree, s.clock))
    ensures var m := TrashScript(s, from);
            m.out.Failed? && |m.Steps()| <= 6 && OnlyRoomMade(s.tree, Do(s, m.Steps()).tree, Payload(s.clock))
  {
    var m, planned := TrashScript(s, from), TrashRow(s.clock, Planned, from);
    TrashOpenMeans(s.tree, s.clock);
    assert m.Steps() == m.prep;
    if m.prep == [] {
      assert Do(s, []) == s;
    } else if m.prep == [planned] {
      DoOne(s, planned);
    } else {
      MkdirCount(s.tree, TrashHome(s.clock));
      Planning(s, planned, TrashHome(s.clock));
      AddDirsAdds(s.tree, TrashHome(s.clock));
      OnlyRoom(s.tree, AddDirs(s.tree, TrashHome(s.clock)), Payload(s.clock));
    }
  }

  /** The same for an approved proposal, which also has to find its file unchanged. */
  lemma TrashIsDoneIff(s: State, q: Proposal, fuel: nat)
    requires WellFormed(s.tree) && q.action.Trash? && fuel >= 6
    ensures var r := RunCommand(s, Execute([q]), fuel);
            if !q.destinationExists && StillThere(s.tree, q.from, q) && TrashOpen(s.tree, s.clock) then
              DoneWith(s, r, Trash, q.from, Payload(s.clock)) && Trashed(s.tree, r.s.tree, q.from, s.clock)
            else OnlyRoomMade(s.tree, r.s.tree, Payload(s.clock)) && (r.outs == [Done] ==> r.s.tree == s.tree && q.from !in s.tree && q.to in s.tree)
  {
    StillThereIsReady(s.tree, q);
    if IsReady(s.tree, q) {
      GuardedIsSafe(q.from);
      if TrashOpen(s.tree, s.clock) {
        TrashEffect(s, q.from);
      } else {
        TrashFails(s, q.from);
      }
      OneItem(s, q, fuel);
    } else {
      RecoverKeepsTree(s, q, fuel);
    }
  }

  /**
   A file is renamed exactly when it is one, the guard accepts its path, the name is a plain one and not
   taken in the directory. Otherwise nothing happens at all.
   */
  lemma FileIsRenamedIff(s: State, from: Path, name: string, fuel: nat)
    requires WellFormed(s.tree) && fuel >= 3
    ensures var r := RunCommand(s, RenameFile(from, name), fuel);
            if IsFile(s.tree, from) && Guarded(from) && name !in ["", ".", ".."] && '/' !in name && '\\' !in name && from[..|from| - 1] + [name] !in s.tree then
              var to := from[..|from| - 1] + [name];
              DoneWith(s, r, Move, from, to) && to in r.s.tree && r.s.tree[to] == s.tree[from] && from !in r.s.tree
              && forall p :: p != from && p != to ==> SameEntry(s.tree, r.s.tree, p)
            else r.end == Stopped && r.s == s
  {
    RenameMeans(s, from, name);
    var m := RenameScript(s, from, name);
    if m.act != [] {
      LoggedRename(s, from, Parent(from) + [name]);
    } else {
      NoSteps(s, m);
    }
    OneJob(s, RenameOne(from, name), fuel);
  }

  lemma RenameMeans(s: State, from: Path, name: string)
    requires WellFormed(s.tree)
    ensures var m, open := RenameScript(s, from, name), IsFile(s.tree, from) && Guarded(from) && ValidName(name) && from[..|from| - 1] + [name] !in s.tree;
            if open then
              var to := Parent(from) + [name];
              Placeable(s.tree, to)
              && m == Script([Row(Entry(s.clock, Planned, Move, from, to))], [Sys(Rename(from, to)), Row(Entry(s.clock, Executed, Move, from, to))], Done)
            else m == Script([], [], Failed)
  {
    GuardedIsSafe(from);
    if IsFile(s.tree, from) && Guarded(from) && ValidName(name) {
      SiblingIsSafe(from, name);
      var to := Parent(from) + [name];
      assert Parent(to) == Parent(from) && IsDir(s.tree, Parent(from));
    }
  }

  lemma SiblingIsSafe(p: Path, name: string)
    requires p != [] && !Unsafe(p) && ValidName(name)
    ensures !Unsafe(Parent(p) + [name])
  {
    var sibling := Parent(p) + [name];
    forall i | 0 <= i < |sibling|
      ensures sibling[i] != ".."
    {
      assert i < |p| - 1 ==> p[i] in p;
    }
  }

  /** A planned row, the rename of a file to a free place, and the executed row. */
  lemma LoggedRename(s: State, p: Path, to: Path)
    requires WellFormed(s.tree) && IsFile(s.tree, p) && Placeable(s.tree, to)
    ensures var planned, executed := Entry(s.clock, Planned, Move, p, to), Entry(s.clock, Executed, Move, p, to);
            var r := Do(s, Script([Row(planned)], [Sys(Rename(p, to)), Row(executed)], Done).Steps());
            r.tree == (s.tree - {p})[to := s.tree[p]] && WellFormed(r.tree) && r.journal == s.journal + [planned, executed]
  {
    RowsAround(s, Row(Entry(s.clock, Planned, Move, p, to)), Rename(p, to), Row(Entry(s.clock, Executed, Move, p, to)));
    Relocation(s.tree, p, to);
  }

  // ----- README.md

  /** README.md is what the proposal was made for: the same file, or still missing. */
  predicate StillReadme(t: Tree, q: Proposal) {
    if README in t then IsFile(t, README) && |t[README].content| == q.size && q.mtime == Some(t[README].mtime) && (q.fileId == None || q.fileId == Some(t[README].id))
    else q.size == 0 && q.mtime == None && q.fileId == None
  }

  /** A copy of README.md, or the mark that there was none, can be kept for operation `id`. */
  predicate KeepsakeOpen(t: Tree, id: nat) {
    (forall n :: 0 <= n <= 2 ==> !IsFile(t, Backup(id)[..n])) && !IsDir(t, if README in t then Backup(id) else Absent(id))
  }

  /** README.md has this text and what it had before is kept; no other user path has changed. */
  ghost predicate Rewritten(t: Tree, u: Tree, content: string, id: nat) {
    IsFile(u, README) && u[README].content == content
    && (if README in t then IsFile(t, README) && u[README].id == t[README].id && IsFile(u, Backup(id)) && u[Backup(id)].content == t[README].content
        else IsFile(u, Absent(id)))
    && forall p :: !Internal(p) && p != README ==> SameEntry(t, u, p)
  }

  /**
   README.md is written exactly when the proposal is for README.md and still fits, and a copy can be kept.
   Then it has the approved text, the former text is kept, and there are two rows. Otherwise no user path
   changes.
   */
  lemma ReadmeIsWrittenIff(s: State, q: Proposal, fuel: nat)
    requires WellFormed(s.tree) && q.action.ReadmeWrite? && fuel >= 6
    ensures var r := RunCommand(s, Execute([q]), fuel);
            if !q.destinationExists && q.from == q.to == ["README.md"] && q.content.Some? && StillReadme(s.tree, q) && KeepsakeOpen(s.tree, s.clock) then
              DoneWith(s, r, ReadmeWrite, Backup(s.clock), ["README.md"]) && Rewritten(s.tree, r.s.tree, q.content.value, s.clock)
            else r.outs != [Done] && forall p :: !Internal(p) ==> SameEntry(s.tree, r.s.tree, p)
  {
    var c := Precheck(s.tree, q);
    StillReadmeIsReady(s.tree, q);
    if c.status.Ready? {
      ReadmeScriptRuns(s, c);
      OneItem(s, q, fuel);
    } else {
      RecoverKeepsTree(s, q, fuel);
    }
  }

  lemma StillReadmeIsReady(t: Tree, q: Proposal)
    requires q.action.ReadmeWrite?
    ensures README == ["README.md"]
    ensures IsReady(t, q) <==> !q.destinationExists && q.from == q.to == README && q.content.Some? && StillReadme(t, q)
    ensures PrecheckStatus(t, q).MissingSource? ==> q.to !in t
  {
    GuardedIsSafe(README);
  }

  lemma ReadmeScriptRuns(s: State, c: Check)
    requires WellFormed(s.tree) && c.action.ReadmeWrite? && c.from == c.to == README && c.content.Some? && !IsDir(s.tree, README)
    ensures var m, r := ReadmeScript(s, c), Do(s, ReadmeScript(s, c).Steps());
            |m.Steps()| <= 6 && (m.out.Done? || m.out.Failed?) && (m.out.Done? <==> KeepsakeOpen(s.tree, s.clock))
            && if m.out.Done? then
                 Rewritten(s.tree, r.tree, c.content.value, s.clock)
                 && r.journal == s.journal + [Entry(s.clock, Planned, ReadmeWrite, Backup(s.clock), README), Entry(s.clock, Executed, ReadmeWrite, Backup(s.clock), README)]
               else forall p :: !Internal(p) ==> SameEntry(s.tree, r.tree, p)
  {
    var m := ReadmeScript(s, c);
    KeepsakeOpenMeans(s.tree, s.clock);
    MkdirCount(s.tree, BACKUP_DIR);
    if m.out.Done? {
      ReadmeEffect(s, c);
    } else if m.prep == [] {
      NoSteps(s, m);
    } else {
      ReadmeFails(s, c);
    }
  }

  lemma KeepsakeOpenMeans(t: Tree, id: nat)
    requires WellFormed(t)
    ensures !IsDir(t, README) ==> (KeepsakeOpen(t, id) <==> CanMakeDirs(t, BACKUP_DIR) && !IsDir(t, Keepsake(t, id).path))
  {
    assert Parent(Backup(id)) == BACKUP_DIR && |Backup(id)| == 3;
    FileAboveIff(t, Backup(id));
  }

  lemma ReadmeEffect(s: State, c: Check)
    requires WellFormed(s.tree) && c.action.ReadmeWrite? && ReadmeScript(s, c).out.Done?
    ensures var m, r := ReadmeScript(s, c), Do(s, ReadmeScript(s, c).Steps());
            Rewritten(s.tree, r.tree, c.content.value, s.clock)
            && r.journal == s.journal + [Entry(s.clock, Planned, ReadmeWrite, Backup(s.clock), README), Entry(s.clock, Executed, ReadmeWrite, Backup(s.clock), README)]
  {
    var m := ReadmeScript(s, c);
    ReadmePreparedJournal(s, c);
    Acted(s, m);
    ReadmeTree(s, c);
  }

  lemma ReadmeTree(s: State, c: Check)
    requires WellFormed(s.tree) && c.action.ReadmeWrite? && ReadmeScript(s, c).out.Done?
    ensures var q := Do(s, ReadmeScript(s, c).prep);
            Rewritten(s.tree, Effect(q.tree, Write(README, c.content.value), q.clock), c.content.value, s.clock)
  {
    ReadmePrepared(s, c);
    RewrittenTree(s.tree, AddDirs(s.tree, BACKUP_DIR), c.content.value, s.clock, Do(s, ReadmeScript(s, c).prep));
  }

  lemma RewrittenTree(t: Tree, u: Tree, content: string, id: nat, q: State)
    requires DirsAdded(t, u, BACKUP_DIR) && !IsDir(t, README) && q.clock >= 2 && q.tree == Effect(u, Keepsake(t, id), q.clock - 2)
    ensures Rewritten(t, Effect(q.tree, Write(README, content), q.clock), content, id)
  {
    PrivateNames(id, id);
    assert |README| == 1 && |Backup(id)| == 3 && |Absent(id)| == 3 && BACKUP_DIR[0] == STATE_DIR;
    assert forall p :: p != [] && p <= BACKUP_DIR ==> Internal(p);
    assert README !in u <==> README !in t;
  }

  lemma ReadmeFails(s: State, c: Check)
    requires WellFormed(s.tree) && ReadmeScript(s, c).act == [] && ReadmeScript(s, c).prep != []
    ensures forall p :: !Internal(p) ==> SameEntry(s.tree, Do(s, ReadmeScript(s, c).Steps()).tree, p)
  {
    assert ReadmeScript(s, c).Steps() == MkdirSteps(s.tree, BACKUP_DIR);
    Mkdirs(s, BACKUP_DIR);
    AddDirsAdds(s.tree, BACKUP_DIR);
    assert forall p :: p != [] && p <= BACKUP_DIR ==> Internal(p);
  }

  // ----- Plans

  function ReadyOnes(t: Tree, ps: seq<Proposal>): seq<Proposal> {
    if ps == [] then [] else (if IsReady(t, ps[0]) then [ps[0]] else []) + ReadyOnes(t, ps[1..])
  }

  /** `later` is `rows` with one planned row per proposal, labelled as a move, with ids that count on from `id`. */
  predicate PlansListed(rows: seq<Entry>, later: seq<Entry>, id: nat, ready: seq<Proposal>) {
    |later| == |rows| + |ready| && later[..|rows|] == rows
    && forall i :: 0 <= i < |ready| ==> later[|rows| + i] == Entry(id + i, Planned, Move, ready[i].from, ready[i].to)
  }

  lemma PlansGoOn(rows: seq<Entry>, id: nat, q: Proposal, rest: seq<Proposal>, later: seq<Entry>)
    requires PlansListed(rows + [Entry(id, Planned, Move, q.from, q.to)], later, id + 1, rest)
    ensures PlansListed(rows, later, id, [q] + rest)
  {
    var more := rows + [Entry(id, Planned, Move, q.from, q.to)];
    assert later[..|rows|] == later[..|more|][..|rows|];
    assert later[|rows|] == later[..|more|][|rows|];
    forall i | 0 < i < |rest| + 1
      ensures later[|rows| + i] == Entry(id + i, Planned, Move, ([q] + rest)[i].from, ([q] + rest)[i].to)
    {
      assert later[|more| + (i - 1)] == Entry(id + 1 + (i - 1), Planned, Move, rest[i - 1].from, rest[i - 1].to);
    }
  }

  lemma PlanTurn(s: State, t: Tree, q: Proposal)
    ensures var m, r := PlanScript(s, Precheck(t, q)), Do(s, PlanScript(s, Precheck(t, q)).Steps());
            !m.out.Failed? && |m.Steps()| <= 1
            && r == if IsReady(t, q) then State(s.tree, s.journal + [Entry(s.clock, Planned, Move, q.from, q.to)], s.clock + 1) else s
  {
    var m := PlanScript(s, Precheck(t, q));
    if IsReady(t, q) {
      RowAlone(s, m.prep[0], m);
    } else {
      NoSteps(s, m);
    }
  }

  lemma {:induction false} PlanLoop(s: State, t: Tree, ps: seq<Proposal>, jobs: seq<Job>, fuel: nat)
    requires |jobs| == |ps| <= fuel && forall i :: 0 <= i < |ps| ==> jobs[i] == PlanOne(Precheck(t, ps[i]))
    ensures var r := RunJobs(s, jobs, fuel);
            r.end == Finished && r.s.tree == s.tree && PlansListed(s.journal, r.s.journal, s.clock, ReadyOnes(t, ps))
    decreases |ps|
  {
    if ps != [] {
      var m := PlanScript(s, Precheck(t, ps[0]));
      PlanTurn(s, t, ps[0]);
      RunTurn(s, jobs, fuel);
      var left := fuel - |m.Steps()|;
      PlanLoop(Do(s, m.Steps()), t, ps[1..], jobs[1..], left);
      if IsReady(t, ps[0]) {
        PlansGoOn(s.journal, s.clock, ps[0], ReadyOnes(t, ps[1..]), RunJobs(Do(s, m.Steps()), jobs[1..], left).s.journal);
      } else {
        assert [] + ReadyOnes(t, ps[1..]) == ReadyOnes(t, ps[1..]);
      }
    }
  }

  /** `write_planned_journal` writes one row for each ready proposal, in their order, and touches no file. */
  lemma PlansAreWritten(s: State, ps: seq<Proposal>, fuel: nat)
    requires fuel >= |ps|
    ensures var r := RunCommand(s, WritePlanned(ps), fuel);
            r.end == Finished && r.s.tree == s.tree && PlansListed(s.journal, r.s.journal, s.clock, ReadyOnes(s.tree, ps))
  {
    PlanLoop(s, s.tree, ps, JobsOf(s, WritePlanned(ps)), fuel);
  }

  // ----- Undo

  /** The row at x is the one executed row of its operation, which has not been undone. */
  predicate ToUndo(rows: seq<Entry>, x: nat) {
    x < |rows| && rows[x].status.Executed? && rows[x].id !in UndoneIds(rows)
    && forall i :: 0 <= i < |rows| && i != x && rows[i].id == rows[x].id ==> !rows[i].status.Executed?
  }

  /** With enough power, undoing one operation makes the steps of its executed row. */
  lemma UndoRunsRow(s: State, x: nat, fuel: nat)
    requires ToUndo(s.journal, x) && fuel >= |UndoScript(s, s.journal[x], UndoneIds(s.journal), Some(s.journal[x].id)).Steps()|
    ensures var e := s.journal[x]; var m, r := UndoScript(s, e, UndoneIds(s.journal), Some(e.id)), RunCommand(s, Undo(Some(e.id)), fuel);
            r.s == Do(s, m.Steps()) && r.end == (if m.out.Failed? then Stopped else Finished) && (!m.out.Failed? ==> Reported(r.outs) == [m.out])
  {
    var rows, undone, id := s.journal, UndoneIds(s.journal), s.journal[x].id;
    var f, rest := FirstRow(s, rows, undone, id, fuel, rows[x]);
    assert |rest| == x;
    var m := UndoScript(s, f, undone, Some(id));
    forall e | e in rest
      ensures !Concerns(e, id)
    {
      var i :| 0 <= i < |rest| && rest[i] == e;
      assert rows[i] == e;
    }
    if !m.out.Failed? {
      NothingToUndo(Do(s, m.Steps()), rest, undone, id, fuel - |m.Steps()|);
    }
  }

  /** The run ends well, and the operation has an Undone row. */
  predicate UndoneBy(r: Run, id: nat) {
    r.end == Finished && Reported(r.outs) == [Done] && id in UndoneIds(r.s.journal)
  }

  /** A file that was moved or trashed comes back itself, if its old place is free and can be reached. */
  lemma MoveIsTakenBack(s: State, x: nat, fuel: nat)
    requires WellFormed(s.tree) && ToUndo(s.journal, x) && (s.journal[x].action.Move? || s.journal[x].action.Trash?) && fuel >= |s.journal[x].from| + 3
    requires IsFile(s.tree, s.journal[x].to) && Guarded(s.journal[x].to) && Reachable(s.tree, s.journal[x].from)
    ensures var e, r := s.journal[x], RunCommand(s, Undo(Some(s.journal[x].id)), fuel);
            UndoneBy(r, e.id) && Relocated(s.tree, r.s.tree, e.to, e.from)
  {
    var e := s.journal[x];
    GuardedIsSafe(e.to);
    ReachableIsOpen(s.tree, e.to, e.from);
    MkdirCount(s.tree, Parent(e.from));
    UndoMoveEffect(s, e);
    UndoRunsRow(s, x, fuel);
  }

  lemma UndoMoveEffect(s: State, e: Entry)
    requires WellFormed(s.tree) && IsFile(s.tree, e.to) && !Unsafe(e.to) && !Unsafe(e.from) && e.from != [] && e.from !in s.tree
    requires CanMakeDirs(s.tree, Parent(e.from)) && !(e.to <= e.from)
    ensures var m, r := UndoMove(s, e), Do(s, UndoMove(s, e).Steps());
            m.out.Done? && |m.Steps()| == |MkdirSteps(s.tree, Parent(e.from))| + 3 && e.id in UndoneIds(r.journal) && Relocated(s.tree, r.tree, e.to, e.from)
  {
    UndoMovePrepared(s, e);
    Acted(s, UndoMove(s, e));
    MovedIntoRoom(s.tree, e.to, e.from);
    AddDirsAdds(s.tree, Parent(e.from));
    RoomIsRelocation(s.tree, AddDirs(s.tree, Parent(e.from)), e.to, e.from);
    LastIsUndone(Do(s, UndoMove(s, e).prep).journal, e);
  }

  lemma LastIsUndone(rows: seq<Entry>, e: Entry)
    ensures e.id in UndoneIds(rows + [UndoRow(e, Undone).entry])
  {
    var row := UndoRow(e, Undone).entry;
    assert (rows + [row])[|rows|] == row;
  }

  /** An undo of two rows around a call. */
  lemma UndoneByCall(s: State, x: nat, call: Call, fuel: nat)
    requires ToUndo(s.journal, x) && fuel >= 3
    requires var e := s.journal[x];
             UndoScript(s, e, UndoneIds(s.journal), Some(e.id)) == Script([UndoRow(e, UndoPlanned)], [Sys(call), UndoRow(e, Undone)], Done)
    ensures var r := RunCommand(s, Undo(Some(s.journal[x].id)), fuel);
            UndoneBy(r, s.journal[x].id) && r.s.tree == Effect(s.tree, call, s.clock + 1)
  {
    var e := s.journal[x];
    RowsAround(s, UndoRow(e, UndoPlanned), call, UndoRow(e, Undone));
    TwoRows(s.journal, UndoRow(e, UndoPlanned).entry, UndoRow(e, Undone).entry);
    LastIsUndone(s.journal + [UndoRow(e, UndoPlanned).entry], e);
    UndoRunsRow(s, x, fuel);
  }

  /** A created file that is still empty, or a created directory with nothing in it. */
  predicate StillEmpty(t: Tree, e: Entry) {
    e.to != []
    && match e.action
       case CreateFile => IsFile(t, e.to) && t[e.to].content == ""
       case CreateDir => IsDir(t, e.to) && forall p :: p in t && p != [] ==> Parent(p) != e.to
       case _ => false
  }

  function RemovalOf(e: Entry): Call {
    if e.action.CreateFile? then Remove(e.to) else Rmdir(e.to)
  }

  lemma StillEmptyScript(s: State, e: Entry, undone: set<nat>)
    requires StillEmpty(s.tree, e) && e.status.Executed? && e.id !in undone
    ensures UndoScript(s, e, undone, Some(e.id)) == Script([UndoRow(e, UndoPlanned)], [Sys(RemovalOf(e)), UndoRow(e, Undone)], Done)
  {
  }

  /** The entry at p is gone, and nothing else has changed. */
  ghost predicate OnlyGone(t: Tree, u: Tree, p: Path) {
    p !in u && forall x :: x != p ==> SameEntry(t, u, x)
  }

  lemma RemovalRemoves(t: Tree, e: Entry, now: nat)
    ensures OnlyGone(t, Effect(t, RemovalOf(e), now), e.to)
  {
  }

  lemma CreationIsTakenBack(s: State, x: nat, fuel: nat)
    requires ToUndo(s.journal, x) && StillEmpty(s.tree, s.journal[x]) && fuel >= 3
    ensures var e, r := s.journal[x], RunCommand(s, Undo(Some(s.journal[x].id)), fuel);
            UndoneBy(r, e.id) && OnlyGone(s.tree, r.s.tree, e.to)
  {
    StillEmptyScript(s, s.journal[x], UndoneIds(s.journal));
    UndoneByCall(s, x, RemovalOf(s.journal[x]), fuel);
    RemovalRemoves(s.tree, s.journal[x], s.clock + 1);
  }

  /** A README write with its copy, or the mark that there was none, still kept. */
  predicate CopyKept(t: Tree, e: Entry) {
    e.action.ReadmeWrite? && e.to == ["README.md"] && e.from == Backup(e.id) && IsFile(t, ["README.md"])
    && (if Backup(e.id) in t then IsFile(t, Backup(e.id)) else Absent(e.id) in t)
  }

  function RestoringCall(t: Tree, e: Entry): Call
    requires e.from in t ==> IsFile(t, e.from)
  {
    if e.from in t then Write(README, t[e.from].content) else Remove(README)
  }

  lemma CopyKeptScript(s: State, e: Entry, undone: set<nat>)
    requires CopyKept(s.tree, e) && e.status.Executed? && e.id !in undone
    ensures UndoScript(s, e, undone, Some(e.id)) == Script([UndoRow(e, UndoPlanned)], [Sys(RestoringCall(s.tree, e)), UndoRow(e, Undone)], Done)
  {
    AbsentOfBackup(e.id);
    assert README == ["README.md"] && |Backup(e.id)| == 3 && |README| == 1;
  }

  /** README.md has the text of the copy, or is gone if there was none; nothing else has changed. */
  ghost predicate ReadmeBack(t: Tree, u: Tree, id: nat) {
    (if Backup(id) in t then IsFile(u, ["README.md"]) && IsFile(t, Backup(id)) && u[["README.md"]].content == t[Backup(id)].content
     else ["README.md"] !in u)
    && forall p :: p != ["README.md"] ==> SameEntry(t, u, p)
  }

  lemma RestoringRestores(t: Tree, e: Entry, now: nat)
    requires CopyKept(t, e)
    ensures ReadmeBack(t, Effect(t, RestoringCall(t, e), now), e.id)
  {
    assert README == ["README.md"];
  }

  lemma ReadmeIsTakenBack(s: State, x: nat, fuel: nat)
    requires ToUndo(s.journal, x) && CopyKept(s.tree, s.journal[x]) && fuel >= 3
    ensures var e, r := s.journal[x], RunCommand(s, Undo(Some(s.journal[x].id)), fuel);
            UndoneBy(r, e.id) && ReadmeBack(s.tree, r.s.tree, e.id)
  {
    CopyKeptScript(s, s.journal[x], UndoneIds(s.journal));
    UndoneByCall(s, x, RestoringCall(s.tree, s.journal[x]), fuel);
    RestoringRestores(s.tree, s.journal[x], s.clock + 1);
  }
}
