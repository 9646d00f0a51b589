/** Walking a past back: the undo loop, with crashes. */
module UndoRun {
  import opened FileSystem
  import opened Journal
  import opened Scripts
  import opened Steps
  import opened JournalRows
  import opened UndoTheory
  import opened Wrappers

  // ----- The journal seen by undo

  /** The executed rows of the journal are the deeds, in order. */
  ghost predicate Matches(rows: seq<Entry>, deeds: seq<Deed>) {
    if rows == [] then deeds == []
    else
      var last, rest := rows[|rows| - 1], rows[..|rows| - 1];
      if last.status.Executed? then deeds != [] && deeds[|deeds| - 1].entry == last && Matches(rest, deeds[..|deeds| - 1])
      else Matches(rest, deeds)
  }

  /** `later` is `rows` with undo rows of operation `id` appended. */
  ghost predicate UndoRowsAdded(rows: seq<Entry>, later: seq<Entry>, id: nat) {
    rows <= later
    && forall i :: |rows| <= i < |later| ==> later[i].id == id && (later[i].status.UndoPlanned? || later[i].status.Undone?)
  }

  lemma {:induction false} MatchesLater(rows: seq<Entry>, later: seq<Entry>, id: nat, deeds: seq<Deed>)
    requires UndoRowsAdded(rows, later, id) && Matches(rows, deeds)
    ensures Matches(later, deeds)
    decreases |later|
  {
    if later != rows {
      var rest := later[..|later| - 1];
      assert rows <= rest;
      MatchesLater(rows, rest, id, deeds);
    }
  }

  // ----- One undo script

  /** Undo scripts that make no directory: a row or none, then at most one call, then a row. */
  predicate OneShot(e: Entry, m: Script) {
    (m.prep == [] || m.prep == [UndoRow(e, UndoPlanned)])
    && (m.act == [] || m.act == [UndoRow(e, Undone)]
        || (|m.act| == 2 && m.act[0].Sys? && m.act[1] == UndoRow(e, Undone)))
  }

  /** The tree a one-shot script leads to when it is not cut. */
  function FullTree(s: State, m: Script): Tree
    requires |m.act| == 2 ==> m.act[0].Sys?
  {
    if |m.act| == 2 then Effect(s.tree, m.act[0].call, s.clock + |m.prep|) else s.tree
  }

  /** What a cut leaves: the tree untouched or done, undo rows of this operation only. */
  ghost predicate CutState(s: State, e: Entry, m: Script, full: bool, r: State)
    requires OneShot(e, m)
  {
    (r.tree == s.tree || r.tree == FullTree(s, m))
    && (full ==> r.tree == FullTree(s, m))
    && UndoRowsAdded(s.journal, r.journal, e.id)
    && UndoneIds(r.journal) == UndoneIds(s.journal) + if full && m.act != [] then {e.id} else {}
  }

  /** Where a one-shot script can be cut. */
  lemma OneShotCut(s: State, e: Entry, m: Script, n: nat)
    requires OneShot(e, m) && n <= |m.Steps()|
    ensures CutState(s, e, m, n == |m.Steps()|, Do(s, m.Steps()[..n]))
  {
    if n == 0 {
      assert m.Steps()[..0] == [];
      StillState(s, e, m);
    } else if n <= |m.prep| {
      assert m.Steps()[..n] == m.prep;
      PlannedState(s, e, m);
    } else {
      var k := n - |m.prep|;
      assert m.Steps()[..n] == m.prep + m.act[..k];
      DoConcat(s, m.prep, m.act[..k]);
      OneShotAct(s, e, m, k);
    }
  }

  /** Nothing done: a full run only of an empty script. */
  lemma StillState(s: State, e: Entry, m: Script)
    requires OneShot(e, m)
    ensures CutState(s, e, m, m.Steps() == [], Do(s, []))
  {
    assert Do(s, []) == s;
    assert m.Steps() == [] ==> m.act == [];
  }

  /** The undo row written, and nothing else. */
  lemma PlannedState(s: State, e: Entry, m: Script)
    requires OneShot(e, m) && m.prep != []
    ensures CutState(s, e, m, m.act == [], Do(s, m.prep))
  {
    RowsAddOnly(s, m.prep, e);
  }

  lemma OneShotAct(s: State, e: Entry, m: Script, k: nat)
    requires OneShot(e, m) && 1 <= k <= |m.act|
    ensures CutState(s, e, m, k == |m.act|, Do(Do(s, m.prep), m.act[..k]))
  {
    var q := Do(s, m.prep);
    var r := Do(q, m.act[..k]);
    RowsAddOnly(s, m.prep, e);
    ActCut(q, e, m.act, k);
    if k == |m.act| {
      UndoneIdsSnoc(q.journal, UndoRow(e, Undone).entry);
    }
  }

  lemma UndoneIdsSnoc(rows: seq<Entry>, e: Entry)
    ensures UndoneIds(rows + [e]) == UndoneIds(rows) + if e.status.Undone? then {e.id} else {}
  {
    assert forall x :: x in rows + [e] <==> x in rows || x == e;
  }

  lemma ActCut(q: State, e: Entry, act: seq<Step>, k: nat)
    requires act == [UndoRow(e, Undone)] || (|act| == 2 && act[0].Sys? && act[1] == UndoRow(e, Undone))
    requires 1 <= k <= |act|
    ensures var r := Do(q, act[..k]);
            r.tree == (if |act| == 2 then Effect(q.tree, act[0].call, q.clock) else q.tree)
            && r.journal == q.journal + if k == |act| then [UndoRow(e, Undone).entry] else []
  {
    if k == 1 {
      assert act[..1] == [act[0]];
      DoOne(q, act[0]);
    } else {
      assert act[..2] == [act[0], act[1]];
      DoTwo(q, act[0], act[1]);
    }
  }

  lemma RowsAddOnly(s: State, prep: seq<Step>, e: Entry)
    requires prep == [] || prep == [UndoRow(e, UndoPlanned)]
    ensures var q := Do(s, prep);
            q.tree == s.tree && UndoRowsAdded(s.journal, q.journal, e.id) && UndoneIds(q.journal) == UndoneIds(s.journal)
            && q.clock == s.clock + |prep|
  {
    if prep != [] {
      DoOne(s, prep[0]);
    }
  }

  lemma UndoMoveIsOneShot(s: State, e: Entry)
    requires e.from != [] && Parent(e.from) in s.tree
    ensures OneShot(e, UndoMove(s, e))
  {
    assert MkdirSteps(s.tree, Parent(e.from)) == [];
    assert [] + [UndoRow(e, UndoPlanned)] == [UndoRow(e, UndoPlanned)];
  }

  /** After a move its file is there, and the old place is free. */
  lemma MovePlaces(h: Past, j: nat, t: Tree)
    requires h.Valid() && h.Clear() && j < |h.deeds| && MoveLike(h.deeds[j].entry)
    requires Sim(h.strict, t, h.PostTree(j + 1), h.PostId(j + 1), Dirs(h.t1))
    ensures var e := h.deeds[j].entry;
            IsFile(t, e.to) && e.from !in t && e.from != [] && IsDir(t, Parent(e.from)) && !Unsafe(e.from) && !Unsafe(e.to)
  {
    var d := h.deeds[j];
    var e, n, dirs := d.entry, d.entry.id + 1, Dirs(h.t1);
    assert DeedOk(h.strict, d);
    assert SimAt(h.strict, t, d.post, n, dirs, e.to);
    assert IsDir(d.post, Parent(e.from));
    assert SimAt(h.strict, t, d.post, n, dirs, Parent(e.from));
    assert SimAt(h.strict, t, d.post, n, dirs, e.from);
    if LeftFrom(e.from, n) { LeftIsInternal(e.from, n); }
  }

  /** Undoing it then takes the file back. */
  lemma MoveIsReversed(s: State, e: Entry)
    requires WellFormed(s.tree) && IsFile(s.tree, e.to) && e.from !in s.tree && e.from != [] && IsDir(s.tree, Parent(e.from))
    requires !Unsafe(e.from) && !Unsafe(e.to)
    ensures var m, u := UndoMove(s, e), (s.tree - {e.to})[e.from := s.tree[e.to]];
            OneShot(e, m) && m.out.Done? && |m.act| == 2 && FullTree(s, m) == u && WellFormed(u)
  {
    UndoMoveIsOneShot(s, e);
    NotBelowFile(s.tree, e.to, e.from);
    Relocation(s.tree, e.to, e.from);
  }

  lemma InvertMove(h: Past, j: nat, s: State)
    requires h.Valid() && h.Clear() && j < |h.deeds| && MoveLike(h.deeds[j].entry)
    requires Sim(h.strict, s.tree, h.PostTree(j + 1), h.PostId(j + 1), Dirs(h.t1))
    ensures var m := UndoMove(s, h.deeds[j].entry);
            OneShot(h.deeds[j].entry, m) && m.out.Done? && |m.act| == 2
            && Sim(h.strict, FullTree(s, m), h.PreTree(j), h.PreId(j), Dirs(h.t1))
  {
    var e := h.deeds[j].entry;
    MovePlaces(h, j, s.tree);
    MoveIsReversed(s, e);
    assert DeedOk(h.strict, h.deeds[j]);
    MovedBackSim(h.strict, s.tree, h.deeds[j], Dirs(h.t1));
  }

  /** With its file back, the tree stands for the one before the move. */
  lemma MovedBackSim(strict: bool, t: Tree, d: Deed, dirs: set<Path>)
    requires DeedOk(strict, d) && MoveLike(d.entry) && Sim(strict, t, d.post, d.entry.id + 1, dirs)
    requires IsFile(t, d.entry.to) && d.entry.from !in t && WellFormed((t - {d.entry.to})[d.entry.from := t[d.entry.to]])
    ensures Sim(strict, (t - {d.entry.to})[d.entry.from := t[d.entry.to]], d.pre, d.entry.id + 1, dirs)
  {
    var e, n := d.entry, d.entry.id + 1;
    var u := (t - {e.to})[e.from := t[e.to]];
    NotLeft(e.id, n);
    assert SimAt(strict, t, d.post, n, dirs, e.to);
    forall p
      ensures SimAt(strict, u, d.pre, n, dirs, p)
    {
      assert SimAt(strict, t, d.post, n, dirs, p);
    }
  }

  lemma InvertCreateFile(h: Past, j: nat, s: State)
    requires h.Valid() && h.Clear() && j < |h.deeds| && h.deeds[j].entry.action.CreateFile?
    requires Sim(h.strict, s.tree, h.PostTree(j + 1), h.PostId(j + 1), Dirs(h.t1))
    ensures var m := UndoCreateFile(s, h.deeds[j].entry);
            OneShot(h.deeds[j].entry, m) && m.out.Done? && |m.act| == 2
            && Sim(h.strict, FullTree(s, m), h.PreTree(j), h.PreId(j), Dirs(h.t1))
  {
    var d := h.deeds[j];
    var e, t, n, dirs := d.entry, s.tree, d.entry.id + 1, Dirs(h.t1);
    assert DeedOk(h.strict, d);
    assert SimAt(h.strict, t, d.post, n, dirs, e.to);
    EffectKeepsWellFormed(t, Remove(e.to), 0);
    forall p
      ensures SimAt(h.strict, t - {e.to}, d.pre, n, dirs, p)
    {
      assert SimAt(h.strict, t, d.post, n, dirs, p);
    }
  }

  /** Removing an empty directory that t does not have. */
  lemma RmdirSim(strict: bool, u: Tree, t: Tree, n: nat, dirs: set<Path>, p: Path)
    requires Sim(strict, u, t, n, dirs) && Enabled(u, Rmdir(p)) && !IsDir(t, p)
    ensures Sim(strict, u - {p}, t, n, dirs)
  {
    EffectKeepsWellFormed(u, Rmdir(p), 0);
    forall q
      ensures SimAt(strict, u - {p}, t, n, dirs, q)
    {
      assert SimAt(strict, u, t, n, dirs, q);
    }
  }

  /** Undoing a directory creation never hurts a tree that does without that directory. */
  lemma AbsorbCreateDir(strict: bool, e: Entry, s: State, t: Tree, n: nat, dirs: set<Path>)
    requires Sim(strict, s.tree, t, n, dirs) && !IsDir(t, e.to)
    ensures var m := UndoCreateDir(s, e);
            OneShot(e, m) && !m.out.Failed? && Sim(strict, FullTree(s, m), t, n, dirs)
  {
    var m := UndoCreateDir(s, e);
    if |m.act| == 2 {
      RmdirSim(strict, s.tree, t, n, dirs, e.to);
    }
  }

  lemma InvertCreateDir(h: Past, j: nat, s: State)
    requires h.Valid() && j < |h.deeds| && h.deeds[j].entry.action.CreateDir?
    requires Sim(h.strict, s.tree, h.PostTree(j + 1), h.PostId(j + 1), Dirs(h.t1))
    ensures Sim(h.strict, s.tree, h.PreTree(j), h.PreId(j), Dirs(h.t1)) && !IsDir(h.PreTree(j), h.deeds[j].entry.to)
  {
    var d := h.deeds[j];
    var n := d.entry.id + 1;
    assert DeedOk(h.strict, d);
    forall p
      ensures SimAt(h.strict, s.tree, d.pre, n, Dirs(h.t1), p)
    {
      assert SimAt(h.strict, s.tree, d.post, n, Dirs(h.t1), p);
    }
  }

  /** The write of README.md is taken back, also when that had already happened. */
  lemma InvertReadme(h: Past, j: nat, s: State, t: Tree)
    requires h.Valid() && h.Clear() && j < |h.deeds| && h.deeds[j].entry.action.ReadmeWrite?
    requires t == h.PreTree(j) || t == h.PostTree(j + 1)
    requires Sim(h.strict, s.tree, t, h.PreId(j), Dirs(h.t1))
    ensures var m := UndoReadme(s, h.deeds[j].entry);
            OneShot(h.deeds[j].entry, m) && m.out.Done? && m.act != []
            && Sim(h.strict, FullTree(s, m), h.PreTree(j), h.PreId(j), Dirs(h.t1))
  {
    var d := h.deeds[j];
    var e, u, n, dirs := d.entry, s.tree, d.entry.id + 1, Dirs(h.t1);
    assert DeedOk(h.strict, d);
    ReadmeBackups(h, j, u, t);
    TargetsClear(h, j);
    assert SimAt(h.strict, u, t, n, dirs, README);
    assert Parent(README) == [];
    if LeftFrom(README, n) { LeftIsInternal(README, n); }
    var m := UndoReadme(s, e);
    if |m.act| == 2 {
      EffectKeepsWellFormed(u, m.act[0].call, s.clock + 1);
    }
    var v := FullTree(s, m);
    forall p
      ensures SimAt(h.strict, v, d.pre, n, dirs, p)
    {
      assert SimAt(h.strict, u, t, n, dirs, p);
    }
  }

  /** Undo finds the keepsake that the write made, and only that one. */
  lemma ReadmeBackups(h: Past, j: nat, u: Tree, t: Tree)
    requires h.Valid() && j < |h.deeds| && h.deeds[j].entry.action.ReadmeWrite?
    requires t == h.deeds[j].pre || t == h.deeds[j].post
    requires Sim(h.strict, u, t, h.PreId(j), Dirs(h.t1))
    ensures var e, pre := h.deeds[j].entry, h.deeds[j].pre;
            WithAbsent(e.from) == Absent(e.id)
            && (IsFile(pre, README) ==> IsFile(u, e.from) && u[e.from].content == pre[README].content)
            && (!IsFile(pre, README) ==> e.from !in u && IsFile(u, WithAbsent(e.from)))
  {
    var d := h.deeds[j];
    var e, n := d.entry, d.entry.id + 1;
    assert DeedOk(h.strict, d);
    AbsentOfBackup(e.id);
    NotLeft(e.id, n);
    assert |README| == 1 && |Backup(e.id)| == 3 && |Absent(e.id)| == 3;
    assert SimAt(h.strict, u, t, n, Dirs(h.t1), e.from);
    assert SimAt(h.strict, u, t, n, Dirs(h.t1), Absent(e.id));
    if !IsFile(d.pre, README) {
      assert IsFile(t, Absent(e.id)) && !IsFile(t, Backup(e.id));
      if IsDir(u, e.from) {
        KeepsakesStay(h, j, e.from);
      }
    }
  }

  /** From the tree after a deed, undo restores the tree before it, or has not yet touched it. */
  lemma Invert(h: Past, j: nat, s: State, undone: set<nat>)
    requires h.Valid() && h.Clear() && j < |h.deeds|
    requires Sim(h.strict, s.tree, h.PostTree(j + 1), h.PostId(j + 1), Dirs(h.t1))
    requires h.deeds[j].entry.id !in undone
    ensures var e := h.deeds[j].entry; var m := UndoScript(s, e, undone, None);
            OneShot(e, m) && !m.out.Failed? && (!e.action.CreateDir? ==> m.act != [])
            && Sim(h.strict, FullTree(s, m), h.PreTree(j), h.PreId(j), Dirs(h.t1))
  {
    var e := h.deeds[j].entry;
    assert DeedOk(h.strict, h.deeds[j]);
    match e.action {
      case CreateFile => InvertCreateFile(h, j, s);
      case CreateDir =>
        InvertCreateDir(h, j, s);
        AbsorbCreateDir(h.strict, e, s, h.PreTree(j), h.PreId(j), Dirs(h.t1));
      case ReadmeWrite => InvertReadme(h, j, s, h.PostTree(j + 1));
      case _ => InvertMove(h, j, s);
    }
  }

  /** From the tree before a deed, undoing it once more changes nothing that matters. */
  lemma Absorb(h: Past, j: nat, s: State, undone: set<nat>)
    requires h.Valid() && h.Clear() && j < |h.deeds|
    requires Sim(h.strict, s.tree, h.PreTree(j), h.PreId(j), Dirs(h.t1))
    requires h.deeds[j].entry.id !in undone
    ensures var e := h.deeds[j].entry; var m := UndoScript(s, e, undone, None);
            OneShot(e, m) && !m.out.Failed? && (!e.action.CreateDir? ==> m.act != [])
            && Sim(h.strict, FullTree(s, m), h.PreTree(j), h.PreId(j), Dirs(h.t1))
  {
    var d := h.deeds[j];
    var e, t, n, dirs := d.entry, s.tree, d.entry.id + 1, Dirs(h.t1);
    assert DeedOk(h.strict, d);
    if e.action.CreateDir? {
      AbsorbCreateDir(h.strict, e, s, h.PreTree(j), h.PreId(j), dirs);
    } else if e.action.ReadmeWrite? {
      InvertReadme(h, j, s, h.PreTree(j));
    } else {
      TargetsClear(h, j);
      NotLeft(e.id, n);
      if LeftFrom(e.to, n) { LeftIsInternal(e.to, n); }
      assert SimAt(h.strict, t, d.pre, n, dirs, e.to);
      assert SimAt(h.strict, t, d.pre, n, dirs, e.from);
      assert e.to !in t;
    }
  }

  // ----- The undo loop

  /**
   The first l deeds still stand: the tree stands for the one right before deed l. Deed l itself may
   have been reversed without its Undone row; everything later has one. Directory creations are the
   exception, undo leaves out those that are not empty.
   */
  ghost predicate Reversed(h: Past, s: State, l: nat)
    requires l <= |h.deeds|
  {
    Matches(s.journal, h.deeds)
    && Sim(h.strict, s.tree, h.PreTree(l), h.PreId(l), Dirs(h.t1))
    && (forall i :: 0 <= i < l ==> h.deeds[i].entry.id !in UndoneIds(s.journal))
    && Marked(h, s, l + 1)
  }

  /** From deed j on, every operation but directory creations has an Undone row. */
  ghost predicate Marked(h: Past, s: State, j: nat) {
    forall i :: j <= i < |h.deeds| && !h.deeds[i].entry.action.CreateDir? ==> h.deeds[i].entry.id in UndoneIds(s.journal)
  }

  /** The operation has an Undone row, or it made a directory that is still there and is not empty. */
  predicate Reverted(e: Entry, s: State) {
    e.id in UndoneIds(s.journal) || (e.action.CreateDir? && IsDir(s.tree, e.to) && HasChild(s.tree, e.to))
  }

  /** From deed j on, every operation is taken back as far as it can be. */
  predicate AllReverted(h: Past, s: State, j: nat) {
    forall i :: j <= i < |h.deeds| ==> Reverted(h.deeds[i].entry, s)
  }

  /** What an undo script takes away is no more than the place its operation made. */
  lemma LosesOnlyTarget(s: State, e: Entry, undone: set<nat>)
    requires WellFormed(s.tree) && e.status.Executed? && (MoveLike(e) ==> !IsDir(s.tree, e.to)) && (e.action.ReadmeWrite? ==> e.to == README)
    requires OneShot(e, UndoScript(s, e, undone, None))
    ensures var u := FullTree(s, UndoScript(s, e, undone, None));
            forall p :: p in s.tree && p != e.to ==> p in u && (IsDir(s.tree, p) ==> IsDir(u, p))
  {
    var m := UndoScript(s, e, undone, None);
    if MoveLike(e) && |m.act| == 2 {
      MovedFile(s.tree, e.to, e.from);
    }
  }

  /** A directory that a deed makes and later deeds keep is none of the places made before it. */
  lemma MadeOnce(h: Past, d: nat, i: nat)
    requires h.Valid() && h.Clear() && d < i < |h.deeds| && h.deeds[i].entry.action.CreateDir?
    ensures h.deeds[d].entry.to != h.deeds[i].entry.to && Parent(h.deeds[d].entry.to) != h.deeds[i].entry.to
  {
    var a, b := h.deeds[d].entry, h.deeds[i].entry;
    assert DeedOk(h.strict, h.deeds[d]) && DeedOk(h.strict, h.deeds[i]);
    assert h.Linked(d + 1);
    if IsDir(h.PostTree(d + 1), b.to) {
      DirsStay(h, d + 1, i, b.to);
    }
    MadeStays(h, i);
    assert IsDir(h.PreTree(|h.deeds|), b.to);
    if !a.action.CreateDir? {
      TargetsClear(h, d);
    }
  }

  lemma MadeStays(h: Past, i: nat)
    requires h.Valid() && i < |h.deeds| && h.deeds[i].entry.action.CreateDir?
    ensures forall l :: i < l <= |h.deeds| ==> IsDir(h.PreTree(l), h.deeds[i].entry.to)
  {
    assert DeedOk(h.strict, h.deeds[i]) && h.Linked(i + 1);
    forall l | i < l <= |h.deeds|
      ensures IsDir(h.PreTree(l), h.deeds[i].entry.to)
    {
      DirsStay(h, i + 1, l, h.deeds[i].entry.to);
    }
  }

  /** No file takes the place of a directory that a deed made. */
  lemma MadeIsNoFile(h: Past, s: State, l: nat, d: nat)
    requires h.Valid() && h.Clear() && l <= |h.deeds| && d < |h.deeds| && h.deeds[d].entry.action.CreateDir?
    requires Sim(h.strict, s.tree, h.PreTree(l), h.PreId(l), Dirs(h.t1))
    ensures !IsFile(s.tree, h.deeds[d].entry.to)
  {
    var p := h.deeds[d].entry.to;
    assert DeedOk(h.strict, h.deeds[d]);
    MadeStays(h, d);
    assert IsDir(h.PreTree(|h.deeds|), p) && (l > d ==> IsDir(h.PreTree(l), p));
    if IsFile(s.tree, p) {
      assert SimAt(h.strict, s.tree, h.PreTree(l), h.PreId(l), Dirs(h.t1), p);
      if LeftFrom(p, h.PreId(l)) { LeftIsInternal(p, h.PreId(l)); }
      assert l <= d && h.Linked(l);
      if LeftFrom(p, h.PostId(l)) { LeftIsInternal(p, h.PostId(l)); }
      FilesStay(h, l, d, p);
    }
  }

  /** A full turn of the undo loop reverts its operation, and leaves the later ones reverted. */
  lemma TurnReverts(h: Past, s: State, undone: set<nat>, l: nat, d: nat, r: State)
    requires h.Valid() && h.Clear() && l <= d + 1 && d < |h.deeds| && Reversed(h, s, l) && AllReverted(h, s, d + 1) && Marked(h, s, d + 1)
    requires undone <= UndoneIds(s.journal) && (h.deeds[d].entry.id in UndoneIds(s.journal) && l <= d ==> h.deeds[d].entry.id in undone)
    requires r == Do(s, UndoScript(s, h.deeds[d].entry, undone, None).Steps())
    ensures AllReverted(h, r, d)
  {
    var e, m := h.deeds[d].entry, UndoScript(s, h.deeds[d].entry, undone, None);
    assert DeedOk(h.strict, h.deeds[d]);
    if e.id in undone {
      assert r == s;
    } else {
      TurnTree(h, s, undone, l, d);
      assert m.Steps()[..|m.Steps()|] == m.Steps();
      OneShotCut(s, e, m, |m.Steps()|);
      TurnRevertsOwn(h, s, undone, l, d, r);
      TurnRevertsLater(h, s, undone, l, d, r);
    }
  }

  lemma TurnRevertsOwn(h: Past, s: State, undone: set<nat>, l: nat, d: nat, r: State)
    requires h.Valid() && h.Clear() && l <= d + 1 && d < |h.deeds| && Reversed(h, s, l) && h.deeds[d].entry.id !in undone
    requires var m := UndoScript(s, h.deeds[d].entry, undone, None);
             OneShot(h.deeds[d].entry, m) && !m.out.Failed? && (!h.deeds[d].entry.action.CreateDir? ==> m.act != [])
             && CutState(s, h.deeds[d].entry, m, true, r)
    ensures Reverted(h.deeds[d].entry, r)
  {
    var e := h.deeds[d].entry;
    assert DeedOk(h.strict, h.deeds[d]);
    if e.action.CreateDir? {
      MadeIsNoFile(h, s, l, d);
    }
  }

  lemma TurnRevertsLater(h: Past, s: State, undone: set<nat>, l: nat, d: nat, r: State)
    requires h.Valid() && h.Clear() && l <= d + 1 && d < |h.deeds| && Reversed(h, s, l) && AllReverted(h, s, d + 1)
    requires var m := UndoScript(s, h.deeds[d].entry, undone, None);
             OneShot(h.deeds[d].entry, m) && CutState(s, h.deeds[d].entry, m, true, r)
    ensures AllReverted(h, r, d + 1)
  {
    var e := h.deeds[d].entry;
    assert DeedOk(h.strict, h.deeds[d]);
    if MoveLike(e) {
      TargetsClear(h, d);
      assert SimAt(h.strict, s.tree, h.PreTree(l), h.PreId(l), Dirs(h.t1), e.to);
    }
    LosesOnlyTarget(s, e, undone);
    forall i | d + 1 <= i < |h.deeds|
      ensures Reverted(h.deeds[i].entry, r)
    {
      var f := h.deeds[i].entry;
      assert Reverted(f, s);
      if f.id !in UndoneIds(s.journal) {
        MadeOnce(h, d, i);
        var c :| c in s.tree && c != [] && Parent(c) == f.to;
        assert c in r.tree;
      }
    }
  }

  /** One row of the undo loop at deed j - 1, cut or not. */
  lemma UndoTurn(h: Past, s: State, undone: set<nat>, l: nat, j: nat, n: nat) returns (k: nat)
    requires h.Valid() && h.Clear() && l <= j <= |h.deeds| && j > 0
    requires Reversed(h, s, l) && Marked(h, s, j) && undone <= UndoneIds(s.journal)
    requires l <= j - 1 && h.deeds[j - 1].entry.id in UndoneIds(s.journal) ==> h.deeds[j - 1].entry.id in undone
    requires n <= |UndoScript(s, h.deeds[j - 1].entry, undone, None).Steps()|
    ensures var m := UndoScript(s, h.deeds[j - 1].entry, undone, None); var r := Do(s, m.Steps()[..n]);
            !m.out.Failed? && k <= l && (k < l ==> k == j - 1) && Reversed(h, r, k)
            && (n == |m.Steps()| ==> k <= j - 1 && Marked(h, r, j - 1) && undone <= UndoneIds(r.journal))
            && UndoRowsAdded(s.journal, r.journal, h.deeds[j - 1].entry.id)
  {
    var d := j - 1;
    var e, m := h.deeds[d].entry, UndoScript(s, h.deeds[d].entry, undone, None);
    var r := Do(s, m.Steps()[..n]);
    assert DeedOk(h.strict, h.deeds[d]);
    k := l;
    if e.id in undone {
      assert n == 0 && r == s;
    } else {
      TurnTree(h, s, undone, l, d);
      OneShotCut(s, e, m, n);
      MatchesLater(s.journal, r.journal, e.id, h.deeds);
      if d < l && r.tree == FullTree(s, m) {
        k := d;
      }
      IdsDiffer(h, d);
    }
  }

  /** The script of a row takes the tree one deed back, or has nothing to take back. */
  lemma TurnTree(h: Past, s: State, undone: set<nat>, l: nat, d: nat)
    requires h.Valid() && h.Clear() && l <= d + 1 && d < |h.deeds| && Reversed(h, s, l) && Marked(h, s, d + 1)
    requires undone <= UndoneIds(s.journal) && h.deeds[d].entry.id !in undone
    requires l <= d && h.deeds[d].entry.id in UndoneIds(s.journal) ==> h.deeds[d].entry.id in undone
    ensures var e := h.deeds[d].entry; var m := UndoScript(s, e, undone, None); var k := if d < l then d else l;
            OneShot(e, m) && !m.out.Failed? && (!e.action.CreateDir? ==> m.act != [])
            && Sim(h.strict, FullTree(s, m), h.PreTree(k), h.PreId(k), Dirs(h.t1))
  {
    if d < l {
      assert h.Linked(l);
      SimDescends(h.strict, s.tree, h.PreTree(l), h.PreId(l), h.PostTree(l), h.PostId(l), Dirs(h.t1));
      Invert(h, d, s, undone);
    } else if d == l {
      Absorb(h, d, s, undone);
    } else {
      assert DeedOk(h.strict, h.deeds[d]);
      DeedDirIsNew(h, l, d);
      AbsorbCreateDir(h.strict, h.deeds[d].entry, s, h.PreTree(l), h.PreId(l), Dirs(h.t1));
    }
  }

  lemma IdsDiffer(h: Past, d: nat)
    requires h.Valid() && d < |h.deeds|
    ensures forall i :: 0 <= i < |h.deeds| && i != d ==> h.deeds[i].entry.id != h.deeds[d].entry.id
  {
    forall i | 0 <= i < |h.deeds| && i != d
      ensures h.deeds[i].entry.id != h.deeds[d].entry.id
    {
      if i < d { IdsIncrease(h, i, d); } else { IdsIncrease(h, d, i); }
    }
  }

  /** A created directory was not there when earlier deeds happened. */
  lemma DeedDirIsNew(h: Past, l: nat, d: nat)
    requires h.Valid() && l <= d < |h.deeds| && h.deeds[d].entry.action.CreateDir?
    ensures !IsDir(h.PreTree(l), h.deeds[d].entry.to)
  {
    assert DeedOk(h.strict, h.deeds[d]);
    if IsDir(h.PreTree(l), h.deeds[d].entry.to) {
      DirsStay(h, l, d, h.deeds[d].entry.to);
    }
  }

  lemma UndoJobsTail(rows: seq<Entry>, undone: set<nat>, only: Option<nat>)
    requires rows != []
    ensures var jobs := UndoJobs(rows, undone, only);
            jobs[0] == Reverse(rows[|rows| - 1], undone, only) && jobs[1..] == UndoJobs(rows[..|rows| - 1], undone, only)
  {
  }

  /** The first turn of the loop over `rows`. */
  lemma RunUndoTurn(s: State, rows: seq<Entry>, undone: set<nat>, fuel: nat)
    requires rows != []
    ensures var m := UndoScript(s, rows[|rows| - 1], undone, None);
            var r := RunJobs(s, UndoJobs(rows, undone, None), fuel);
            if fuel < |m.Steps()| then r.end.Crashed? && r.s == Do(s, m.Steps()[..fuel])
            else m.out.Failed? || var rest := RunJobs(Do(s, m.Steps()), UndoJobs(rows[..|rows| - 1], undone, None), fuel - |m.Steps()|);
                                  r.s == rest.s && r.end == rest.end
  {
    UndoJobsTail(rows, undone, None);
  }

  /** The loop over the rows that are left, with the first j deeds still to come. */
  lemma {:induction false} UndoLoop(h: Past, s: State, rows: seq<Entry>, undone: set<nat>, l: nat, j: nat, fuel: nat) returns (k: nat)
    requires h.Valid() && h.Clear() && l <= j <= |h.deeds| && Matches(rows, h.deeds[..j])
    requires Reversed(h, s, l) && Marked(h, s, j) && undone <= UndoneIds(s.journal)
    requires AllReverted(h, s, j)
    requires forall i :: l <= i < j && h.deeds[i].entry.id in UndoneIds(s.journal) ==> h.deeds[i].entry.id in undone
    ensures var r := RunJobs(s, UndoJobs(rows, undone, None), fuel);
            !r.end.Stopped? && k <= l && Reversed(h, r.s, k) && (r.end.Finished? ==> k == 0 && AllReverted(h, r.s, 0))
    decreases |rows|
  {
    if rows == [] {
      k := l;
    } else {
      var last, rest := rows[|rows| - 1], rows[..|rows| - 1];
      RunUndoTurn(s, rows, undone, fuel);
      if !last.status.Executed? {
        var steps := UndoScript(s, last, undone, None).Steps();
        assert steps == [] && Do(s, steps) == s;
        k := UndoLoop(h, s, rest, undone, l, j, fuel);
      } else {
        assert last == h.deeds[j - 1].entry;
        assert h.deeds[..j][..j - 1] == h.deeds[..j - 1];
        k := UndoExecuted(h, s, rest, last, undone, l, j, fuel);
      }
    }
  }

  lemma {:induction false} UndoExecuted(h: Past, s: State, rest: seq<Entry>, last: Entry, undone: set<nat>, l: nat, j: nat, fuel: nat)
      returns (k: nat)
    requires h.Valid() && h.Clear() && 0 < j <= |h.deeds| && l <= j && Matches(rest, h.deeds[..j - 1]) && last == h.deeds[j - 1].entry
    requires Reversed(h, s, l) && Marked(h, s, j) && undone <= UndoneIds(s.journal)
    requires AllReverted(h, s, j)
    requires forall i :: l <= i < j && h.deeds[i].entry.id in UndoneIds(s.journal) ==> h.deeds[i].entry.id in undone
    ensures var m := UndoScript(s, last, undone, None);
            if fuel < |m.Steps()| then k <= l && Reversed(h, Do(s, m.Steps()[..fuel]), k)
            else
              var r := RunJobs(Do(s, m.Steps()), UndoJobs(rest, undone, None), fuel - |m.Steps()|);
              !m.out.Failed? && !r.end.Stopped? && k <= l && Reversed(h, r.s, k) && (r.end.Finished? ==> k == 0 && AllReverted(h, r.s, 0))
    decreases |rest| + 1, 0
  {
    var steps := UndoScript(s, last, undone, None).Steps();
    if fuel < |steps| {
      k := UndoTurn(h, s, undone, l, j, fuel);
    } else {
      var r := Do(s, steps);
      k := UndoFullTurn(h, s, undone, l, j, r);
      TurnReverts(h, s, undone, l, j - 1, r);
      k := UndoLoop(h, r, rest, undone, k, j - 1, fuel - |steps|);
    }
  }

  lemma UndoFullTurn(h: Past, s: State, undone: set<nat>, l: nat, j: nat, r: State) returns (k: nat)
    requires h.Valid() && h.Clear() && l <= j <= |h.deeds| && j > 0
    requires Reversed(h, s, l) && Marked(h, s, j) && undone <= UndoneIds(s.journal)
    requires forall i :: l <= i < j && h.deeds[i].entry.id in UndoneIds(s.journal) ==> h.deeds[i].entry.id in undone
    requires r == Do(s, UndoScript(s, h.deeds[j - 1].entry, undone, None).Steps())
    ensures !UndoScript(s, h.deeds[j - 1].entry, undone, None).out.Failed?
    ensures k <= l && k <= j - 1 && Reversed(h, r, k) && Marked(h, r, j - 1) && undone <= UndoneIds(r.journal)
    ensures forall i :: k <= i < j - 1 && h.deeds[i].entry.id in UndoneIds(r.journal) ==> h.deeds[i].entry.id in undone
  {
    var steps := UndoScript(s, h.deeds[j - 1].entry, undone, None).Steps();
    assert steps[..|steps|] == steps;
    k := UndoTurn(h, s, undone, l, j, |steps|);
    SnapshotStays(h, s, undone, l, j, r, k);
  }

  lemma SnapshotStays(h: Past, s: State, undone: set<nat>, l: nat, j: nat, r: State, k: nat)
    requires h.Valid() && 0 < j <= |h.deeds| && UndoRowsAdded(s.journal, r.journal, h.deeds[j - 1].entry.id)
    requires k <= l && (k < l ==> k == j - 1)
    requires forall i :: l <= i < j && h.deeds[i].entry.id in UndoneIds(s.journal) ==> h.deeds[i].entry.id in undone
    ensures forall i :: k <= i < j - 1 && h.deeds[i].entry.id in UndoneIds(r.journal) ==> h.deeds[i].entry.id in undone
  {
    OnlyOneMarked(h, s, r, j - 1);
  }

  lemma OnlyOneMarked(h: Past, s: State, r: State, d: nat)
    requires h.Valid() && d < |h.deeds| && UndoRowsAdded(s.journal, r.journal, h.deeds[d].entry.id)
    ensures forall i :: 0 <= i < |h.deeds| && i != d && h.deeds[i].entry.id in UndoneIds(r.journal) ==>
              h.deeds[i].entry.id in UndoneIds(s.journal)
  {
    IdsDiffer(h, d);
    forall i | 0 <= i < |h.deeds| && i != d && h.deeds[i].entry.id in UndoneIds(r.journal)
      ensures h.deeds[i].entry.id in UndoneIds(s.journal)
    {
      var e :| e in r.journal && e.status.Undone? && e.id == h.deeds[i].entry.id;
      var x :| 0 <= x < |r.journal| && r.journal[x] == e;
      assert x < |s.journal| && s.journal[x] == e;
    }
  }

  /** One undo command, from wherever an earlier one was cut. */
  lemma UndoOnce(h: Past, s: State, l: nat, fuel: nat) returns (k: nat)
    requires h.Valid() && h.Clear() && l <= |h.deeds| && Reversed(h, s, l)
    ensures var r := RunCommand(s, Undo(None), fuel);
            !r.end.Stopped? && k <= l && Reversed(h, r.s, k) && (r.end.Finished? ==> k == 0 && AllReverted(h, r.s, 0))
  {
    assert h.deeds[..|h.deeds|] == h.deeds;
    k := UndoLoop(h, s, s.journal, UndoneIds(s.journal), l, |h.deeds|, fuel);
  }

  // ----- Undo started over after crashes

  /** Undo runs in a row, each with power for so many steps. */
  function UndoAgain(s: State, fuels: seq<nat>): State {
    if fuels == [] then s else RunCommand(UndoAgain(s, fuels[..|fuels| - 1]), Undo(None), fuels[|fuels| - 1]).s
  }

  lemma {:induction false} UndoManyTimes(h: Past, s: State, fuels: seq<nat>) returns (l: nat)
    requires h.Valid() && h.Clear() && Reversed(h, s, |h.deeds|)
    ensures l <= |h.deeds| && Reversed(h, UndoAgain(s, fuels), l)
  {
    if fuels == [] {
      l := |h.deeds|;
    } else {
      var k := UndoManyTimes(h, s, fuels[..|fuels| - 1]);
      l := UndoOnce(h, UndoAgain(s, fuels[..|fuels| - 1]), k, fuels[|fuels| - 1]);
    }
  }

  /** The state at the end of a past whose journal nobody has undone from yet. */
  ghost predicate Untouched(h: Past, s: State) {
    s.tree == h.t1 && WellFormed(s.tree) && Matches(s.journal, h.deeds) && UndoneIds(s.journal) == {}
  }

  lemma UntouchedIsReversed(h: Past, s: State)
    requires h.Valid() && Untouched(h, s)
    ensures Reversed(h, s, |h.deeds|)
  {
    var dirs := Dirs(h.t1);
    forall p
      ensures SimAt(h.strict, s.tree, h.t1, h.n1, dirs, p)
    {
    }
  }

  /**
   Undo converges: however often it is cut short, a run that gets to its end leaves exactly the user
   files of the beginning, and every operation has an Undone row but for created directories that are
   still there because they are not empty.
   */
  lemma {:induction false} UndoConverges(h: Past, s: State, fuels: seq<nat>, fuel: nat)
    requires h.Valid() && h.Clear() && Untouched(h, s)
    ensures var r := RunCommand(UndoAgain(s, fuels), Undo(None), fuel);
            !r.end.Stopped?
            && (r.end.Finished? ==>
                SameUserFiles(h.strict, h.t0, r.s.tree) && (forall d :: d in h.deeds ==> Reverted(d.entry, r.s))
                && (forall p :: IsDir(h.t0, p) ==> IsDir(r.s.tree, p)))
  {
    UntouchedIsReversed(h, s);
    var l := UndoManyTimes(h, s, fuels);
    var k := UndoOnce(h, UndoAgain(s, fuels), l, fuel);
    var r := RunCommand(UndoAgain(s, fuels), Undo(None), fuel);
    if r.end.Finished? {
      assert h.Linked(0);
      SimDescends(h.strict, r.s.tree, h.PreTree(0), h.PreId(0), h.t0, h.n0, Dirs(h.t1));
      SimSameUserFiles(h.strict, r.s.tree, h.t0, h.n0, Dirs(h.t1));
      forall p | IsDir(h.t0, p) ensures IsDir(r.s.tree, p) {
        assert SimAt(h.strict, r.s.tree, h.t0, h.n0, Dirs(h.t1), p);
      }
    }
  }

  // ----- Undo after undo

  /** Whatever the journal and the tree: undo appends no row for an operation that has an Undone row. */
  lemma UndoneStayUntouched(s: State, only: Option<nat>, fuel: nat)
    ensures var r := RunCommand(s, Undo(only), fuel).s;
            s.journal <= r.journal && forall i :: |s.journal| <= i < |r.journal| ==> r.journal[i].id !in UndoneIds(s.journal)
  {
    var undone := UndoneIds(s.journal);
    var jobs := UndoJobs(s.journal, undone, only);
    forall r: State, j: Job, n: nat | OthersAdded(s.journal, undone, r.journal) && j in jobs && n <= |ScriptOf(r, j).Steps()|
      ensures OthersAdded(s.journal, undone, Do(r, ScriptOf(r, j).Steps()[..n]).journal)
    {
      UndoneIsIgnored(s.journal, r, j.entry, undone, only, n);
    }
    RunPreserves(s, jobs, fuel, (r: State) => OthersAdded(s.journal, undone, r.journal));
  }

  /** `later` continues `rows` with rows of operations not in `undone`. */
  predicate OthersAdded(rows: seq<Entry>, undone: set<nat>, later: seq<Entry>) {
    rows <= later && forall i :: |rows| <= i < |later| ==> later[i].id !in undone
  }

  lemma UndoneIsIgnored(rows: seq<Entry>, r: State, e: Entry, undone: set<nat>, only: Option<nat>, n: nat)
    requires OthersAdded(rows, undone, r.journal) && n <= |UndoScript(r, e, undone, only).Steps()|
    ensures OthersAdded(rows, undone, Do(r, UndoScript(r, e, undone, only).Steps()[..n]).journal)
  {
    var steps := UndoScript(r, e, undone, only).Steps();
    if steps == [] {
      assert Do(r, []) == r;
    } else {
      UndoScriptRows(r, e, undone, only);
      RowsOfPrefix(steps, n);
      DoJournal(r, steps[..n]);
      assert e.id !in undone;
      UndoRowsPrefix(e, RowsOf(steps), RowsOf(steps[..n]));
    }
  }

  /** Where every executed operation is reverted, undo gets to its end without a step. */
  lemma {:induction false} NothingLeft(s: State, rows: seq<Entry>, undone: set<nat>, fuel: nat)
    requires undone == UndoneIds(s.journal) && forall e :: e in rows && e.status.Executed? ==> Reverted(e, s)
    ensures var r := RunJobs(s, UndoJobs(rows, undone, None), fuel);
            r.end.Finished? && r.s == s
    decreases |rows|
  {
    if rows != [] {
      var last := rows[|rows| - 1];
      RunUndoTurn(s, rows, undone, fuel);
      assert last in rows;
      assert UndoScript(s, last, undone, None).Steps() == [] && Do(s, []) == s;
      NothingLeft(s, rows[..|rows| - 1], undone, fuel);
    }
  }

  lemma {:induction false} ExecutedIsDeed(rows: seq<Entry>, deeds: seq<Deed>, e: Entry) returns (j: nat)
    requires Matches(rows, deeds) && e in rows && e.status.Executed?
    ensures j < |deeds| && deeds[j].entry == e
    decreases |rows|
  {
    var last, rest := rows[|rows| - 1], rows[..|rows| - 1];
    if e == last {
      j := |deeds| - 1;
    } else if last.status.Executed? {
      j := ExecutedIsDeed(rest, deeds[..|deeds| - 1], e);
    } else {
      j := ExecutedIsDeed(rest, deeds, e);
    }
  }

  /** When undo has got to its end, another one changes nothing. */
  lemma UndoOnceMore(h: Past, s: State, fuels: seq<nat>, fuel: nat, again: nat)
    requires h.Valid() && h.Clear() && Untouched(h, s)
    ensures var r := RunCommand(UndoAgain(s, fuels), Undo(None), fuel);
            r.end.Finished? ==> RunCommand(r.s, Undo(None), again).end.Finished? && RunCommand(r.s, Undo(None), again).s == r.s
  {
    UntouchedIsReversed(h, s);
    var l := UndoManyTimes(h, s, fuels);
    var k := UndoOnce(h, UndoAgain(s, fuels), l, fuel);
    var r := RunCommand(UndoAgain(s, fuels), Undo(None), fuel);
    if r.end.Finished? {
      forall e | e in r.s.journal && e.status.Executed?
        ensures Reverted(e, r.s)
      {
        var j := ExecutedIsDeed(r.s.journal, h.deeds, e);
      }
      NothingLeft(r.s, r.s.journal, UndoneIds(r.s.journal), again);
    }
  }
}
