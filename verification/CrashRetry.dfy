/**
 Crash, retry, undo: a batch of moves that is cut off anywhere, any number of times, and started over
 until it completes leaves the tree of the uninterrupted run, and undo still takes everything back.
 */
module CrashRetry {
  import opened FileSystem
  import opened Journal
  import opened Scripts
  import opened Steps
  import opened UndoTheory
  import opened UndoRun
  import opened Wrappers

  /** Moves with distinct sources; no source is a destination or lies above one. */
  ghost predicate MoveBatch(ps: seq<Proposal>) {
    (forall i :: 0 <= i < |ps| ==> ps[i].action.Move?)
    && (forall i, k :: 0 <= i < k < |ps| ==> ps[i].from != ps[k].from)
    && (forall i, k :: 0 <= i < |ps| && 0 <= k < |ps| ==> !(ps[i].from <= ps[k].to))
  }

  // ----- What a completed batch leaves

  /** The move stops the batch: its destination is refused or lies below a file. */
  predicate Hard(t: Tree, q: Proposal) {
    IsReady(t, q) && (ResolveForCreate(t, q.to).Rejected? || !CanMakeDirs(t, Parent(q.to)))
  }

  /** The tree after one move that is not hard. */
  function Settle(t: Tree, q: Proposal): Tree {
    if !IsReady(t, q) || Hard(t, q) || q.to in t then t else Moved(AddDirs(t, Parent(q.to)), q.from, q.to)
  }

  /** The tree in which the batch, from item i on, comes to rest. */
  function RestTree(t: Tree, ps: seq<Proposal>, i: nat): Tree
    requires i <= |ps|
    decreases |ps| - i
  {
    if i == |ps| || Hard(t, ps[i]) then t else RestTree(Settle(t, ps[i]), ps, i + 1)
  }

  /** Nothing is left to do for this move. */
  predicate Settled(t: Tree, q: Proposal) {
    !IsReady(t, q) || (!Hard(t, q) && q.to in t)
  }

  lemma {:induction false} SettledPrefix(t: Tree, ps: seq<Proposal>, a: nat, b: nat)
    requires a <= b <= |ps| && forall j :: a <= j < b ==> Settled(t, ps[j])
    ensures RestTree(t, ps, a) == RestTree(t, ps, b)
    decreases b - a
  {
    if a < b {
      SettledPrefix(t, ps, a + 1, b);
    }
  }

  // ----- One step of progress

  /** u is t with some of the directories of move q made. */
  ghost predicate Begun(t: Tree, q: Proposal, u: Tree) {
    u == t || (IsReady(t, q) && !Hard(t, q) && q.to !in t && exists p :: p <= Parent(q.to) && CanMakeDirs(t, p) && u == AddDirs(t, p))
  }

  lemma {:induction false} AddDirsTwice(t: Tree, p: Path, q: Path)
    requires WellFormed(t) && p <= q
    ensures AddDirs(AddDirs(t, p), q) == AddDirs(t, q)
    ensures CanMakeDirs(t, q) ==> CanMakeDirs(AddDirs(t, p), q)
    decreases |q|
  {
    AddDirsAdds(t, p);
    if p == q {
      AddDirsSelf(t, p);
    } else if q in t {
      AncestorsAreDirs(t, q, p);
    } else {
      assert p <= Parent(q);
      assert !(q <= p);
      AddDirsTwice(t, p, Parent(q));
    }
  }

  lemma {:induction false} AddDirsSelf(t: Tree, p: Path)
    ensures p == [] || IsDir(AddDirs(t, p), p) || p in t
    ensures AddDirs(AddDirs(t, p), p) == AddDirs(t, p)
    ensures CanMakeDirs(t, p) ==> CanMakeDirs(AddDirs(t, p), p)
    decreases |p|
  {
    if p !in t && p != [] {
      AddDirsSelf(t, Parent(p));
    }
  }

  lemma StatusSame(t: Tree, u: Tree, q: Proposal)
    requires q.action.Move? && (q.from in t <==> q.from in u) && (q.from in t ==> u[q.from] == t[q.from])
    ensures PrecheckStatus(t, q) == PrecheckStatus(u, q)
  {
  }

  /** How far one item of the batch has come. */
  ghost predicate Advanced(t: Tree, q: Proposal, u: Tree) {
    Begun(t, q, u) || u == Settle(t, q)
  }

  lemma PrefixTransitive(a: Path, b: Path, c: Path)
    requires a <= b && b <= c
    ensures a <= c
  {
    assert a == b[..|a|] == c[..|a|];
  }

  /** What one step of progress of item i does to the paths of the batch. */
  ghost predicate Progress(t: Tree, ps: seq<Proposal>, i: nat, u: Tree)
    requires i < |ps|
  {
    var q := ps[i];
    (forall k :: 0 <= k < |ps| && k != i ==>
       (ps[k].from in t <==> ps[k].from in u) && (ps[k].from in t ==> u[ps[k].from] == t[ps[k].from]))
    && (forall p :: p in t && p != q.from ==> p in u && u[p] == t[p])
    && (forall p :: p in u && p !in t && p != q.to ==> u[p].Dir?)
    && (q.from in u ==> q.from in t && u[q.from] == t[q.from])
    && (q.from !in u && q.from in t ==>
          u == Settle(t, q) && IsFile(t, q.from) && q.to !in t && q.to in u && u[q.to] == t[q.from]
          && !Unsafe(q.from) && !Unsafe(q.to) && !q.destinationExists)
    && (q.to in u && q.to !in t ==> q.from in t && q.from !in u)
    && WellFormed(u)
  }

  lemma AdvanceFacts(t: Tree, ps: seq<Proposal>, i: nat, u: Tree)
    requires WellFormed(t) && MoveBatch(ps) && i < |ps| && Advanced(t, ps[i], u)
    ensures Progress(t, ps, i, u)
  {
    if u != t {
      if Begun(t, ps[i], u) {
        BegunFacts(t, ps, i, u);
      } else {
        SettledFacts(t, ps, i, u);
      }
    }
  }

  lemma BegunFacts(t: Tree, ps: seq<Proposal>, i: nat, u: Tree)
    requires WellFormed(t) && MoveBatch(ps) && i < |ps| && u != t && Begun(t, ps[i], u)
    ensures Progress(t, ps, i, u)
  {
    var p :| p <= Parent(ps[i].to) && CanMakeDirs(t, p) && u == AddDirs(t, p);
    AddDirsAdds(t, p);
    AddDirsMakes(t, p);
    NoSourceAbove(ps, i, p);
  }

  lemma SettledFacts(t: Tree, ps: seq<Proposal>, i: nat, u: Tree)
    requires WellFormed(t) && MoveBatch(ps) && i < |ps| && u != t && u == Settle(t, ps[i])
    ensures Progress(t, ps, i, u)
  {
    var q := ps[i];
    var home := Parent(q.to);
    var v := AddDirs(t, home);
    AddDirsAdds(t, home);
    AddDirsMakes(t, home);
    NoSourceAbove(ps, i, home);
    assert !(q.from <= home);
    MovedFile(v, q.from, q.to);
    NotBelowFile(v, q.from, q.to);
    EffectKeepsWellFormed(v, Rename(q.from, q.to), 0);
  }

  lemma NoSourceAbove(ps: seq<Proposal>, i: nat, p: Path)
    requires MoveBatch(ps) && i < |ps| && p <= ps[i].to
    ensures forall k :: 0 <= k < |ps| ==> !(ps[k].from <= p)
  {
    forall k | 0 <= k < |ps|
      ensures !(ps[k].from <= p)
    {
      if ps[k].from <= p { PrefixTransitive(ps[k].from, p, ps[i].to); }
    }
  }

  /** Moves settled before stay settled. */
  lemma SettledStays(t: Tree, ps: seq<Proposal>, i: nat, j: nat, u: Tree)
    requires WellFormed(t) && MoveBatch(ps) && i < |ps| && j < |ps| && i != j
    requires Advanced(t, ps[i], u) && Settled(t, ps[j])
    ensures Settled(u, ps[j])
  {
    AdvanceFacts(t, ps, i, u);
    StatusSame(t, u, ps[j]);
    if IsReady(t, ps[j]) {
      var d := ps[j].to;
      assert !(ps[i].from <= d);
      assert d in u;
      assert IsDir(u, Parent(d));
    }
  }

  lemma NotReadyWithoutSource(t: Tree, q: Proposal)
    requires q.action.Move? && q.from !in t
    ensures !IsReady(t, q)
  {
  }

  lemma SettleMoves(t: Tree, q: Proposal)
    requires WellFormed(t) && q.action.Move? && IsReady(t, q) && !Hard(t, q) && q.to !in t && !(q.from <= q.to)
    ensures q.from !in Settle(t, q)
  {
    var v := AddDirs(t, Parent(q.to));
    AddDirsAdds(t, Parent(q.to));
    AddDirsMakes(t, Parent(q.to));
    MovedFile(v, q.from, q.to);
  }

  lemma SettleSettles(t: Tree, ps: seq<Proposal>, i: nat)
    requires WellFormed(t) && MoveBatch(ps) && i < |ps| && !Hard(t, ps[i])
    ensures Settled(Settle(t, ps[i]), ps[i])
  {
    var q := ps[i];
    if IsReady(t, q) && q.to !in t {
      assert !(q.from <= q.to);
      SettleMoves(t, q);
      NotReadyWithoutSource(Settle(t, q), q);
    }
  }

  /** No advance changes where the batch comes to rest. */
  lemma RestStays(t: Tree, ps: seq<Proposal>, i: nat, u: Tree)
    requires WellFormed(t) && MoveBatch(ps) && i < |ps| && Advanced(t, ps[i], u)
    requires forall j :: 0 <= j < i ==> Settled(t, ps[j])
    ensures RestTree(u, ps, 0) == RestTree(t, ps, 0)
    ensures forall j :: 0 <= j < i ==> Settled(u, ps[j])
  {
    var q := ps[i];
    forall j | 0 <= j < i
      ensures Settled(u, ps[j])
    {
      SettledStays(t, ps, i, j, u);
    }
    SettledPrefix(t, ps, 0, i);
    SettledPrefix(u, ps, 0, i);
    if u != t {
      if Begun(t, q, u) {
        BegunSettles(t, ps, i, u);
      } else {
        SettleSettles(t, ps, i);
        SettledPrefix(u, ps, i, i + 1);
      }
    }
  }

  lemma BegunSettles(t: Tree, ps: seq<Proposal>, i: nat, u: Tree)
    requires WellFormed(t) && MoveBatch(ps) && i < |ps| && u != t && Begun(t, ps[i], u)
    ensures Settle(u, ps[i]) == Settle(t, ps[i]) && Hard(u, ps[i]) == Hard(t, ps[i])
  {
    var q := ps[i];
    var p :| p <= Parent(q.to) && CanMakeDirs(t, p) && u == AddDirs(t, p);
    MoreDirs(t, ps, i, p);
    SettleAfterDirs(t, q, p);
  }

  /** Making directories for a move leaves its check and its free destination as they were. */
  lemma MoreDirs(t: Tree, ps: seq<Proposal>, i: nat, p: Path)
    requires MoveBatch(ps) && i < |ps| && ps[i].to != [] && p <= Parent(ps[i].to) && ps[i].from in t
    ensures PrecheckStatus(AddDirs(t, p), ps[i]) == PrecheckStatus(t, ps[i])
    ensures ps[i].to !in t ==> ps[i].to !in AddDirs(t, p)
  {
    AddDirsAdds(t, p);
    assert |p| < |ps[i].to|;
    StatusSame(t, AddDirs(t, p), ps[i]);
  }

  lemma SettleAfterDirs(t: Tree, q: Proposal, p: Path)
    requires WellFormed(t) && q.to != [] && p <= Parent(q.to) && q.to !in t && q.to !in AddDirs(t, p)
    requires PrecheckStatus(AddDirs(t, p), q) == PrecheckStatus(t, q) && !Hard(t, q) && IsReady(t, q)
    ensures Settle(AddDirs(t, p), q) == Settle(t, q) && !Hard(AddDirs(t, p), q)
  {
    AddDirsTwice(t, p, Parent(q.to));
  }

  // ----- Where the files of the beginning are

  /** The file of this move sits at its source, as in t0. */
  predicate Home(t0: Tree, u: Tree, q: Proposal) {
    (q.from in t0 <==> q.from in u) && (q.from in t0 ==> u[q.from] == t0[q.from])
  }

  /** The file of this move has gone to its destination. */
  predicate Away(t0: Tree, u: Tree, q: Proposal) {
    IsFile(t0, q.from) && q.from !in u && q.to !in t0 && q.to in u && u[q.to] == t0[q.from]
    && !Unsafe(q.from) && !Unsafe(q.to) && !q.destinationExists
  }

  predicate Sourced(ps: seq<Proposal>, p: Path) {
    exists k :: 0 <= k < |ps| && ps[k].from == p
  }

  /** u holds the files of t0, those of some moves at their destinations, and more directories. */
  ghost predicate Placed(t0: Tree, ps: seq<Proposal>, u: Tree) {
    WellFormed(u)
    && (forall k :: 0 <= k < |ps| ==> Home(t0, u, ps[k]) || Away(t0, u, ps[k]))
    && (forall p :: p in t0 && !Sourced(ps, p) ==> p in u && u[p] == t0[p])
    && (forall p :: p in u && p !in t0 ==> u[p].Dir? || exists k :: 0 <= k < |ps| && ps[k].to == p && Away(t0, u, ps[k]))
    && (forall i, k :: 0 <= i < k < |ps| && Away(t0, u, ps[i]) && Away(t0, u, ps[k]) ==> ps[i].to != ps[k].to)
  }

  lemma PlacedStart(t0: Tree, ps: seq<Proposal>)
    requires WellFormed(t0)
    ensures Placed(t0, ps, t0)
  {
  }

  /** With every file at home, the files are those of t0. */
  lemma AllHome(t0: Tree, ps: seq<Proposal>, u: Tree)
    requires Placed(t0, ps, u) && forall k :: 0 <= k < |ps| ==> Home(t0, u, ps[k])
    ensures forall p :: p in t0 ==> p in u && u[p] == t0[p]
    ensures forall p :: IsFile(u, p) ==> p in t0
  {
    forall p | p in t0
      ensures p in u && u[p] == t0[p]
    {
      if Sourced(ps, p) {
        var k :| 0 <= k < |ps| && ps[k].from == p;
      }
    }
  }

  lemma AdvanceKeepsPlaced(t0: Tree, t: Tree, ps: seq<Proposal>, i: nat, u: Tree)
    requires MoveBatch(ps) && i < |ps| && Placed(t0, ps, t) && Advanced(t, ps[i], u)
    ensures Placed(t0, ps, u)
  {
    AdvanceFacts(t, ps, i, u);
    var q := ps[i];
    forall k | 0 <= k < |ps|
      ensures Home(t0, u, ps[k]) || Away(t0, u, ps[k])
      ensures Away(t0, t, ps[k]) ==> Away(t0, u, ps[k])
      ensures k != i && Away(t0, u, ps[k]) ==> Away(t0, t, ps[k])
    {
      assert !(q.from <= ps[k].to);
      assert Home(t0, t, ps[k]) || Away(t0, t, ps[k]);
      if k == i && q.from in t && q.from !in u {
        NewDestination(t0, ps, t, q.to);
      }
    }
    forall p | p in u && p !in t0 && !u[p].Dir?
      ensures exists k :: 0 <= k < |ps| && ps[k].to == p && Away(t0, u, ps[k])
    {
      if p in t {
        var k :| 0 <= k < |ps| && ps[k].to == p && Away(t0, t, ps[k]);
        assert Away(t0, u, ps[k]);
      } else {
        assert p == q.to && Away(t0, u, ps[i]);
      }
    }
    forall j, k | 0 <= j < k < |ps| && Away(t0, u, ps[j]) && Away(t0, u, ps[k])
      ensures ps[j].to != ps[k].to
    {
      if j != i && k != i {
        assert Away(t0, t, ps[j]) && Away(t0, t, ps[k]);
      } else if !Away(t0, t, q) {
        assert q.to !in t;
      }
    }
    UnsourcedStay(t0, t, ps, i, u);
  }

  lemma UnsourcedStay(t0: Tree, t: Tree, ps: seq<Proposal>, i: nat, u: Tree)
    requires MoveBatch(ps) && i < |ps| && Placed(t0, ps, t) && Advanced(t, ps[i], u)
    ensures forall p :: p in t0 && !Sourced(ps, p) ==> p in u && u[p] == t0[p]
  {
    AdvanceFacts(t, ps, i, u);
    forall p | p in t0 && !Sourced(ps, p)
      ensures p in u && u[p] == t0[p]
    {
      assert p != ps[i].from;
    }
  }

  /** A destination that is free now was free at the beginning. */
  lemma NewDestination(t0: Tree, ps: seq<Proposal>, t: Tree, p: Path)
    requires MoveBatch(ps) && Placed(t0, ps, t) && p !in t && exists k :: 0 <= k < |ps| && ps[k].to == p
    ensures p !in t0
  {
    var k :| 0 <= k < |ps| && ps[k].to == p;
    assert forall i :: 0 <= i < |ps| ==> !(ps[i].from <= ps[k].to);
  }

  // ----- The journal of a batch of moves

  predicate SamePath(e: Entry, q: Proposal) {
    e.from == q.from && e.to == q.to
  }

  /** The move has an executed row. */
  ghost predicate Logged(rows: seq<Entry>, q: Proposal) {
    exists e :: e in rows && e.status.Executed? && SamePath(e, q)
  }

  /** A planned row of the move has no later row, so a new run recovers it. */
  ghost predicate Recoverable(rows: seq<Entry>, q: Proposal) {
    exists e :: e in rows && Pending(e, CompletedIds(rows), q.from, q.to)
  }

  predicate RowOf(e: Entry, ps: seq<Proposal>) {
    (e.status.Planned? || e.status.Executed?) && e.action.Move? && exists k :: 0 <= k < |ps| && SamePath(e, ps[k])
  }

  /** Rows belong to the batch, one operation has one pair of paths, executed means moved. */
  ghost predicate RowsOk(t0: Tree, ps: seq<Proposal>, s: State) {
    (forall e :: e in s.journal ==> e.id < s.clock && RowOf(e, ps) && e.from in t0)
    && (forall e, f :: e in s.journal && f in s.journal && e.id == f.id ==> e.from == f.from && e.to == f.to)
    && (forall e :: e in s.journal && e.status.Executed? ==> e.from !in s.tree)
  }

  predicate Gone(t0: Tree, u: Tree, q: Proposal) {
    q.from in t0 && q.from !in u
  }

  /** Every move that happened is logged or can be recovered, and everything before it is settled. */
  ghost predicate LogOk(t0: Tree, ps: seq<Proposal>, s: State) {
    RowsOk(t0, ps, s)
    && (forall k :: 0 <= k < |ps| && Gone(t0, s.tree, ps[k]) ==> Logged(s.journal, ps[k]) || Recoverable(s.journal, ps[k]))
    && (forall j, k :: 0 <= j < k < |ps| && Gone(t0, s.tree, ps[k]) ==> Settled(s.tree, ps[j]))
  }

  lemma CompletedSnoc(rows: seq<Entry>, e: Entry)
    ensures CompletedIds(rows + [e]) == CompletedIds(rows) + if e.status.Planned? then {} else {e.id}
  {
    assert forall x :: x in rows + [e] <==> x in rows || x == e;
  }

  /** Appending a planned row of a new operation, or an executed row, forgets no move. */
  lemma StillLogged(rows: seq<Entry>, e: Entry, q: Proposal)
    requires Logged(rows, q) || Recoverable(rows, q)
    requires e.status.Planned? || (e.status.Executed? && forall f :: f in rows && f.id == e.id ==> f.from == e.from && f.to == e.to)
    ensures Logged(rows + [e], q) || Recoverable(rows + [e], q)
    ensures Logged(rows, q) ==> Logged(rows + [e], q)
  {
    var more := rows + [e];
    assert forall x :: x in more <==> x in rows || x == e;
    CompletedSnoc(rows, e);
    if Logged(rows, q) {
      var f :| f in rows && f.status.Executed? && SamePath(f, q);
      assert f in more;
    } else {
      var f :| f in rows && Pending(f, CompletedIds(rows), q.from, q.to);
      assert f in more;
      if f.id in CompletedIds(more) {
        assert e in more && SamePath(e, q);
      } else {
        assert Pending(f, CompletedIds(more), q.from, q.to);
      }
    }
  }

  /** A planned row for a new operation. */
  lemma PlanRow(t0: Tree, ps: seq<Proposal>, s: State, e: Entry, r: State)
    requires LogOk(t0, ps, s) && e.status.Planned? && RowOf(e, ps) && e.from in t0 && e.id == s.clock < r.clock
    requires r.tree == s.tree && r.journal == s.journal + [e]
    ensures LogOk(t0, ps, r) && Pending(e, CompletedIds(r.journal), e.from, e.to)
    ensures forall k :: 0 <= k < |ps| && Logged(s.journal, ps[k]) ==> Logged(r.journal, ps[k])
  {
    assert forall x :: x in r.journal <==> x in s.journal || x == e;
    CompletedSnoc(s.journal, e);
    forall k | 0 <= k < |ps| && Gone(t0, r.tree, ps[k])
      ensures Logged(r.journal, ps[k]) || Recoverable(r.journal, ps[k])
    {
      StillLogged(s.journal, e, ps[k]);
    }
    forall k | 0 <= k < |ps| && Logged(s.journal, ps[k])
      ensures Logged(r.journal, ps[k])
    {
      StillLogged(s.journal, e, ps[k]);
    }
  }

  /** An executed row for a move that happened, under an id this move already has. */
  lemma ExecuteRow(t0: Tree, ps: seq<Proposal>, s: State, e: Entry, r: State)
    requires LogOk(t0, ps, s) && e.status.Executed? && RowOf(e, ps) && e.from in t0 && e.from !in s.tree
    requires exists f :: f in s.journal && f.id == e.id && f.from == e.from && f.to == e.to
    requires r.tree == s.tree && r.journal == s.journal + [e] && s.clock <= r.clock
    ensures LogOk(t0, ps, r)
    ensures forall k :: 0 <= k < |ps| && (Logged(s.journal, ps[k]) || SamePath(e, ps[k])) ==> Logged(r.journal, ps[k])
  {
    assert forall x :: x in r.journal <==> x in s.journal || x == e;
    forall k | 0 <= k < |ps| && Gone(t0, r.tree, ps[k])
      ensures Logged(r.journal, ps[k]) || Recoverable(r.journal, ps[k])
    {
      StillLogged(s.journal, e, ps[k]);
    }
    forall k | 0 <= k < |ps| && (Logged(s.journal, ps[k]) || SamePath(e, ps[k]))
      ensures Logged(r.journal, ps[k])
    {
      if Logged(s.journal, ps[k]) {
        StillLogged(s.journal, e, ps[k]);
      } else {
        assert e in r.journal;
      }
    }
  }

  /** The tree advances while item i has a pending row. */
  lemma TreeAdvances(t0: Tree, ps: seq<Proposal>, i: nat, s: State, r: State)
    requires MoveBatch(ps) && i < |ps| && Placed(t0, ps, s.tree) && LogOk(t0, ps, s) && Advanced(s.tree, ps[i], r.tree)
    requires Recoverable(s.journal, ps[i]) && r.journal == s.journal && s.clock <= r.clock
    requires forall j :: 0 <= j < i ==> Settled(s.tree, ps[j])
    ensures Placed(t0, ps, r.tree) && LogOk(t0, ps, r)
  {
    AdvanceFacts(s.tree, ps, i, r.tree);
    AdvanceKeepsPlaced(t0, s.tree, ps, i, r.tree);
    RestStays(s.tree, ps, i, r.tree);
    forall k | 0 <= k < |ps| && Gone(t0, r.tree, ps[k])
      ensures Logged(r.journal, ps[k]) || Recoverable(r.journal, ps[k])
      ensures forall j :: 0 <= j < k ==> Settled(r.tree, ps[j])
    {
      if k != i {
        assert Gone(t0, s.tree, ps[k]);
        forall j | 0 <= j < k
          ensures Settled(r.tree, ps[j])
        {
          if j != i {
            SettledStays(s.tree, ps, i, j, r.tree);
          } else {
            AdvanceOfSettled(s.tree, ps, i, r.tree);
          }
        }
      }
    }
    forall e | e in r.journal && e.status.Executed?
      ensures e.from !in r.tree
    {
      var k :| 0 <= k < |ps| && SamePath(e, ps[k]);
      assert e.from !in s.tree;
    }
  }

  lemma AdvanceOfSettled(t: Tree, ps: seq<Proposal>, i: nat, u: Tree)
    requires i < |ps| && Settled(t, ps[i]) && Advanced(t, ps[i], u)
    ensures u == t
  {
  }

  // ----- One item of a run

  /** What holds of the batch in state s, with the items before i settled. */
  ghost predicate Sound(t0: Tree, ps: seq<Proposal>, i: nat, s: State)
    requires i <= |ps|
  {
    Placed(t0, ps, s.tree) && LogOk(t0, ps, s) && forall j :: 0 <= j < i ==> Settled(s.tree, ps[j])
  }

  ghost predicate KeepsLog(ps: seq<Proposal>, s: State, r: State) {
    forall k :: 0 <= k < |ps| && Logged(s.journal, ps[k]) ==> Logged(r.journal, ps[k])
  }

  lemma PlannedStep(t0: Tree, ps: seq<Proposal>, i: nat, s: State, c: Check) returns (r: State)
    requires i < |ps| && Sound(t0, ps, i, s) && c.action.Move? && c.from == ps[i].from && c.to == ps[i].to && c.from in s.tree
    ensures r == Do(s, [CheckRow(s.clock, Planned, c)]) && r.tree == s.tree && Sound(t0, ps, i, r) && KeepsLog(ps, s, r)
    ensures Recoverable(r.journal, ps[i])
    ensures HasRow(r.journal, s.clock, c)
  {
    var planned := CheckRow(s.clock, Planned, c);
    DoOne(s, planned);
    r := Apply(s, planned);
    assert SamePath(planned.entry, ps[i]);
    PlanRow(t0, ps, s, planned.entry, r);
    assert planned.entry in r.journal;
  }

  /** The directories of a move, made in part or all. */
  lemma MkdirsStep(t0: Tree, ps: seq<Proposal>, i: nat, s: State, n: nat) returns (r: State)
    requires MoveBatch(ps) && i < |ps| && Sound(t0, ps, i, s) && Recoverable(s.journal, ps[i])
    requires IsReady(s.tree, ps[i]) && !Hard(s.tree, ps[i]) && n <= |MkdirSteps(s.tree, Parent(ps[i].to))|
    ensures r == Do(s, MkdirSteps(s.tree, Parent(ps[i].to))[..n]) && r.journal == s.journal
    ensures Begun(s.tree, ps[i], r.tree) && Sound(t0, ps, i, r)
  {
    var home := Parent(ps[i].to);
    r := Do(s, MkdirSteps(s.tree, home)[..n]);
    var p := MkdirsCut(s, home, n);
    DoClock(s, MkdirSteps(s.tree, home)[..n]);
    if ps[i].to in s.tree {
      assert IsDir(s.tree, home);
      assert MkdirSteps(s.tree, home)[..n] == [];
    }
    RestStays(s.tree, ps, i, r.tree);
    TreeAdvances(t0, ps, i, s, r);
  }

  lemma ReadySourceThere(t: Tree, q: Proposal)
    requires q.action.Move? && IsReady(t, q)
    ensures IsFile(t, q.from)
  {
  }

  /** A row with this id and these paths is in the journal. */
  ghost predicate HasRow(rows: seq<Entry>, id: nat, c: Check) {
    exists f :: f in rows && f.id == id && f.from == c.from && f.to == c.to
  }

  lemma MovePrepHead(s: State, c: Check)
    ensures MoveScript(s, c).prep != [] && MoveScript(s, c).prep[0] == CheckRow(s.clock, Planned, c)
  {
  }

  lemma MoveCutEarly(t0: Tree, ps: seq<Proposal>, i: nat, s: State, c: Check, n: nat)
    requires MoveBatch(ps) && i < |ps| && Sound(t0, ps, i, s) && IsReady(s.tree, ps[i])
    requires c.action.Move? && c.from == ps[i].from && c.to == ps[i].to
    requires n <= |MoveScript(s, c).prep|
    ensures var r := Do(s, MoveScript(s, c).prep[..n]);
            Sound(t0, ps, i, r) && KeepsLog(ps, s, r) && Begun(s.tree, ps[i], r.tree)
            && (n > 0 ==> Recoverable(r.journal, ps[i]) && HasRow(r.journal, s.clock, c))
  {
    ReadySourceThere(s.tree, ps[i]);
    MovePrepCut(s, c);
    if n == 0 {
      StaysOnward(t0, ps, i, s);
    } else {
      var s1 := PlannedStep(t0, ps, i, s, c);
      if n > 1 {
        MoveCutDirs(t0, ps, i, s, c, s1, n - 1);
      }
    }
  }

  lemma MovePrepCut(s: State, c: Check)
    ensures MoveScript(s, c).prep != []
    ensures Do(s, MoveScript(s, c).prep[..0]) == s && MoveScript(s, c).prep[..1] == [CheckRow(s.clock, Planned, c)]
  {
    MovePrepHead(s, c);
    assert MoveScript(s, c).prep[..0] == [];
    assert Do(s, []) == s;
  }

  lemma MoveCutDirs(t0: Tree, ps: seq<Proposal>, i: nat, s: State, c: Check, s1: State, n: nat)
    requires MoveBatch(ps) && i < |ps| && Sound(t0, ps, i, s1) && IsReady(s.tree, ps[i]) && s1.tree == s.tree
    requires c.action.Move? && c.from == ps[i].from && c.to == ps[i].to && Recoverable(s1.journal, ps[i])
    requires s1 == Do(s, [CheckRow(s.clock, Planned, c)]) && 0 < n < |MoveScript(s, c).prep|
    ensures var r := Do(s, MoveScript(s, c).prep[..n + 1]);
            Sound(t0, ps, i, r) && r.journal == s1.journal && Begun(s.tree, ps[i], r.tree)
  {
    var prep, dirs := MoveScript(s, c).prep, MkdirSteps(s.tree, Parent(c.to));
    assert prep[..n + 1] == [CheckRow(s.clock, Planned, c)] + dirs[..n];
    DoConcat(s, [CheckRow(s.clock, Planned, c)], dirs[..n]);
    var r := MkdirsStep(t0, ps, i, s1, n);
  }

  ghost predicate Completed(t0: Tree, ps: seq<Proposal>, i: nat, s: State, m: Script, r: State)
    requires i < |ps|
  {
    (m.out.Failed? <==> Hard(s.tree, ps[i]))
    && (!m.out.Failed? ==> Settled(r.tree, ps[i]) && (Gone(t0, r.tree, ps[i]) ==> Logged(r.journal, ps[i])))
  }

  /** Item i has come some way, and the rest of the batch is as before. */
  ghost predicate Onward(t0: Tree, ps: seq<Proposal>, i: nat, s: State, r: State)
    requires i < |ps|
  {
    Sound(t0, ps, i, r) && KeepsLog(ps, s, r) && Advanced(s.tree, ps[i], r.tree)
  }

  /** A move cut anywhere keeps the batch sound; complete, it has settled its item and logged it. */
  lemma MoveCut(t0: Tree, ps: seq<Proposal>, i: nat, s: State, c: Check, n: nat)
    requires MoveBatch(ps) && i < |ps| && Sound(t0, ps, i, s) && IsReady(s.tree, ps[i])
    requires c.action.Move? && c.from == ps[i].from && c.to == ps[i].to
    requires n <= |MoveScript(s, c).Steps()|
    ensures var m := MoveScript(s, c); var r := Do(s, m.Steps()[..n]);
            Onward(t0, ps, i, s, r) && (n == |m.Steps()| ==> Completed(t0, ps, i, s, m, r))
  {
    var m := MoveScript(s, c);
    assert !(c.from <= c.to);
    MoveOutcome(s, ps[i], c);
    var prep, act := m.prep, m.act;
    if n <= |prep| {
      assert (prep + act)[..n] == prep[..n];
      MoveCutEarly(t0, ps, i, s, c, n);
      if n == |prep + act| { StoppedEarly(t0, ps, i, s, m, Do(s, prep[..n])); }
    } else {
      var k := n - |prep|;
      assert (prep + act)[..n] == prep + act[..k];
      DoConcat(s, prep, act[..k]);
      MoveCutLate(t0, ps, i, s, c, k);
    }
  }

  lemma StoppedEarly(t0: Tree, ps: seq<Proposal>, i: nat, s: State, m: Script, r: State)
    requires i < |ps| && Begun(s.tree, ps[i], r.tree) && ps[i].from in s.tree
    requires (m.out.Failed? <==> Hard(s.tree, ps[i])) && (!m.out.Failed? ==> ps[i].to in s.tree)
    ensures Completed(t0, ps, i, s, m, r)
  {
    assert !m.out.Failed? ==> r.tree == s.tree;
  }

  /** How the move script ends, in terms of the batch. */
  lemma MoveOutcome(s: State, q: Proposal, c: Check)
    requires WellFormed(s.tree) && IsReady(s.tree, q) && q.action.Move? && c.from == q.from && c.to == q.to && !(c.from <= c.to)
    ensures var m := MoveScript(s, c);
            (m.out.Failed? <==> Hard(s.tree, q)) && (m.act == [] && !m.out.Failed? ==> q.to in s.tree)
            && (m.act != [] ==> |m.act| == 2 && !m.out.Failed?) && q.from in s.tree
  {
    assert ResolveExisting(s.tree, q.from) == Found;
  }

  lemma MoveCutLate(t0: Tree, ps: seq<Proposal>, i: nat, s: State, c: Check, n: nat)
    requires MoveBatch(ps) && i < |ps| && Sound(t0, ps, i, s) && IsReady(s.tree, ps[i])
    requires c.action.Move? && c.from == ps[i].from && c.to == ps[i].to
    requires 0 < n <= |MoveScript(s, c).act|
    ensures var m := MoveScript(s, c); var r := Do(Do(s, m.prep), m.act[..n]);
            Sound(t0, ps, i, r) && KeepsLog(ps, s, r) && r.tree == Settle(s.tree, ps[i]) && Settled(r.tree, ps[i])
            && (n == 2 ==> Logged(r.journal, ps[i])) && !Hard(s.tree, ps[i])
  {
    var m := MoveScript(s, c);
    var s1 := Do(s, m.prep);
    var s2 := MoveRenames(t0, ps, i, s, c);
    MoveActCut(s, c, n);
    if n == 2 {
      MoveLogs(t0, ps, i, s, c, s2);
    }
  }

  lemma MoveActCut(s: State, c: Check, n: nat)
    requires 0 < n <= |MoveScript(s, c).act|
    ensures |MoveScript(s, c).act| == 2
    ensures var m := MoveScript(s, c);
            var s1 := Do(s, m.prep);
            var s2 := Apply(s1, m.act[0]);
            Do(s1, m.act[..n]) == if n == 1 then s2 else Apply(s2, CheckRow(s.clock, Executed, c))
  {
    MoveActs(s, c);
    ActSteps(Do(s, MoveScript(s, c).prep), MoveScript(s, c).act, n);
  }

  lemma MoveActs(s: State, c: Check)
    ensures var act := MoveScript(s, c).act; act == [] || (|act| == 2 && act[1] == CheckRow(s.clock, Executed, c))
  {
  }

  lemma ActSteps(s: State, act: seq<Step>, n: nat)
    requires 0 < n <= |act| <= 2
    ensures Do(s, act[..n]) == if n == 1 then Apply(s, act[0]) else Apply(Apply(s, act[0]), act[1])
  {
    if n == 1 {
      assert act[..1] == [act[0]];
      DoOne(s, act[0]);
    } else {
      assert act[..2] == [act[0], act[1]];
      DoTwo(s, act[0], act[1]);
    }
  }

  /** The closing row of the move. */
  lemma MoveLogs(t0: Tree, ps: seq<Proposal>, i: nat, s: State, c: Check, s2: State)
    requires MoveBatch(ps) && i < |ps| && c.action.Move? && c.from == ps[i].from && c.to == ps[i].to
    requires Sound(t0, ps, i, s2) && KeepsLog(ps, s, s2) && s2.tree == Settle(s.tree, ps[i]) && Settled(s2.tree, ps[i])
    requires HasRow(s2.journal, s.clock, c) && IsReady(s.tree, ps[i]) && WellFormed(s.tree)
    requires !Hard(s.tree, ps[i]) && ps[i].to !in s.tree && IsFile(s.tree, ps[i].from) && ps[i].from in t0
    ensures var r := Apply(s2, CheckRow(s.clock, Executed, c));
            Sound(t0, ps, i, r) && KeepsLog(ps, s, r) && r.tree == s2.tree && Logged(r.journal, ps[i])
  {
    var row := CheckRow(s.clock, Executed, c);
    SettleMoves(s.tree, ps[i]);
    assert SamePath(row.entry, ps[i]);
    ExecuteRow(t0, ps, s2, row.entry, Apply(s2, row));
  }

  lemma MoveRenames(t0: Tree, ps: seq<Proposal>, i: nat, s: State, c: Check) returns (s2: State)
    requires MoveBatch(ps) && i < |ps| && Sound(t0, ps, i, s) && IsReady(s.tree, ps[i])
    requires c.action.Move? && c.from == ps[i].from && c.to == ps[i].to && MoveScript(s, c).act != []
    ensures s2 == Apply(Do(s, MoveScript(s, c).prep), MoveScript(s, c).act[0])
    ensures Sound(t0, ps, i, s2) && KeepsLog(ps, s, s2) && s2.tree == Settle(s.tree, ps[i]) && Settled(s2.tree, ps[i])
    ensures HasRow(s2.journal, s.clock, c)
    ensures !Hard(s.tree, ps[i]) && ps[i].to !in s.tree && IsFile(s.tree, ps[i].from) && ps[i].from in t0
  {
    var s1 := Do(s, MoveScript(s, c).prep);
    MoveCutEarly(t0, ps, i, s, c, |MoveScript(s, c).prep|);
    assert MoveScript(s, c).prep[..|MoveScript(s, c).prep|] == MoveScript(s, c).prep;
    MoveEffect(s, c, ps[i]);
    s2 := Apply(s1, MoveScript(s, c).act[0]);
    Renamed(t0, ps, i, s, s1, s2);
  }

  /** What the rename of a move does, in terms of the batch. */
  lemma MoveEffect(s: State, c: Check, q: Proposal)
    requires WellFormed(s.tree) && IsReady(s.tree, q) && q.action.Move? && c.from == q.from && c.to == q.to && MoveScript(s, c).act != []
    ensures !Hard(s.tree, q) && q.to !in s.tree && IsFile(s.tree, q.from) && MoveScript(s, c).prep != []
    ensures var s1 := Do(s, MoveScript(s, c).prep);
            var s2 := Apply(s1, MoveScript(s, c).act[0]);
            s2.tree == Settle(s.tree, q) && s2.journal == s1.journal && s1.clock <= s2.clock
  {
    Planning(s, CheckRow(s.clock, Planned, c), Parent(c.to));
  }

  /** The rename itself. */
  lemma Renamed(t0: Tree, ps: seq<Proposal>, i: nat, s: State, s1: State, s2: State)
    requires MoveBatch(ps) && i < |ps| && Sound(t0, ps, i, s) && Sound(t0, ps, i, s1) && Recoverable(s1.journal, ps[i])
    requires IsReady(s.tree, ps[i]) && !Hard(s.tree, ps[i]) && ps[i].to !in s.tree && Begun(s.tree, ps[i], s1.tree)
    requires s2.tree == Settle(s.tree, ps[i]) && s2.journal == s1.journal && s1.clock <= s2.clock
    ensures Sound(t0, ps, i, s2) && Settled(s2.tree, ps[i])
  {
    if s1.tree != s.tree {
      BegunSettles(s.tree, ps, i, s1.tree);
    }
    TreeAdvances(t0, ps, i, s1, s2);
    RestStays(s1.tree, ps, i, s2.tree);
    SettleSettles(s.tree, ps, i);
  }

  // ----- Runs of the batch

  /** Sources not yet handled are as they were when the run did its prechecks. */
  ghost predicate Synced(tp: Tree, t: Tree, ps: seq<Proposal>, i: nat) {
    forall k :: i <= k < |ps| ==> (ps[k].from in tp <==> ps[k].from in t) && (ps[k].from in tp ==> t[ps[k].from] == tp[ps[k].from])
  }

  /** The run reads the journal once, before its first step. */
  ghost predicate Snapshot(t0: Tree, ps: seq<Proposal>, tp: Tree, prior: seq<Entry>, rows: seq<Entry>) {
    (forall e :: e in prior ==> e in rows)
    && (forall k :: 0 <= k < |ps| && Gone(t0, tp, ps[k]) ==> Logged(prior, ps[k]) || Recoverable(prior, ps[k]))
  }

  /** A move that is not ready and has nothing to recover is complete as it is. */
  lemma NothingToDo(t0: Tree, ps: seq<Proposal>, i: nat, s: State, tp: Tree, prior: seq<Entry>)
    requires i < |ps| && ps[i].action.Move? && Sound(t0, ps, i, s) && !IsReady(s.tree, ps[i])
    requires Synced(tp, s.tree, ps, i) && Snapshot(t0, ps, tp, prior, s.journal)
    requires RecoverScript(s, Precheck(s.tree, ps[i]), prior).act == []
    ensures Gone(t0, s.tree, ps[i]) ==> Logged(s.journal, ps[i])
  {
    var q := ps[i];
    if Gone(t0, s.tree, q) {
      assert Away(t0, s.tree, q) && PrecheckStatus(s.tree, q).MissingSource?;
      assert PendingPlanned(prior, q.from, q.to).None?;
      assert Gone(t0, tp, q) && !Recoverable(prior, q);
      var e :| e in prior && e.status.Executed? && SamePath(e, q);
      assert e in s.journal;
    }
  }

  /** A move that is not ready but pending is logged. */
  lemma Recovers(t0: Tree, ps: seq<Proposal>, i: nat, s: State, prior: seq<Entry>, id: nat, e: Entry, r: State)
    requires i < |ps| && Sound(t0, ps, i, s) && (forall x :: x in prior ==> x in s.journal)
    requires ps[i].from !in s.tree && PendingPlanned(prior, ps[i].from, ps[i].to) == Some(id)
    requires e == Entry(id, Executed, Move, ps[i].from, ps[i].to) && r == Apply(s, Row(e))
    ensures Onward(t0, ps, i, s, r) && Logged(r.journal, ps[i])
  {
    var q := ps[i];
    var f :| f in prior && Pending(f, CompletedIds(prior), q.from, q.to) && f.id == id;
    assert f in s.journal && SamePath(e, q);
    ExecuteRow(t0, ps, s, e, r);
  }

  lemma MissingMeansGone(t: Tree, q: Proposal)
    requires q.action.Move? && PrecheckStatus(t, q).MissingSource?
    ensures q.from !in t
  {
  }

  /** The item of a move that is not ready: skipped, or recovered. */
  lemma RecoverCut(t0: Tree, ps: seq<Proposal>, i: nat, s: State, tp: Tree, prior: seq<Entry>, n: nat)
    requires MoveBatch(ps) && i < |ps| && Sound(t0, ps, i, s) && !IsReady(s.tree, ps[i])
    requires Synced(tp, s.tree, ps, i) && Snapshot(t0, ps, tp, prior, s.journal)
    requires n <= |RecoverScript(s, Precheck(s.tree, ps[i]), prior).Steps()|
    ensures var m := RecoverScript(s, Precheck(s.tree, ps[i]), prior); var r := Do(s, m.Steps()[..n]);
            Onward(t0, ps, i, s, r) && (n == |m.Steps()| ==> Completed(t0, ps, i, s, m, r))
  {
    var m := RecoverScript(s, Precheck(s.tree, ps[i]), prior);
    RecoverShape(s, ps[i], prior);
    CutOfAct(s, m, n);
    if n == 0 {
      StaysOnward(t0, ps, i, s);
      if m.act == [] {
        NothingToDo(t0, ps, i, s, tp, prior);
        UnreadyCompleted(t0, ps, i, s, m, s);
      }
    } else {
      RowRecovers(t0, ps, i, s, tp, prior, m.act);
      UnreadyCompleted(t0, ps, i, s, m, Do(s, m.act));
    }
  }

  lemma CutOfAct(s: State, m: Script, n: nat)
    requires m.prep == [] && |m.act| <= 1 && n <= |m.Steps()|
    ensures |m.Steps()| == |m.act| && Do(s, m.Steps()[..n]) == if n == 0 then s else Do(s, m.act)
  {
    assert m.Steps() == m.act;
    assert m.Steps()[..0] == [];
    assert n > 0 ==> m.Steps()[..n] == m.act;
  }

  lemma StaysOnward(t0: Tree, ps: seq<Proposal>, i: nat, s: State)
    requires i < |ps| && Sound(t0, ps, i, s)
    ensures Onward(t0, ps, i, s, s)
  {
  }

  lemma UnreadyCompleted(t0: Tree, ps: seq<Proposal>, i: nat, s: State, m: Script, r: State)
    requires i < |ps| && !IsReady(s.tree, ps[i]) && !m.out.Failed? && r.tree == s.tree
    requires Gone(t0, r.tree, ps[i]) ==> Logged(r.journal, ps[i])
    ensures Completed(t0, ps, i, s, m, r)
  {
  }

  lemma RecoverShape(s: State, q: Proposal, prior: seq<Entry>)
    requires q.action.Move?
    ensures var m := RecoverScript(s, Precheck(s.tree, q), prior);
            m.prep == [] && !m.out.Failed? && (m.act == [] || RecoversAs(s, q, prior, m.act))
  {
  }

  ghost predicate RecoversAs(s: State, q: Proposal, prior: seq<Entry>, act: seq<Step>) {
    PrecheckStatus(s.tree, q).MissingSource? && PendingPlanned(prior, q.from, q.to).Some?
    && act == [Row(Entry(PendingPlanned(prior, q.from, q.to).value, Executed, Move, q.from, q.to))]
  }

  lemma RowRecovers(t0: Tree, ps: seq<Proposal>, i: nat, s: State, tp: Tree, prior: seq<Entry>, act: seq<Step>)
    requires MoveBatch(ps) && i < |ps| && Sound(t0, ps, i, s) && !IsReady(s.tree, ps[i])
    requires Synced(tp, s.tree, ps, i) && Snapshot(t0, ps, tp, prior, s.journal) && RecoversAs(s, ps[i], prior, act)
    ensures Onward(t0, ps, i, s, Do(s, act)) && Logged(Do(s, act).journal, ps[i]) && Do(s, act).tree == s.tree
  {
    var e := act[0].entry;
    DoOne(s, act[0]);
    assert act == [act[0]];
    MissingMeansGone(s.tree, ps[i]);
    Recovers(t0, ps, i, s, prior, e.id, e, Apply(s, act[0]));
  }

  lemma ItemCut(t0: Tree, ps: seq<Proposal>, i: nat, s: State, tp: Tree, prior: seq<Entry>, n: nat)
    requires MoveBatch(ps) && i < |ps| && Sound(t0, ps, i, s)
    requires Synced(tp, s.tree, ps, i) && Snapshot(t0, ps, tp, prior, s.journal)
    requires n <= |ItemScript(s, Precheck(tp, ps[i]), prior).Steps()|
    ensures var m := ItemScript(s, Precheck(tp, ps[i]), prior); var r := Do(s, m.Steps()[..n]);
            Onward(t0, ps, i, s, r) && (n == |m.Steps()| ==> Completed(t0, ps, i, s, m, r))
  {
    StatusSame(tp, s.tree, ps[i]);
    assert Precheck(tp, ps[i]) == Precheck(s.tree, ps[i]);
    if IsReady(s.tree, ps[i]) {
      MoveCut(t0, ps, i, s, Precheck(tp, ps[i]), n);
    } else {
      RecoverCut(t0, ps, i, s, tp, prior, n);
    }
  }

  lemma SyncedNext(tp: Tree, ps: seq<Proposal>, i: nat, t: Tree, u: Tree)
    requires WellFormed(t) && MoveBatch(ps) && i < |ps| && Synced(tp, t, ps, i) && Advanced(t, ps[i], u)
    ensures Synced(tp, u, ps, i + 1)
  {
    AdvanceFacts(t, ps, i, u);
  }

  ghost predicate LoggedUpTo(t0: Tree, ps: seq<Proposal>, i: nat, s: State) {
    forall k :: 0 <= k < |ps| && k < i && Gone(t0, s.tree, ps[k]) ==> Logged(s.journal, ps[k])
  }

  lemma LoggedStays(t0: Tree, ps: seq<Proposal>, i: nat, s: State, r: State)
    requires MoveBatch(ps) && i < |ps| && LoggedUpTo(t0, ps, i, s) && Onward(t0, ps, i, s, r) && WellFormed(s.tree)
    ensures LoggedUpTo(t0, ps, i, r)
  {
    AdvanceFacts(s.tree, ps, i, r.tree);
  }

  /** Between two items of a run that made its prechecks on tp and read the journal as prior. */
  ghost predicate Between(t0: Tree, ps: seq<Proposal>, i: nat, tp: Tree, prior: seq<Entry>, s: State)
    requires i <= |ps|
  {
    Sound(t0, ps, i, s) && LoggedUpTo(t0, ps, i, s) && Synced(tp, s.tree, ps, i) && Snapshot(t0, ps, tp, prior, s.journal)
  }

  /** The run has come to its end or to a hard move, and the batch is at rest. */
  ghost predicate AtRest(t0: Tree, ps: seq<Proposal>, rest: Tree, s: State) {
    s.tree == rest && LoggedUpTo(t0, ps, |ps|, s)
  }

  /** A run of the batch from item i on, cut or not. */
  lemma {:induction false} BatchRun(t0: Tree, ps: seq<Proposal>, i: nat, s: State, tp: Tree, prior: seq<Entry>, jobs: seq<Job>, fuel: nat)
    requires MoveBatch(ps) && i <= |ps| && Between(t0, ps, i, tp, prior, s)
    requires ItemsFrom(jobs, Checks(tp, ps), i, prior)
    ensures var r := RunJobs(s, jobs, fuel);
            Sound(t0, ps, 0, r.s) && RestTree(r.s.tree, ps, 0) == RestTree(s.tree, ps, 0)
            && (!r.end.Crashed? ==> AtRest(t0, ps, RestTree(s.tree, ps, 0), r.s))
    decreases |jobs|
  {
    if jobs == [] {
      SettledPrefix(s.tree, ps, 0, |ps|);
    } else {
      var m := ItemScript(s, Precheck(tp, ps[i]), prior);
      ItemsTail(jobs, Checks(tp, ps), i, prior);
      RunTurn(s, jobs, fuel);
      if fuel < |m.Steps()| {
        BatchCut(t0, ps, i, s, tp, prior, fuel);
      } else {
        BatchTurn(t0, ps, i, s, tp, prior);
        if !m.out.Failed? {
          BatchRun(t0, ps, i + 1, Do(s, m.Steps()), tp, prior, jobs[1..], fuel - |m.Steps()|);
        }
      }
    }
  }

  lemma BatchCut(t0: Tree, ps: seq<Proposal>, i: nat, s: State, tp: Tree, prior: seq<Entry>, n: nat)
    requires MoveBatch(ps) && i < |ps| && Between(t0, ps, i, tp, prior, s)
    requires n <= |ItemScript(s, Precheck(tp, ps[i]), prior).Steps()|
    ensures var r := Do(s, ItemScript(s, Precheck(tp, ps[i]), prior).Steps()[..n]);
            Sound(t0, ps, i, r) && RestTree(r.tree, ps, 0) == RestTree(s.tree, ps, 0)
  {
    ItemCut(t0, ps, i, s, tp, prior, n);
    RestStays(s.tree, ps, i, Do(s, ItemScript(s, Precheck(tp, ps[i]), prior).Steps()[..n]).tree);
  }

  lemma BatchTurn(t0: Tree, ps: seq<Proposal>, i: nat, s: State, tp: Tree, prior: seq<Entry>)
    requires MoveBatch(ps) && i < |ps| && Between(t0, ps, i, tp, prior, s)
    ensures var m := ItemScript(s, Precheck(tp, ps[i]), prior); var r := Do(s, m.Steps());
            Sound(t0, ps, i, r) && RestTree(r.tree, ps, 0) == RestTree(s.tree, ps, 0)
            && (if m.out.Failed? then AtRest(t0, ps, RestTree(s.tree, ps, 0), r) else Between(t0, ps, i + 1, tp, prior, r))
  {
    var m := ItemScript(s, Precheck(tp, ps[i]), prior);
    var r := Do(s, m.Steps());
    assert m.Steps()[..|m.Steps()|] == m.Steps();
    ItemCut(t0, ps, i, s, tp, prior, |m.Steps()|);
    RestStays(s.tree, ps, i, r.tree);
    LoggedStays(t0, ps, i, s, r);
    SyncedNext(tp, ps, i, s.tree, r.tree);
    DoJournal(s, m.Steps());
    if m.out.Failed? {
      HardIsRest(t0, ps, i, s, r);
    }
  }

  lemma HardIsRest(t0: Tree, ps: seq<Proposal>, i: nat, s: State, r: State)
    requires MoveBatch(ps) && i < |ps| && Sound(t0, ps, i, s) && Hard(s.tree, ps[i]) && Onward(t0, ps, i, s, r)
    requires LoggedUpTo(t0, ps, i, r)
    ensures r.tree == s.tree == RestTree(s.tree, ps, 0) && LoggedUpTo(t0, ps, |ps|, r)
  {
    SettledPrefix(s.tree, ps, 0, i);
    assert !Settled(r.tree, ps[i]);
    assert ps[i].from in r.tree;
  }

  // ----- Starting over

  /** Runs of the same batch in a row, each with power for so many steps. */
  function ExecuteAgain(s: State, ps: seq<Proposal>, fuels: seq<nat>): State {
    if fuels == [] then s
    else RunCommand(ExecuteAgain(s, ps, fuels[..|fuels| - 1]), Execute(ps), fuels[|fuels| - 1]).s
  }

  lemma Attempt(t0: Tree, ps: seq<Proposal>, s: State, fuel: nat)
    requires MoveBatch(ps) && Sound(t0, ps, 0, s)
    ensures var r := RunCommand(s, Execute(ps), fuel);
            Sound(t0, ps, 0, r.s) && RestTree(r.s.tree, ps, 0) == RestTree(s.tree, ps, 0)
            && (!r.end.Crashed? ==> AtRest(t0, ps, RestTree(s.tree, ps, 0), r.s))
  {
    BatchRun(t0, ps, 0, s, s.tree, s.journal, ItemJobs(s.tree, ps, s.journal), fuel);
  }

  lemma {:induction false} Attempts(t0: Tree, ps: seq<Proposal>, s: State, fuels: seq<nat>)
    requires MoveBatch(ps) && Sound(t0, ps, 0, s)
    ensures var r := ExecuteAgain(s, ps, fuels);
            Sound(t0, ps, 0, r) && RestTree(r.tree, ps, 0) == RestTree(s.tree, ps, 0)
    decreases |fuels|
  {
    if fuels != [] {
      Attempts(t0, ps, s, fuels[..|fuels| - 1]);
      Attempt(t0, ps, ExecuteAgain(s, ps, fuels[..|fuels| - 1]), fuels[|fuels| - 1]);
    }
  }

  lemma BeginSound(ps: seq<Proposal>, s: State)
    requires WellFormed(s.tree) && s.journal == []
    ensures Sound(s.tree, ps, 0, s)
  {
    PlacedStart(s.tree, ps);
  }

  /**
   Crash and retry: after any number of cut or complete runs, a run that is not cut leaves the very
   tree, directories included, of the run that was never cut, and every moved file has an executed row.
   */
  lemma {:induction false} RetryReachesSameTree(s: State, ps: seq<Proposal>, fuels: seq<nat>, last: nat, fuel: nat)
    requires WellFormed(s.tree) && s.journal == [] && MoveBatch(ps)
    requires !RunCommand(ExecuteAgain(s, ps, fuels), Execute(ps), last).end.Crashed?
    requires !RunCommand(s, Execute(ps), fuel).end.Crashed?
    ensures var r := RunCommand(ExecuteAgain(s, ps, fuels), Execute(ps), last).s;
            r.tree == RunCommand(s, Execute(ps), fuel).s.tree
            && forall k :: 0 <= k < |ps| && Gone(s.tree, r.tree, ps[k]) ==>
                 Logged(r.journal, ps[k]) && ps[k].to in r.tree && r.tree[ps[k].to] == s.tree[ps[k].from]
  {
    BeginSound(ps, s);
    Attempt(s.tree, ps, s, fuel);
    Attempts(s.tree, ps, s, fuels);
    Attempt(s.tree, ps, ExecuteAgain(s, ps, fuels), last);
  }

  // ----- Undo after retries

  /** Undo of a completed batch is under way. */
  ghost predicate Returning(t0: Tree, ps: seq<Proposal>, done: State, s: State) {
    Placed(t0, ps, s.tree)
    && (forall p :: IsDir(s.tree, p) ==> IsDir(done.tree, p))
    && (forall k :: 0 <= k < |ps| && Away(t0, s.tree, ps[k]) ==> Away(t0, done.tree, ps[k]))
    && done.journal <= s.journal
    && (forall i :: |done.journal| <= i < |s.journal| ==> !s.journal[i].status.Executed?)
    && (forall e :: e in done.journal && e.status.Executed? && e.id in UndoneIds(s.journal) ==> e.from in s.tree)
  }

  /** The state a finished batch is in. */
  ghost predicate Complete(t0: Tree, ps: seq<Proposal>, done: State) {
    MoveBatch(ps) && WellFormed(t0) && Sound(t0, ps, 0, done) && LoggedUpTo(t0, ps, |ps|, done)
  }

  lemma ExecutedItem(t0: Tree, ps: seq<Proposal>, done: State, e: Entry) returns (k: nat)
    requires Complete(t0, ps, done) && e in done.journal && e.status.Executed?
    ensures k < |ps| && SamePath(e, ps[k]) && Away(t0, done.tree, ps[k]) && e.action.Move?
  {
    k :| 0 <= k < |ps| && SamePath(e, ps[k]);
    assert e.from !in done.tree;
  }

  /** A file that is back at home has left its destination free. */
  lemma HomeFreesDestination(t0: Tree, ps: seq<Proposal>, d: Tree, u: Tree, k: nat)
    requires Placed(t0, ps, d) && Placed(t0, ps, u) && k < |ps| && Away(t0, d, ps[k]) && ps[k].from in u
    requires IsDir(u, ps[k].to) ==> IsDir(d, ps[k].to)
    requires forall l :: 0 <= l < |ps| && Away(t0, u, ps[l]) ==> Away(t0, d, ps[l])
    ensures ps[k].to !in u
  {
    forall l | 0 <= l < |ps| && ps[l].to == ps[k].to
      ensures !Away(t0, u, ps[l])
    {
      assert l < k || k < l || !Away(t0, u, ps[l]);
    }
  }

  lemma ReturnAway(t0: Tree, ps: seq<Proposal>, s: State, e: Entry, k: nat)
    requires WellFormed(t0) && Placed(t0, ps, s.tree) && k < |ps| && SamePath(e, ps[k]) && Away(t0, s.tree, ps[k])
    ensures var m := UndoMove(s, e);
            OneShot(e, m) && m.out.Done? && |m.act| == 2
            && FullTree(s, m) == (s.tree - {e.to})[e.from := t0[e.from]] && WellFormed(FullTree(s, m))
  {
    assert IsDir(t0, Parent(e.from));
    ParentsStay(t0, ps, s.tree, Parent(e.from));
    UndoMoveIsOneShot(s, e);
    NotBelowFile(s.tree, e.to, e.from);
    Relocation(s.tree, e.to, e.from);
  }

  /** What undoing the row of item k does to the tree. */
  lemma ReturnScript(t0: Tree, ps: seq<Proposal>, done: State, s: State, e: Entry, k: nat)
    requires Complete(t0, ps, done) && Returning(t0, ps, done, s)
    requires k < |ps| && SamePath(e, ps[k]) && Away(t0, done.tree, ps[k])
    ensures var m := UndoMove(s, e);
            OneShot(e, m) && m.out.Done? && m.act != []
            && (if e.from in s.tree then FullTree(s, m) == s.tree
                else Away(t0, s.tree, ps[k]) && FullTree(s, m) == (s.tree - {e.to})[e.from := t0[e.from]] && WellFormed(FullTree(s, m)))
  {
    assert Home(t0, s.tree, ps[k]) || Away(t0, s.tree, ps[k]);
    if e.from in s.tree {
      HomeFreesDestination(t0, ps, done.tree, s.tree, k);
    } else {
      ReturnAway(t0, ps, s, e, k);
    }
  }

  lemma ParentsStay(t0: Tree, ps: seq<Proposal>, u: Tree, p: Path)
    requires Placed(t0, ps, u) && IsDir(t0, p)
    ensures IsDir(u, p)
  {
    if Sourced(ps, p) {
      var k :| 0 <= k < |ps| && ps[k].from == p;
      assert Home(t0, u, ps[k]) || Away(t0, u, ps[k]);
    }
  }

  lemma OthersStay(t0: Tree, ps: seq<Proposal>, u: Tree, k: nat, v: Tree, i: nat)
    requires MoveBatch(ps) && k < |ps| && i < |ps| && Placed(t0, ps, u) && Away(t0, u, ps[k])
    requires v == (u - {ps[k].to})[ps[k].from := t0[ps[k].from]]
    ensures Home(t0, v, ps[i]) || Away(t0, v, ps[i])
    ensures Away(t0, v, ps[i]) ==> Away(t0, u, ps[i])
    ensures i != k && Away(t0, u, ps[i]) ==> Away(t0, v, ps[i])
  {
    if i != k {
      PathsApart(ps, i, k);
      SwapFrame(u, ps[k].to, ps[k].from, t0[ps[k].from], v);
      OtherStays(t0, u, ps[i], ps[k], v);
    }
  }

  lemma SwapFrame(u: Tree, a: Path, b: Path, f: Node, v: Tree)
    requires v == (u - {a})[b := f]
    ensures forall p :: p != a && p != b ==> (p in u <==> p in v) && (p in u ==> v[p] == u[p])
  {
  }

  lemma OtherStays(t0: Tree, u: Tree, q: Proposal, moved: Proposal, v: Tree)
    requires forall p :: p != moved.to && p != moved.from ==> (p in u <==> p in v) && (p in u ==> v[p] == u[p])
    requires q.from != moved.from && q.from != moved.to && q.to != moved.from
    requires Home(t0, u, q) || (Away(t0, u, q) && q.to != moved.to)
    ensures Home(t0, v, q) || Away(t0, v, q)
    ensures Away(t0, v, q) ==> Away(t0, u, q)
    ensures Away(t0, u, q) ==> Away(t0, v, q)
  {
  }

  lemma PathsApart(ps: seq<Proposal>, i: nat, k: nat)
    requires MoveBatch(ps) && i < |ps| && k < |ps| && i != k
    ensures ps[i].from != ps[k].from && ps[i].from != ps[k].to && ps[k].from != ps[i].to
  {
    assert !(ps[i].from <= ps[k].to) && !(ps[k].from <= ps[i].to);
  }

  /** Bringing one file home keeps everything else in place. */
  lemma BroughtHome(t0: Tree, ps: seq<Proposal>, u: Tree, k: nat, v: Tree)
    requires MoveBatch(ps) && k < |ps| && Placed(t0, ps, u) && Away(t0, u, ps[k]) && WellFormed(v)
    requires v == (u - {ps[k].to})[ps[k].from := t0[ps[k].from]]
    ensures Placed(t0, ps, v) && Home(t0, v, ps[k])
    ensures forall i :: 0 <= i < |ps| && Away(t0, v, ps[i]) ==> Away(t0, u, ps[i])
  {
    forall i | 0 <= i < |ps|
      ensures Home(t0, v, ps[i]) || Away(t0, v, ps[i])
      ensures Away(t0, v, ps[i]) ==> Away(t0, u, ps[i])
      ensures i != k && Away(t0, u, ps[i]) ==> Away(t0, v, ps[i])
    {
      OthersStay(t0, ps, u, k, v, i);
    }
    forall p | p in v && p !in t0 && !v[p].Dir?
      ensures exists i :: 0 <= i < |ps| && ps[i].to == p && Away(t0, v, ps[i])
    {
      assert p in u && u[p] == v[p];
      var i :| 0 <= i < |ps| && ps[i].to == p && Away(t0, u, ps[i]);
      assert i != k && Away(t0, v, ps[i]);
    }
  }

  lemma RowsStay(rows: seq<Entry>, later: seq<Entry>, id: nat, e: Entry)
    requires UndoRowsAdded(rows, later, id) && e.id in UndoneIds(later) && e.id != id
    ensures e.id in UndoneIds(rows)
  {
    var f :| f in later && f.status.Undone? && f.id == e.id;
    var x :| 0 <= x < |later| && later[x] == f;
    assert x < |rows| && rows[x] == f;
  }

  /** One executed row of the undo loop, cut or not. */
  lemma ReturnTurn(t0: Tree, ps: seq<Proposal>, done: State, s: State, e: Entry, undone: set<nat>, n: nat)
    requires Complete(t0, ps, done) && Returning(t0, ps, done, s) && e in done.journal && e.status.Executed?
    requires undone <= UndoneIds(s.journal) && n <= |UndoScript(s, e, undone, None).Steps()|
    ensures var m := UndoScript(s, e, undone, None); var r := Do(s, m.Steps()[..n]);
            !m.out.Failed? && Returning(t0, ps, done, r) && UndoneIds(s.journal) <= UndoneIds(r.journal)
            && (forall f :: f in done.journal && f.status.Executed? && f.from in s.tree ==> f.from in r.tree)
            && (n == |m.Steps()| ==> e.from in r.tree)
  {
    var m := UndoScript(s, e, undone, None);
    var r := Do(s, m.Steps()[..n]);
    if e.id in undone {
      assert r == s;
    } else {
      var k := ExecutedItem(t0, ps, done, e);
      ReturnScript(t0, ps, done, s, e, k);
      OneShotCut(s, e, m, n);
      if e.from !in s.tree && r.tree == FullTree(s, m) {
        BroughtHome(t0, ps, s.tree, k, r.tree);
      }
      ReturnKept(t0, ps, done, s, e, k, r, n == |m.Steps()|);
    }
  }

  /** What is back stays back. */
  lemma ReturnedStay(t0: Tree, ps: seq<Proposal>, done: State, s: State, e: Entry, k: nat, r: State)
    requires Complete(t0, ps, done) && k < |ps| && SamePath(e, ps[k])
    requires r.tree == s.tree || (e.from in t0 && r.tree == (s.tree - {e.to})[e.from := t0[e.from]])
    ensures forall f :: f in done.journal && f.status.Executed? && f.from in s.tree ==> f.from in r.tree
  {
    forall f | f in done.journal && f.status.Executed? && f.from in s.tree
      ensures f.from in r.tree
    {
      var l := ExecutedItem(t0, ps, done, f);
      assert !(ps[l].from <= ps[k].to);
    }
  }

  lemma ReturnKept(t0: Tree, ps: seq<Proposal>, done: State, s: State, e: Entry, k: nat, r: State, full: bool)
    requires Complete(t0, ps, done) && Returning(t0, ps, done, s) && e in done.journal && e.status.Executed?
    requires k < |ps| && SamePath(e, ps[k]) && Away(t0, done.tree, ps[k])
    requires UndoRowsAdded(s.journal, r.journal, e.id)
    requires UndoneIds(r.journal) == UndoneIds(s.journal) + if full then {e.id} else {}
    requires r.tree == s.tree || (r.tree == (s.tree - {e.to})[e.from := t0[e.from]] && Placed(t0, ps, r.tree)
                                  && forall i :: 0 <= i < |ps| && Away(t0, r.tree, ps[i]) ==> Away(t0, s.tree, ps[i]))
    requires full ==> e.from in r.tree
    ensures Returning(t0, ps, done, r)
    ensures forall f :: f in done.journal && f.status.Executed? && f.from in s.tree ==> f.from in r.tree
  {
    ReturnedStay(t0, ps, done, s, e, k, r);
    forall f | f in done.journal && f.status.Executed? && f.id in UndoneIds(r.journal)
      ensures f.from in r.tree
    {
      if f.id == e.id {
        assert f.from == e.from;
        if !full { assert f.id in UndoneIds(s.journal); }
      } else {
        RowsStay(s.journal, r.journal, e.id, f);
      }
    }
    forall p | IsDir(r.tree, p)
      ensures IsDir(done.tree, p)
    {
      assert IsFile(t0, e.from);
      assert IsDir(s.tree, p);
    }
  }

  /** Sources that were back are still back. */
  ghost predicate StaysBack(done: State, t: Tree, u: Tree) {
    forall f :: f in done.journal && f.status.Executed? && f.from in t ==> f.from in u
  }

  /** The sources of all executed rows among these are back. */
  ghost predicate AllBack(rows: seq<Entry>, u: Tree) {
    forall e :: e in rows && e.status.Executed? ==> e.from in u
  }

  /** The row that was handled and the rows that were left, taken together. */
  lemma BackTogether(done: State, rows: seq<Entry>, last: Entry, s: State, r: State, u: State)
    requires StaysBack(done, s.tree, r.tree) && StaysBack(done, r.tree, u.tree)
    requires last.status.Executed? ==> last in done.journal && last.from in r.tree
    ensures StaysBack(done, s.tree, u.tree) && (AllBack(rows, u.tree) ==> AllBack(rows + [last], u.tree))
  {
  }

  /** The loop over the rows that are left. */
  lemma {:induction false} ReturnLoop(t0: Tree, ps: seq<Proposal>, done: State, s: State, rows: seq<Entry>, undone: set<nat>, fuel: nat)
    requires Complete(t0, ps, done) && Returning(t0, ps, done, s) && undone <= UndoneIds(s.journal)
    requires forall e :: e in rows && e.status.Executed? ==> e in done.journal
    ensures var r := RunJobs(s, UndoJobs(rows, undone, None), fuel);
            !r.end.Stopped? && Returning(t0, ps, done, r.s) && StaysBack(done, s.tree, r.s.tree)
            && (r.end.Finished? ==> AllBack(rows, r.s.tree))
    decreases |rows|
  {
    if rows != [] {
      var last, rest := rows[|rows| - 1], rows[..|rows| - 1];
      var m := UndoScript(s, last, undone, None);
      RunUndoTurn(s, rows, undone, fuel);
      assert last in rows && rows == rest + [last];
      if fuel < |m.Steps()| {
        ReturnTurn(t0, ps, done, s, last, undone, fuel);
      } else {
        var r := Do(s, m.Steps());
        ReturnFullTurn(t0, ps, done, s, last, undone, r);
        ReturnLoop(t0, ps, done, r, rest, undone, fuel - |m.Steps()|);
        BackTogether(done, rest, last, s, r, RunJobs(s, UndoJobs(rows, undone, None), fuel).s);
      }
    }
  }

  /** One row of the undo loop, handled to its end. */
  lemma ReturnFullTurn(t0: Tree, ps: seq<Proposal>, done: State, s: State, last: Entry, undone: set<nat>, r: State)
    requires Complete(t0, ps, done) && Returning(t0, ps, done, s) && undone <= UndoneIds(s.journal)
    requires last.status.Executed? ==> last in done.journal
    requires r == Do(s, UndoScript(s, last, undone, None).Steps())
    ensures !UndoScript(s, last, undone, None).out.Failed? && Returning(t0, ps, done, r) && undone <= UndoneIds(r.journal)
    ensures StaysBack(done, s.tree, r.tree) && (last.status.Executed? ==> last.from in r.tree)
  {
    var m := UndoScript(s, last, undone, None);
    if last.status.Executed? {
      assert m.Steps()[..|m.Steps()|] == m.Steps();
      ReturnTurn(t0, ps, done, s, last, undone, |m.Steps()|);
    } else {
      assert m.Steps() == [] && r == s;
    }
  }

  lemma ReturnOnce(t0: Tree, ps: seq<Proposal>, done: State, s: State, fuel: nat)
    requires Complete(t0, ps, done) && Returning(t0, ps, done, s)
    ensures var r := RunCommand(s, Undo(None), fuel);
            !r.end.Stopped? && Returning(t0, ps, done, r.s)
            && (r.end.Finished? ==> forall e :: e in done.journal && e.status.Executed? ==> e.from in r.s.tree)
  {
    forall e | e in s.journal && e.status.Executed?
      ensures e in done.journal
    {
      var x :| 0 <= x < |s.journal| && s.journal[x] == e;
      assert x < |done.journal| && done.journal[x] == e;
    }
    forall e | e in done.journal ensures e in s.journal {
      var x :| 0 <= x < |done.journal| && done.journal[x] == e;
      assert s.journal[x] == e;
    }
    ReturnLoop(t0, ps, done, s, s.journal, UndoneIds(s.journal), fuel);
  }

  lemma {:induction false} ReturnMany(t0: Tree, ps: seq<Proposal>, done: State, fuels: seq<nat>)
    requires Complete(t0, ps, done)
    ensures Returning(t0, ps, done, UndoAgain(done, fuels))
    decreases |fuels|
  {
    if fuels == [] {
      NotUndone(t0, ps, done);
    } else {
      ReturnMany(t0, ps, done, fuels[..|fuels| - 1]);
      ReturnOnce(t0, ps, done, UndoAgain(done, fuels[..|fuels| - 1]), fuels[|fuels| - 1]);
    }
  }

  lemma NotUndone(t0: Tree, ps: seq<Proposal>, done: State)
    requires Complete(t0, ps, done)
    ensures UndoneIds(done.journal) == {}
  {
    assert forall e :: e in done.journal ==> RowOf(e, ps);
  }

  lemma AllReturned(t0: Tree, ps: seq<Proposal>, done: State, s: State)
    requires Complete(t0, ps, done) && Returning(t0, ps, done, s)
    requires forall e :: e in done.journal && e.status.Executed? ==> e.from in s.tree
    ensures forall k :: 0 <= k < |ps| ==> Home(t0, s.tree, ps[k])
  {
    forall k | 0 <= k < |ps|
      ensures Home(t0, s.tree, ps[k])
    {
      assert Home(t0, s.tree, ps[k]) || Away(t0, s.tree, ps[k]);
      assert Away(t0, s.tree, ps[k]) ==> Logged(done.journal, ps[k]);
    }
  }

  /**
   Crash, retry, undo: after a batch of moves was brought to rest, however many cut runs that took,
   undo, however often it is cut itself, ends with exactly the files of the beginning, identity and
   modification times included.
   */
  lemma {:induction false} UndoAfterRetries(s: State, ps: seq<Proposal>, fuels: seq<nat>, last: nat, undoFuels: seq<nat>, undoLast: nat)
    requires WellFormed(s.tree) && s.journal == [] && MoveBatch(ps)
    requires !RunCommand(ExecuteAgain(s, ps, fuels), Execute(ps), last).end.Crashed?
    ensures var done := RunCommand(ExecuteAgain(s, ps, fuels), Execute(ps), last).s;
            var r := RunCommand(UndoAgain(done, undoFuels), Undo(None), undoLast);
            !r.end.Stopped?
            && (r.end.Finished? ==>
                (forall p :: p in s.tree ==> p in r.s.tree && r.s.tree[p] == s.tree[p]) && (forall p :: IsFile(r.s.tree, p) ==> p in s.tree))
  {
    var t0 := s.tree;
    BeginSound(ps, s);
    Attempts(t0, ps, s, fuels);
    Attempt(t0, ps, ExecuteAgain(s, ps, fuels), last);
    var done := RunCommand(ExecuteAgain(s, ps, fuels), Execute(ps), last).s;
    ReturnMany(t0, ps, done, undoFuels);
    ReturnOnce(t0, ps, done, UndoAgain(done, undoFuels), undoLast);
    var r := RunCommand(UndoAgain(done, undoFuels), Undo(None), undoLast);
    if r.end.Finished? {
      AllReturned(t0, ps, done, r.s);
      AllHome(t0, ps, r.s.tree);
    }
  }
}
