/**
 Undo as the inverse of a past.

 A past is the list of effects some run really had on the tree. Undo only sees the journal, and the
 tree may have gained directories and private files in between. The theorem of this module: from any
 tree that still looks like the end of the past, undo, cut by crashes anywhere and started over any
 number of times, walks the past back to its beginning.
 */
module UndoTheory {
  import opened FileSystem
  import opened Journal
  import opened Scripts
  import opened Steps

  // ----- Comparing trees

  /** Same content and identity; when `strict`, same modification time too. */
  predicate SameFile(strict: bool, f: Node, g: Node) {
    f.File? && g.File? && f.content == g.content && f.id == g.id && (strict ==> f.mtime == g.mtime)
  }

  /** The trees hold the same user files. */
  ghost predicate SameUserFiles(strict: bool, t: Tree, u: Tree) {
    forall p :: !Internal(p) ==>
      (IsFile(t, p) <==> IsFile(u, p)) && (IsFile(t, p) ==> SameFile(strict, t[p], u[p]))
  }

  /** A file left behind by an operation with id n or later. */
  ghost predicate LeftFrom(p: Path, n: nat) {
    exists k: nat :: k >= n && LeftBy(p, k)
  }

  lemma LeftIsInternal(p: Path, n: nat)
    requires LeftFrom(p, n)
    ensures Internal(p)
  {
    var k: nat :| k >= n && LeftBy(p, k);
    PrivateNames(k, k);
  }

  lemma NotLeft(id: nat, n: nat)
    ensures !LeftFrom(Payload(id), n)
    ensures id < n ==> !LeftFrom(Backup(id), n) && !LeftFrom(Absent(id), n) && !LeftFrom(Metadata(id), n)
  {
    forall k: nat | k >= n
      ensures !LeftBy(Payload(id), k)
      ensures id < n ==> !LeftBy(Backup(id), k) && !LeftBy(Absent(id), k) && !LeftBy(Metadata(id), k)
    {
      PrivateNames(id, k);
    }
  }

  /** Directories the engine makes: its own are at most two levels deep. */
  predicate DirPath(p: Path) {
    Internal(p) ==> |p| <= 2
  }

  /** From t to u, only directories and private files of operations from n on were added. */
  ghost predicate Grown(t: Tree, n: nat, u: Tree) {
    (forall p :: p in t ==> p in u && u[p] == t[p])
    && (forall p :: p in u && p !in t ==> (u[p].Dir? && DirPath(p)) || (u[p].File? && LeftFrom(p, n)))
  }

  lemma GrownTransitive(t: Tree, n: nat, u: Tree, m: nat, v: Tree)
    requires Grown(t, n, u) && Grown(u, m, v) && n <= m
    ensures Grown(t, n, v)
  {
    forall p | p in v && p !in t
      ensures (v[p].Dir? && DirPath(p)) || (v[p].File? && LeftFrom(p, n))
    {
      if p in u {
        assert v[p] == u[p];
      } else if !v[p].Dir? {
        var k: nat :| k >= m && LeftBy(p, k);
      }
    }
  }

  /** At path p, u stands for t: see `Sim`. */
  ghost predicate SimAt(strict: bool, u: Tree, t: Tree, n: nat, dirs: set<Path>, p: Path) {
    (IsFile(t, p) ==> IsFile(u, p) && SameFile(strict, u[p], t[p]))
    && (IsFile(u, p) ==> IsFile(t, p) || LeftFrom(p, n))
    && (IsDir(t, p) ==> IsDir(u, p))
    && (IsDir(u, p) ==> p in dirs)
  }

  /**
   u stands for t: same files, except private ones of operations from n on; no directory of t is
   missing and no directory outside `dirs` was added.
   */
  ghost predicate Sim(strict: bool, u: Tree, t: Tree, n: nat, dirs: set<Path>) {
    WellFormed(u) && forall p :: SimAt(strict, u, t, n, dirs, p)
  }

  lemma SimDescends(strict: bool, u: Tree, v: Tree, m: nat, t: Tree, n: nat, dirs: set<Path>)
    requires Sim(strict, u, v, m, dirs) && Grown(t, n, v) && n <= m
    ensures Sim(strict, u, t, n, dirs)
  {
    forall p
      ensures SimAt(strict, u, t, n, dirs, p)
    {
      assert SimAt(strict, u, v, m, dirs, p);
      if LeftFrom(p, m) {
        var k: nat :| k >= m && LeftBy(p, k);
      }
    }
  }

  lemma SimSameUserFiles(strict: bool, u: Tree, t: Tree, n: nat, dirs: set<Path>)
    requires Sim(strict, u, t, n, dirs)
    ensures SameUserFiles(strict, t, u)
  {
    forall p | !Internal(p)
      ensures IsFile(t, p) <==> IsFile(u, p)
      ensures IsFile(t, p) ==> SameFile(strict, t[p], u[p])
    {
      assert SimAt(strict, u, t, n, dirs, p);
      if IsFile(u, p) && !IsFile(t, p) {
        LeftIsInternal(p, n);
      }
    }
  }

  function Dirs(t: Tree): set<Path> {
    set p | p in t && t[p].Dir?
  }

  // ----- The past

  /** An executed operation with the trees right before and right after its effect. */
  datatype Deed = Deed(entry: Entry, pre: Tree, post: Tree)

  predicate MoveLike(e: Entry) {
    e.action.Move? || e.action.Trash?
  }

  /** `post` is the effect of the journaled operation on `pre`. */
  ghost predicate DeedOk(strict: bool, d: Deed) {
    var e, t, u := d.entry, d.pre, d.post;
    e.status.Executed? && e.to != [] && IsDir(u, Parent(e.to)) &&
    match e.action
    case CreateDir => e.to != [] && !Internal(e.to) && e.to !in t && u == t[e.to := Dir]
    case CreateFile =>
      !Internal(e.to) && e.to !in t && IsFile(u, e.to) && u[e.to].content == "" && u == t[e.to := u[e.to]]
    case ReadmeWrite =>
      !strict && e.to == README && e.from == Backup(e.id) && IsFile(u, README) && u == t[README := u[README]]
      && (if IsFile(t, README)
          then u[README].id == t[README].id && IsFile(t, Backup(e.id)) && t[Backup(e.id)].content == t[README].content
          else README !in t && Backup(e.id) !in t && IsFile(t, Absent(e.id)))
    case _ =>
      IsFile(t, e.from) && !Internal(e.from) && !Unsafe(e.from) && e.from != [] && IsDir(t, Parent(e.from))
      && e.to !in t && !Unsafe(e.to) && (e.to == Payload(e.id) || !Internal(e.to))
      && u == (t - {e.from})[e.to := t[e.from]]
  }

  /** From tree t0 the deeds were done in order, with only growth in between, and t1 is the result. */
  datatype Past = Past(strict: bool, t0: Tree, n0: nat, deeds: seq<Deed>, t1: Tree, n1: nat) {
    function PostTree(j: nat): Tree
      requires j <= |deeds|
    {
      if j == 0 then t0 else deeds[j - 1].post
    }

    /** Operations from this id on come after the first j deeds. */
    function PostId(j: nat): nat
      requires j <= |deeds|
    {
      if j == 0 then n0 else deeds[j - 1].entry.id + 1
    }

    function PreTree(j: nat): Tree
      requires j <= |deeds|
    {
      if j == |deeds| then t1 else deeds[j].pre
    }

    function PreId(j: nat): nat
      requires j <= |deeds|
    {
      if j == |deeds| then n1 else deeds[j].entry.id + 1
    }

    ghost predicate Linked(j: nat)
      requires j <= |deeds|
    {
      Grown(PostTree(j), PostId(j), PreTree(j))
      && (if j == |deeds| then PostId(j) <= n1 else PostId(j) <= deeds[j].entry.id)
    }

    ghost predicate Valid() {
      (forall j :: 0 <= j < |deeds| ==> DeedOk(strict, deeds[j]))
      && (forall j :: 0 <= j <= |deeds| ==> Linked(j))
    }

    /** No path that a deed moved a file away from has become a directory. */
    ghost predicate Clear() {
      forall j :: 0 <= j < |deeds| && MoveLike(deeds[j].entry) ==> !IsDir(t1, deeds[j].entry.from)
    }
  }

  /** Later operations have larger ids. */
  lemma {:induction false} IdsIncrease(h: Past, i: nat, j: nat)
    requires h.Valid() && i < j < |h.deeds|
    ensures h.deeds[i].entry.id < h.deeds[j].entry.id
    decreases j
  {
    assert h.Linked(j);
    if i < j - 1 {
      IdsIncrease(h, i, j - 1);
    }
  }

  /** A past never removes a directory. */
  lemma {:induction false} DirsStay(h: Past, i: nat, j: nat, p: Path)
    requires h.Valid() && i <= j <= |h.deeds| && IsDir(h.PreTree(i), p)
    ensures IsDir(h.PreTree(j), p)
    decreases j - i
  {
    if i < j {
      assert DeedOk(h.strict, h.deeds[i]);
      assert h.Linked(i + 1);
      DirsStay(h, i + 1, j, p);
    }
  }

  /** A file of the past that no deed in between moves away is still a file right before deed b. */
  lemma {:induction false} FilesStay(h: Past, j: nat, b: nat, p: Path)
    requires h.Valid() && j <= b <= |h.deeds| && IsFile(h.PostTree(j), p)
    ensures IsFile(h.PreTree(b), p) || exists i :: j <= i < b && MoveLike(h.deeds[i].entry) && h.deeds[i].entry.from == p
    decreases b - j
  {
    assert h.Linked(j);
    if j < b {
      var d := h.deeds[j];
      assert DeedOk(h.strict, d);
      if MoveLike(d.entry) && d.entry.from == p {
      } else {
        FilesStay(h, j + 1, b, p);
      }
    }
  }

  /** Where a deed put a file there is no directory at the end. */
  lemma TargetsClear(h: Past, j: nat)
    requires h.Valid() && h.Clear() && j < |h.deeds| && !h.deeds[j].entry.action.CreateDir?
    ensures !IsDir(h.t1, h.deeds[j].entry.to)
  {
    assert DeedOk(h.strict, h.deeds[j]);
    FilesStay(h, j + 1, |h.deeds|, h.deeds[j].entry.to);
  }

  /** No directory ever takes the place of a keepsake. */
  lemma {:induction false} KeepsakesStay(h: Past, j: nat, p: Path)
    requires h.Valid() && j <= |h.deeds| && !DirPath(p) && IsDir(h.t1, p)
    ensures IsDir(h.PreTree(j), p)
    decreases |h.deeds| - j
  {
    if j < |h.deeds| {
      KeepsakesStay(h, j + 1, p);
      assert h.Linked(j + 1);
      assert DeedOk(h.strict, h.deeds[j]);
    }
  }
}
