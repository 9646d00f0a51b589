/** The directory tree under one managed root, and the system calls the file engine makes on it. */
module FileSystem {

  /** A path relative to the managed root, one string per component; the root itself is []. */
  type Path = seq<string>

  datatype Node =
    | Dir
    | File(content: string, mtime: nat, id: nat)

  type Tree = map<Path, Node>

  predicate IsDir(t: Tree, p: Path) {
    p in t && t[p].Dir?
  }

  predicate IsFile(t: Tree, p: Path) {
    p in t && t[p].File?
  }

  function Parent(p: Path): Path
    requires p != []
  {
    p[..|p| - 1]
  }

  /** p is a proper ancestor of q. */
  predicate Above(p: Path, q: Path) {
    p < q
  }

  /** Every entry hangs below directories, up to the root. */
  ghost predicate WellFormed(t: Tree) {
    IsDir(t, []) && forall p {:trigger Parent(p)} :: p != [] && p in t ==> IsDir(t, Parent(p))
  }

  lemma {:induction false} AncestorsAreDirs(t: Tree, p: Path, q: Path)
    requires WellFormed(t) && p in t && Above(q, p)
    ensures IsDir(t, q)
    decreases |p|
  {
    assert IsDir(t, Parent(p));
    if q != Parent(p) {
      AncestorsAreDirs(t, Parent(p), q);
    }
  }

  // ----- System calls

  /** `std::fs` calls, each taken as one atomic change of the tree. */
  datatype Call =
    | Mkdir(path: Path)
    | Rename(from: Path, to: Path)
    | Create(path: Path)
    | Write(path: Path, content: string)
    | Remove(path: Path)
    | Rmdir(path: Path)

  predicate Placeable(t: Tree, p: Path) {
    p != [] && p !in t && IsDir(t, Parent(p))
  }

  predicate HasChild(t: Tree, p: Path) {
    exists q :: q in t && q != [] && Parent(q) == p
  }

  /** When the operating system performs the call instead of returning an error. */
  predicate Enabled(t: Tree, call: Call) {
    match call
    case Mkdir(p) => Placeable(t, p)
    case Rename(a, b) => a in t && Placeable(t, b) && !(a <= b)
    case Create(p) => Placeable(t, p)
    case Write(p, _) => IsFile(t, p) || Placeable(t, p)
    case Remove(p) => IsFile(t, p)
    case Rmdir(p) => p != [] && IsDir(t, p) && !HasChild(t, p)
  }

  /** The tree with everything at or below `a` moved to the same place at or below `b`. */
  function Moved(t: Tree, a: Path, b: Path): Tree {
    var targets := set p | p in t && a <= p :: b + p[|a|..];
    (map p | p in t && !(a <= p) :: t[p]) + (map q | q in targets && a + q[|b|..] in t :: t[a + q[|b|..]])
  }

  /** What the call does to the tree when it succeeds; `now` dates written files and names new ones. */
  function Effect(t: Tree, call: Call, now: nat): Tree {
    match call
    case Mkdir(p) => t[p := Dir]
    case Rename(a, b) => Moved(t, a, b)
    case Create(p) => t[p := File("", now, now)]
    case Write(p, c) => t[p := File(c, now, if IsFile(t, p) then t[p].id else now)]
    case Remove(p) => t - {p}
    case Rmdir(p) => t - {p}
  }

  lemma MovedAt(t: Tree, a: Path, b: Path, p: Path)
    ensures p in Moved(t, a, b) <==> (p in t && !(a <= p)) || (b <= p && a + p[|b|..] in t)
    ensures b <= p && a + p[|b|..] in t ==> Moved(t, a, b)[p] == t[a + p[|b|..]]
    ensures p in t && !(a <= p) && !(b <= p) ==> Moved(t, a, b)[p] == t[p]
  {
    var targets := set q | q in t && a <= q :: b + q[|a|..];
    if b <= p && a + p[|b|..] in t {
      var q := a + p[|b|..];
      assert a <= q && b + q[|a|..] == p;
      assert p in targets;
    }
    if p in targets {
      var q :| q in t && a <= q && b + q[|a|..] == p;
      assert a + p[|b|..] == q;
    }
  }

  /** Moving a regular file removes one entry and adds one. */
  lemma MovedFile(t: Tree, a: Path, b: Path)
    requires WellFormed(t) && IsFile(t, a) && b !in t
    ensures Moved(t, a, b) == (t - {a})[b := t[a]]
  {
    var m, n := Moved(t, a, b), (t - {a})[b := t[a]];
    forall p
      ensures p in m <==> p in n
      ensures p in m ==> m[p] == n[p]
    {
      MovedAt(t, a, b, p);
      if p in t && a <= p && p != a {
        AncestorsAreDirs(t, p, a);
      }
      if b <= p {
        var q := a + p[|b|..];
        if q in t && q != a {
          AncestorsAreDirs(t, q, a);
        }
        assert q == a ==> p == b;
        if p in t && p != b {
          AncestorsAreDirs(t, p, b);
        }
        assert p == b ==> q == a;
      }
    }
  }

  /** A moved entry keeps what lies below it: Moved is a renaming of paths. */
  lemma MovedBack(t: Tree, a: Path, b: Path, p: Path)
    requires WellFormed(t) && Enabled(t, Rename(a, b)) && p in t
    ensures a <= p ==> b + p[|a|..] in Moved(t, a, b) && Moved(t, a, b)[b + p[|a|..]] == t[p]
    ensures !(a <= p) ==> !(b <= p) && p in Moved(t, a, b) && Moved(t, a, b)[p] == t[p]
  {
    if a <= p {
      var q := b + p[|a|..];
      MovedAt(t, a, b, q);
      assert a + q[|b|..] == p;
    } else {
      MovedAt(t, a, b, p);
      if b <= p && p != b {
        AncestorsAreDirs(t, p, b);
      }
    }
  }

  lemma EffectKeepsWellFormed(t: Tree, call: Call, now: nat)
    requires WellFormed(t) && Enabled(t, call)
    ensures WellFormed(Effect(t, call, now))
  {
    var u := Effect(t, call, now);
    if call.Rename? {
      MovedBack(t, call.from, call.to, []);
    }
    forall p {:trigger Parent(p)} | p != [] && p in u
      ensures IsDir(u, Parent(p))
    {
      if call.Rename? {
        MovedKeepsParent(t, call.from, call.to, p);
      } else if p in t {
        assert IsDir(t, Parent(p));
      }
    }
  }

  lemma MovedKeepsParent(t: Tree, a: Path, b: Path, p: Path)
    requires WellFormed(t) && Enabled(t, Rename(a, b)) && p != [] && p in Moved(t, a, b)
    ensures IsDir(Moved(t, a, b), Parent(p))
  {
    MovedAt(t, a, b, p);
    if b <= p && a + p[|b|..] in t {
      if p == b {
        MovedBack(t, a, b, Parent(b));
      } else {
        var q := a + p[|b|..];
        assert IsDir(t, Parent(q));
        assert b + Parent(q)[|a|..] == Parent(p);
        MovedBack(t, a, b, Parent(q));
      }
    } else {
      assert IsDir(t, Parent(p));
      MovedBack(t, a, b, Parent(p));
    }
  }

  // ----- create_dir_all

  /** `create_dir_all(p)` succeeds: the nearest existing entry on the way up is a directory. */
  predicate CanMakeDirs(t: Tree, p: Path)
    decreases |p|
  {
    if p in t then IsDir(t, p) else p != [] && CanMakeDirs(t, Parent(p))
  }

  /** The tree after `create_dir_all(p)`. */
  function AddDirs(t: Tree, p: Path): Tree
    decreases |p|
  {
    if p in t || p == [] then t else AddDirs(t, Parent(p))[p := Dir]
  }

  /** u is t with nothing changed but directories added, all of them at or above p. */
  ghost predicate DirsAdded(t: Tree, u: Tree, p: Path) {
    (forall q :: q in t ==> q in u && u[q] == t[q])
    && (forall q :: q in u && q !in t ==> u[q].Dir? && q != [] && q <= p)
  }

  lemma {:induction false} AddDirsAdds(t: Tree, p: Path)
    ensures DirsAdded(t, AddDirs(t, p), p)
    decreases |p|
  {
    if p !in t && p != [] {
      AddDirsAdds(t, Parent(p));
    }
  }

  lemma {:induction false} AddDirsMakes(t: Tree, p: Path)
    requires WellFormed(t) && CanMakeDirs(t, p)
    ensures WellFormed(AddDirs(t, p)) && IsDir(AddDirs(t, p), p)
    decreases |p|
  {
    if p !in t {
      var u := AddDirs(t, Parent(p));
      AddDirsAdds(t, Parent(p));
      AddDirsMakes(t, Parent(p));
      EffectKeepsWellFormed(u, Mkdir(p), 0);
    }
  }

  /** Nothing below a regular file can be placed. */
  lemma NotBelowFile(t: Tree, f: Path, p: Path)
    requires WellFormed(t) && IsFile(t, f) && p != [] && IsDir(t, Parent(p)) && p !in t
    ensures !(f <= p)
  {
    if f <= p {
      assert f != p;
      assert f == p[..|f|] == Parent(p)[..|f|];
      if f != Parent(p) {
        AncestorsAreDirs(t, Parent(p), f);
      }
    }
  }
}
