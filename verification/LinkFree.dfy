/** Paths without links resolve to themselves. */
module LinkFree {
  import opened Wrappers

  /** An absolute path, one string per component. */
  type Path = seq<string>

  datatype Kind = Folder | Plain | Link(absolute: bool, target: seq<string>)

  /** Every entry of the file system by its place. */
  type Disk = map<Path, Kind>

  predicate IsFolder(d: Disk, p: Path) {
    p == [] || (p in d && d[p].Folder?)
  }

  predicate Parting(name: string) {
    name == "" || name == "." || name == ".."
  }

  /** `canonicalize`: follows links component by component, `hops` of them at most. */
  function Canonical(d: Disk, base: Path, rest: seq<string>, hops: nat): (r: Option<Path>)
    decreases hops, |rest|
  {
    if rest == [] then Some(base)
    else if !IsFolder(d, base) then None
    else if rest[0] == "" || rest[0] == "." then Canonical(d, base, rest[1..], hops)
    else if rest[0] == ".." then Canonical(d, if base == [] then [] else base[..|base| - 1], rest[1..], hops)
    else
      var p := base + [rest[0]];
      if p !in d then None
      else if d[p].Link? then
        if hops == 0 then None else Canonical(d, if d[p].absolute then [] else base, d[p].target + rest[1..], hops - 1)
      else Canonical(d, p, rest[1..], hops)
  }

  /** `symlink_metadata`: links are followed everywhere but in the last component. */
  function Lstat(d: Disk, p: Path, hops: nat): Option<Kind> {
    if p == [] then Some(Folder)
    else match Canonical(d, [], p[..|p| - 1], hops)
      case None => None
      case Some(q) => if IsFolder(d, q) && q + [p[|p| - 1]] in d then Some(d[q + [p[|p| - 1]]]) else None
  }

  /** No component of the path is a link. */
  predicate Straight(d: Disk, p: Path) {
    forall i :: 0 < i <= |p| ==> p[..i] in d && !d[p[..i]].Link?
  }

  predicate Names(rest: seq<string>) {
    forall name :: name in rest ==> !Parting(name)
  }

  lemma StraightPrefix(d: Disk, p: Path, n: nat)
    requires Straight(d, p) && n <= |p|
    ensures Straight(d, p[..n])
  {
    forall i | 0 < i <= n
      ensures p[..n][..i] in d && !d[p[..n][..i]].Link?
    {
      assert p[..n][..i] == p[..i];
    }
  }

  lemma StraightNext(d: Disk, base: Path, name: string)
    requires Straight(d, base) && base + [name] in d && !d[base + [name]].Link?
    ensures Straight(d, base + [name])
  {
    var p := base + [name];
    forall i | 0 < i <= |p|
      ensures p[..i] in d && !d[p[..i]].Link?
    {
      if i < |p| {
        assert p[..i] == base[..i];
      } else {
        assert p[..i] == p;
      }
    }
  }

  /** What canonicalization returns holds no link. */
  lemma {:induction false} CanonicalIsStraight(d: Disk, base: Path, rest: seq<string>, hops: nat)
    requires Straight(d, base) && Canonical(d, base, rest, hops).Some?
    ensures Straight(d, Canonical(d, base, rest, hops).value)
    decreases hops, |rest|
  {
    if rest != [] {
      if rest[0] == "" || rest[0] == "." {
        CanonicalIsStraight(d, base, rest[1..], hops);
      } else if rest[0] == ".." {
        var up := if base == [] then [] else base[..|base| - 1];
        StraightPrefix(d, base, |up|);
        CanonicalIsStraight(d, up, rest[1..], hops);
      } else {
        var p := base + [rest[0]];
        if d[p].Link? {
          CanonicalIsStraight(d, if d[p].absolute then [] else base, d[p].target + rest[1..], hops - 1);
        } else {
          StraightNext(d, base, rest[0]);
          CanonicalIsStraight(d, p, rest[1..], hops);
        }
      }
    }
  }

  /** Every proper prefix of the path, from length n on, is a directory. */
  predicate FoldersFrom(d: Disk, p: Path, n: nat) {
    forall i :: n <= i < |p| ==> IsFolder(d, p[..i])
  }

  /** Along directories and without links, canonicalization changes nothing. */
  lemma {:induction false} StraightIsCanonical(d: Disk, p: Path, n: nat, hops: nat)
    requires n <= |p| && Straight(d, p) && FoldersFrom(d, p, n) && Names(p)
    ensures Canonical(d, p[..n], p[n..], hops) == Some(p)
    decreases |p| - n
  {
    if n == |p| {
      assert p[..n] == p;
    } else {
      assert p[n..][0] == p[n] && p[n] in p;
      assert p[..n] + [p[n]] == p[..n + 1];
      assert p[n..][1..] == p[n + 1..];
      StraightIsCanonical(d, p, n + 1, hops);
    }
  }

  /** `PathGuard::resolve_existing`: canonicalize, then the result must lie below the root. */
  function ResolveExisting(d: Disk, root: Path, relative: seq<string>, hops: nat): Option<Path> {
    if exists name :: name in relative && (name == "" || name == "..") then None
    else match Canonical(d, [], root + relative, hops)
      case None => None
      case Some(q) => if root <= q then Some(q) else None
  }

  /** Entries lie in directories. */
  predicate Sound(d: Disk) {
    forall p :: p in d && p != [] ==> IsFolder(d, p[..|p| - 1])
  }

  /** The managed root is canonical and a directory. */
  predicate GoodRoot(d: Disk, root: Path) {
    Sound(d) && Names(root) && Straight(d, root) && FoldersFrom(d, root, 0) && IsFolder(d, root)
  }

  lemma RootIsCanonical(d: Disk, root: Path, relative: seq<string>, n: nat, hops: nat)
    requires GoodRoot(d, root) && Names(relative) && |root| <= n <= |root| + |relative|
    requires Straight(d, (root + relative)[..n]) && FoldersFrom(d, (root + relative)[..n], |root|)
    ensures Canonical(d, [], (root + relative)[..n], hops) == Some((root + relative)[..n])
  {
    var p := (root + relative)[..n];
    forall i | 0 <= i < |p|
      ensures IsFolder(d, p[..i])
    {
      if i < |root| {
        assert p[..i] == root[..i];
      }
    }
    forall name | name in p
      ensures !Parting(name)
    {
      assert name in root || name in relative;
    }
    StraightIsCanonical(d, p, 0, hops);
    assert p[..0] == [] && p[0..] == p;
  }

  /**
   `validate_no_link_path` accepts a relative path exactly when its components are plain names and
   canonical resolution of the root joined with it is that very join (a directory, if one is asked
   for). So what is accepted lies below the root, however deep it is.
   */
  method ValidateNoLinkPath(d: Disk, root: Path, relative: seq<string>, requireDirectory: bool, hops: nat) returns (ok: bool)
    requires GoodRoot(d, root)
    ensures ok <==> Names(relative) && Canonical(d, [], root + relative, hops) == Some(root + relative)
                    && (requireDirectory ==> IsFolder(d, root + relative))
  {
    if relative == [] {
      RootItself(d, root, hops);
      return true;
    }
    var current, k := root, 0;
    VerifiedAtStart(d, root, relative);
    while k < |relative|
      invariant Verified(d, root, relative, k) && current == (root + relative)[..|root| + k]
    {
      if Parting(relative[k]) {
        assert relative[k] in relative;
        return false;
      }
      StepOkMeans(d, root, relative, k, hops);
      current := current + [relative[k]];
      if !StepOk(d, current, hops) {
        return false;
      }
      k := k + 1;
    }
    AllVerified(d, root, relative, hops);
    ItselfResolves(d, root, relative, hops);
    var resolved := ResolveExisting(d, root, relative, hops);
    ok := resolved.Some? && (requireDirectory ==> IsFolder(d, resolved.value));
  }

  /** The first k components have been looked at: none of them is a link. */
  predicate Verified(d: Disk, root: Path, relative: seq<string>, k: nat) {
    k <= |relative| && Names(relative[..k])
    && Straight(d, (root + relative)[..|root| + k]) && FoldersFrom(d, (root + relative)[..|root| + k], |root|)
  }

  /** The metadata of the path grown by one component can be read and is not that of a link. */
  predicate StepOk(d: Disk, current: Path, hops: nat) {
    var kind := Lstat(d, current, hops);
    kind.Some? && !kind.value.Link?
  }

  lemma StepOkMeans(d: Disk, root: Path, relative: seq<string>, k: nat, hops: nat)
    requires GoodRoot(d, root) && k < |relative| && Verified(d, root, relative, k) && !Parting(relative[k])
    ensures var current := (root + relative)[..|root| + k] + [relative[k]];
            current == (root + relative)[..|root| + k + 1]
            && (if StepOk(d, current, hops) then Verified(d, root, relative, k + 1)
                else Canonical(d, [], root + relative, hops) != Some(root + relative))
  {
    LstatBelow(d, root, relative, k, hops);
    var current := (root + relative)[..|root| + k] + [relative[k]];
    assert current == (root + relative)[..|root| + k + 1];
    if StepOk(d, current, hops) {
      VerifiedNext(d, root, relative, k);
    } else {
      NotItself(d, root, relative, k, hops);
    }
  }

  lemma RootItself(d: Disk, root: Path, hops: nat)
    requires GoodRoot(d, root)
    ensures root + [] == root && Canonical(d, [], root, hops) == Some(root)
  {
    assert (root + [])[..|root|] == root + [] == root;
    RootIsCanonical(d, root, [], |root|, hops);
  }

  lemma VerifiedAtStart(d: Disk, root: Path, relative: seq<string>)
    requires GoodRoot(d, root)
    ensures root == (root + relative)[..|root|] && Verified(d, root, relative, 0)
  {
    assert root == (root + relative)[..|root| + 0];
  }

  lemma ItselfResolves(d: Disk, root: Path, relative: seq<string>, hops: nat)
    requires Names(relative) && Canonical(d, [], root + relative, hops) == Some(root + relative)
    ensures ResolveExisting(d, root, relative, hops) == Some(root + relative)
  {
    assert forall name :: name in relative ==> !Parting(name);
  }

  lemma VerifiedNext(d: Disk, root: Path, relative: seq<string>, k: nat)
    requires Verified(d, root, relative, k) && k < |relative| && !Parting(relative[k])
    requires var base := (root + relative)[..|root| + k];
             IsFolder(d, base) && base + [relative[k]] in d && !d[base + [relative[k]]].Link?
    ensures Verified(d, root, relative, k + 1)
  {
    var base := (root + relative)[..|root| + k];
    assert (root + relative)[..|root| + (k + 1)] == base + [relative[k]];
    assert relative[..k + 1] == relative[..k] + [relative[k]];
    StraightNext(d, base, relative[k]);
    FoldersNext(d, base, relative[k], |root|);
  }

  lemma AllVerified(d: Disk, root: Path, relative: seq<string>, hops: nat)
    requires GoodRoot(d, root) && Verified(d, root, relative, |relative|)
    ensures Names(relative) && Canonical(d, [], root + relative, hops) == Some(root + relative)
  {
    assert relative[..|relative|] == relative;
    assert |root| + |relative| == |root + relative|;
    assert (root + relative)[..|root + relative|] == root + relative;
    RootIsCanonical(d, root, relative, |root| + |relative|, hops);
  }

  lemma FoldersNext(d: Disk, base: Path, name: string, n: nat)
    requires FoldersFrom(d, base, n) && IsFolder(d, base)
    ensures FoldersFrom(d, base + [name], n)
  {
    var p := base + [name];
    forall i | n <= i < |p|
      ensures IsFolder(d, p[..i])
    {
      assert p[..i] == if i < |base| then base[..i] else base;
    }
  }

  /** With everything above verified, the metadata read is that of the entry itself. */
  lemma LstatBelow(d: Disk, root: Path, relative: seq<string>, k: nat, hops: nat)
    requires GoodRoot(d, root) && k < |relative| && Verified(d, root, relative, k)
    ensures var base := (root + relative)[..|root| + k];
            Lstat(d, base + [relative[k]], hops) ==
            if IsFolder(d, base) && base + [relative[k]] in d then Some(d[base + [relative[k]]]) else None
  {
    var base := (root + relative)[..|root| + k];
    var above := relative[..k];
    assert (root + above)[..|root| + k] == base == root + above;
    RootIsCanonical(d, root, above, |root| + k, hops);
    LstatAt(d, base, relative[k], hops);
  }

  lemma LstatAt(d: Disk, base: Path, name: string, hops: nat)
    requires Canonical(d, [], base, hops) == Some(base)
    ensures Lstat(d, base + [name], hops) == if IsFolder(d, base) && base + [name] in d then Some(d[base + [name]]) else None
  {
    var p := base + [name];
    assert p[..|p| - 1] == base;
  }

  /** A path that resolves to itself leads through directories and holds no link. */
  lemma ItselfHasEntries(d: Disk, whole: Path, n: nat, hops: nat)
    requires Sound(d) && Canonical(d, [], whole, hops) == Some(whole) && n < |whole|
    ensures IsFolder(d, whole[..n]) && whole[..n] + [whole[n]] in d && !d[whole[..n] + [whole[n]]].Link?
  {
    assert Straight(d, []);
    CanonicalIsStraight(d, [], whole, hops);
    assert whole[..n + 1] == whole[..n] + [whole[n]];
    assert whole[..n + 1][..n] == whole[..n];
  }

  /** A path through a link, or through something missing, does not resolve to itself. */
  lemma NotItself(d: Disk, root: Path, relative: seq<string>, k: nat, hops: nat)
    requires Sound(d) && k < |relative|
    requires var base := (root + relative)[..|root| + k];
             !(IsFolder(d, base) && base + [relative[k]] in d && !d[base + [relative[k]]].Link?)
    ensures Canonical(d, [], root + relative, hops) != Some(root + relative)
  {
    if Canonical(d, [], root + relative, hops) == Some(root + relative) {
      ItselfHasEntries(d, root + relative, |root| + k, hops);
    }
  }
}
