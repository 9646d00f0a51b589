/** The two recursive scanners of the managed root, and what each makes of a file. */
module Scan {
  import opened Text
  import opened Journal
  import opened Wrappers

  /** A directory as it is listed: in any order, and perhaps not readable. */
  datatype Listing = Unreadable | Readable(items: seq<Item>)

  datatype Item =
    | FileItem(name: string, size: nat, mtime: Option<nat>)
    | DirItem(name: string, listing: Listing, mtime: Option<nat>)
    | LinkItem(name: string)

  /** What the analyzer keeps of a file. */
  datatype FileEntry = FileEntry(path: string, size: nat, mtime: Option<nat>)

  /** What the search index keeps of a file or directory. */
  datatype SearchEntry = SearchEntry(path: string, name: string, isDir: bool, extension: Option<string>, size: Option<nat>, mtime: Option<nat>)

  predicate Private(name: string) {
    name == STATE_DIR || name == TRASH_DIR
  }

  // ----- Paths as text

  function NonEmpty(parts: seq<string>): seq<string> {
    if parts == [] then [] else (if parts[0] == "" then [] else [parts[0]]) + NonEmpty(parts[1..])
  }

  lemma {:induction false} NonEmptyKeeps(parts: seq<string>)
    ensures forall p :: p in NonEmpty(parts) ==> p in parts
    ensures "" !in parts ==> NonEmpty(parts) == parts
  {
    if parts != [] {
      NonEmptyKeeps(parts[1..]);
      assert parts == [parts[0]] + parts[1..];
    }
  }

  const SLASHES := {'/', '\\'}

  /** Separators become single slashes. */
  function Normalize(path: string): string {
    Join(NonEmpty(Split(path, SLASHES)))
  }

  /** `Path::file_name`: trailing "." components do not count, ".." has no name. */
  function LastName(parts: seq<string>): Option<string> {
    if parts == [] then None
    else
      var last := parts[|parts| - 1];
      if last == "." then LastName(parts[..|parts| - 1]) else if last == ".." then None else Some(last)
  }

  function FileName(path: string): Option<string> {
    LastName(NonEmpty(Split(path, {'/'})))
  }

  function Lower(s: string): string {
    seq(|s|, i requires 0 <= i < |s| => if 'A' <= s[i] <= 'Z' then (s[i] as int + 32) as char else s[i])
  }

  function ExtensionOf(path: string): Option<string> {
    match FileName(path)
    case None => None
    case Some(name) => if LastDot(name) <= 0 then None else Some(Lower(name[LastDot(name) + 1..]))
  }

  /** `indexed_search_entry`. */
  function EntryOf(path: string, isDir: bool, size: Option<nat>, mtime: Option<nat>): Option<SearchEntry> {
    var normal := Normalize(path);
    match FileName(normal)
    case None => None
    case Some(name) =>
      Some(SearchEntry(normal, name, isDir, if isDir then None else ExtensionOf(normal), if isDir then None else size, mtime))
  }

  /** What an operating system with slashes can return as the name of a directory entry. */
  predicate EntryName(name: string) {
    name != "" && name != "." && name != ".." && '/' !in name
  }

  predicate EntryNames(parts: seq<string>) {
    forall p :: p in parts ==> EntryName(p)
  }

  lemma {:induction false} JoinHas(parts: seq<string>, c: char)
    requires c != '/'
    ensures c in Join(parts) <==> exists p :: p in parts && c in p
  {
    if |parts| > 1 {
      JoinHas(parts[1..], c);
      assert Join(parts) == parts[0] + "/" + Join(parts[1..]);
      assert forall p :: p in parts <==> p == parts[0] || p in parts[1..];
    } else if parts != [] {
      assert parts == [parts[0]];
    }
  }

  lemma {:induction false} PartsAreFree(s: string, seps: set<char>)
    ensures forall p :: p in Split(s, seps) ==> Free(p, seps)
  {
    if s != [] {
      PartsAreFree(s[1..], seps);
      var parts := Split(s[1..], seps);
      forall p | p in Split(s, seps)
        ensures Free(p, seps)
      {
        assert parts[0] in parts;
        if p !in parts {
          assert p == [] || p == [s[0]] + parts[0];
        }
      }
    }
  }

  /** A backslash never survives normalization. */
  lemma NormalizedPath(path: string)
    ensures '\\' !in Normalize(path)
  {
    var parts := Split(path, SLASHES);
    PartsAreFree(path, SLASHES);
    NonEmptyKeeps(parts);
    JoinHas(NonEmpty(parts), '\\');
    assert '\\' in SLASHES;
    assert forall p :: p in NonEmpty(parts) ==> Free(p, SLASHES);
  }

  lemma PlainPath(parts: seq<string>)
    requires parts != [] && EntryNames(parts) && '\\' !in Join(parts)
    ensures Normalize(Join(parts)) == Join(parts) && FileName(Join(parts)) == Some(parts[|parts| - 1])
  {
    JoinHas(parts, '\\');
    SplitOfJoin(parts, SLASHES);
    SplitOfJoin(parts, {'/'});
    NonEmptyKeeps(parts);
    assert parts[|parts| - 1] in parts;
  }

  /** The text after the last dot of a name, in lower case; a dot at the beginning does not count. */
  predicate ExtensionIs(name: string, extension: Option<string>) {
    match extension
    case None => forall i :: 0 < i < |name| ==> name[i] != '.'
    case Some(x) =>
      0 < |name| - |x| - 1 && name[|name| - |x| - 1] == '.' && (forall i :: |name| - |x| <= i < |name| ==> name[i] != '.')
      && forall i :: 0 <= i < |x| ==> LowerCase(name[|name| - |x| + i], x[i])
  }

  predicate LowerCase(c: char, low: char) {
    if 'A' <= c <= 'Z' then low as int == c as int + 32 else low == c
  }

  lemma {:induction false} LastDotMeans(name: string)
    ensures var i := LastDot(name); (i >= 0 ==> name[i] == '.') && forall j :: i < j < |name| ==> name[j] != '.'
    decreases |name|
  {
    if name != [] && name[|name| - 1] != '.' {
      LastDotMeans(name[..|name| - 1]);
    }
  }

  lemma PlainExtension(parts: seq<string>)
    requires parts != [] && EntryNames(parts)
    ensures ExtensionIs(parts[|parts| - 1], ExtensionOf(Join(parts)))
  {
    PlainFileName(parts);
    NamedExtension(Join(parts), parts[|parts| - 1]);
  }

  lemma NamedExtension(path: string, name: string)
    requires FileName(path) == Some(name)
    ensures ExtensionIs(name, ExtensionOf(path))
  {
    NameExtension(name);
  }

  lemma PlainFileName(parts: seq<string>)
    requires parts != [] && EntryNames(parts)
    ensures FileName(Join(parts)) == Some(parts[|parts| - 1])
  {
    SplitOfJoin(parts, {'/'});
    NonEmptyKeeps(parts);
    assert parts[|parts| - 1] in parts;
  }

  lemma NameExtension(name: string)
    ensures ExtensionIs(name, if LastDot(name) <= 0 then None else Some(Lower(name[LastDot(name) + 1..])))
  {
    LastDotMeans(name);
    var dot := LastDot(name);
    if dot > 0 {
      var x := Lower(name[dot + 1..]);
      assert |name| - |x| - 1 == dot;
      forall i | 0 <= i < |x|
        ensures LowerCase(name[|name| - |x| + i], x[i])
      {
        assert name[dot + 1..][i] == name[|name| - |x| + i];
      }
    }
  }

  /** A path of plain names is kept as it is, under the last of them. */
  lemma PlainEntry(parts: seq<string>, isDir: bool, size: Option<nat>, mtime: Option<nat>)
    requires parts != [] && EntryNames(parts) && '\\' !in Join(parts)
    ensures var path := Join(parts);
            EntryOf(path, isDir, size, mtime) ==
            Some(SearchEntry(path, parts[|parts| - 1], isDir, if isDir then None else ExtensionOf(path), if isDir then None else size, mtime))
            && ExtensionIs(parts[|parts| - 1], ExtensionOf(path))
  {
    PlainPath(parts);
    PlainExtension(parts);
  }

  // ----- What the scanners collect

  /** Files below a directory, in the order they are visited; unreadable directories are passed over. */
  function FilesOf(item: Item, at: seq<string>): seq<FileEntry> {
    if Private(item.name) then []
    else match item
      case FileItem(name, size, mtime) => [FileEntry(Join(at + [name]), size, mtime)]
      case DirItem(name, listing, _) => if listing.Unreadable? then [] else FilesIn(listing.items, at + [name])
      case LinkItem(_) => []
  }

  function FilesIn(items: seq<Item>, at: seq<string>): seq<FileEntry> {
    if items == [] then [] else FilesIn(items[..|items| - 1], at) + FilesOf(items[|items| - 1], at)
  }

  function OneOrNone(entry: Option<SearchEntry>): seq<SearchEntry> {
    if entry.Some? then [entry.value] else []
  }

  function Both(first: Option<seq<SearchEntry>>, second: Option<seq<SearchEntry>>): Option<seq<SearchEntry>> {
    if first.Some? && second.Some? then Some(first.value + second.value) else None
  }

  /** Search entries below a directory; None when some directory could not be read. */
  function EntriesOf(item: Item, at: seq<string>): Option<seq<SearchEntry>> {
    if Private(item.name) then Some([])
    else match item
      case FileItem(name, size, mtime) => Some(OneOrNone(EntryOf(Join(at + [name]), false, Some(size), mtime)))
      case DirItem(name, listing, mtime) =>
        if listing.Unreadable? then None
        else Both(Some(OneOrNone(EntryOf(Join(at + [name]), true, None, mtime))), EntriesIn(listing.items, at + [name]))
      case LinkItem(_) => Some([])
  }

  function EntriesIn(items: seq<Item>, at: seq<string>): Option<seq<SearchEntry>> {
    if items == [] then Some([])
    else Both(EntriesIn(items[..|items| - 1], at), EntriesOf(items[|items| - 1], at))
  }

  // ----- The scanners

  /** The analyzer's vectors. */
  class Analyzer {
    var files: seq<FileEntry>

    constructor ()
      ensures files == []
    {
      files := [];
    }

    /** `collect_files`. */
    method Collect(items: seq<Item>, at: seq<string>)
      modifies this
      ensures files == old(files) + FilesIn(items, at)
      decreases items
    {
      var k := 0;
      while k < |items|
        invariant k <= |items| && files == old(files) + FilesIn(items[..k], at)
      {
        var item := items[k];
        assert items[..k + 1][..k] == items[..k];
        k := k + 1;
        if Private(item.name) {
          continue;
        }
        match item {
          case LinkItem(_) =>
          case DirItem(name, listing, _) =>
            if listing.Readable? {
              Collect(listing.items, at + [name]);
            }
          case FileItem(name, size, mtime) =>
            files := files + [FileEntry(Join(at + [name]), size, mtime)];
        }
      }
      assert items[..k] == items;
    }
  }

  /** The vector of the search scanner. */
  class Collector {
    var entries: seq<SearchEntry>

    constructor ()
      ensures entries == []
    {
      entries := [];
    }

    /** `visit`: the first unreadable directory ends the scan. */
    method Visit(items: seq<Item>, at: seq<string>) returns (ok: bool)
      modifies this
      ensures ok == EntriesIn(items, at).Some?
      ensures ok ==> Extends(old(entries), entries, EntriesIn(items, at))
      decreases items
    {
      var k := 0;
      while k < |items|
        invariant k <= |items| && Extends(old(entries), entries, EntriesIn(items[..k], at))
      {
        ghost var before := entries;
        ok := VisitItem(items[k], at);
        if !ok {
          EntriesStop(items, k + 1, at);
          return;
        }
        ExtendsTwice(old(entries), before, entries, EntriesIn(items[..k], at), EntriesOf(items[k], at));
        EntriesNext(items, k, at);
        k := k + 1;
      }
      assert items[..k] == items;
      ok := true;
    }

    /** One turn of the loop in `visit`. */
    method VisitItem(item: Item, at: seq<string>) returns (ok: bool)
      modifies this
      ensures ok == EntriesOf(item, at).Some?
      ensures ok ==> Extends(old(entries), entries, EntriesOf(item, at))
      decreases item
    {
      if Private(item.name) {
        return true;
      }
      match item {
        case LinkItem(_) =>
        case DirItem(name, listing, mtime) =>
          var own := OneOrNone(EntryOf(Join(at + [name]), true, None, mtime));
          entries := entries + own;
          if listing.Unreadable? {
            return false;
          }
          ghost var before := entries;
          ok := Visit(listing.items, at + [name]);
          if ok {
            ExtendsTwice(old(entries), before, entries, Some(own), EntriesIn(listing.items, at + [name]));
          }
          return;
        case FileItem(name, size, mtime) =>
          entries := entries + OneOrNone(EntryOf(Join(at + [name]), false, Some(size), mtime));
      }
      ok := true;
    }
  }

  /** The vector has grown by what was found. */
  predicate Extends(before: seq<SearchEntry>, after: seq<SearchEntry>, found: Option<seq<SearchEntry>>) {
    found.Some? && after == before + found.value
  }

  lemma ExtendsTwice(start: seq<SearchEntry>, before: seq<SearchEntry>, after: seq<SearchEntry>,
                     first: Option<seq<SearchEntry>>, second: Option<seq<SearchEntry>>)
    requires Extends(start, before, first) && Extends(before, after, second)
    ensures Extends(start, after, Both(first, second))
  {
    assert (start + first.value) + second.value == start + (first.value + second.value);
  }

  lemma EntriesNext(items: seq<Item>, k: nat, at: seq<string>)
    requires k < |items|
    ensures EntriesIn(items[..k + 1], at) == Both(EntriesIn(items[..k], at), EntriesOf(items[k], at))
  {
    assert items[..k + 1][..k] == items[..k];
  }

  lemma {:induction false} EntriesStop(items: seq<Item>, k: nat, at: seq<string>)
    requires 0 < k <= |items| && EntriesOf(items[k - 1], at).None?
    ensures EntriesIn(items, at).None?
    decreases |items|
  {
    if k < |items| {
      EntriesStop(items[..|items| - 1], k, at);
    }
  }

  // ----- What is scanned, and what is not

  /**
   Going down by the names in `rel`, through readable directories and past no private name, one comes to
   this item.
   */
  predicate Reaches(items: seq<Item>, rel: seq<string>, item: Item)
    decreases |rel|
  {
    rel != [] && rel[0] != ".mousekeeper" && rel[0] != ".mousekeeper_trash"
    && exists i :: 0 <= i < |items| && items[i].name == rel[0] && Leads(items[i], rel, item)
  }

  predicate Leads(first: Item, rel: seq<string>, item: Item)
    requires rel != []
    decreases |rel|, 0
  {
    if |rel| == 1 then first == item
    else first.DirItem? && first.listing.Readable? && Reaches(first.listing.items, rel[1..], item)
  }

  /** No private name occurs on the way. */
  lemma {:induction false} ReachesPublic(items: seq<Item>, rel: seq<string>, item: Item)
    requires Reaches(items, rel, item)
    ensures forall name :: name in rel ==> name != ".mousekeeper" && name != ".mousekeeper_trash"
    decreases |rel|
  {
    if |rel| > 1 {
      var i :| 0 <= i < |items| && items[i].name == rel[0] && Leads(items[i], rel, item);
      ReachesPublic(items[i].listing.items, rel[1..], item);
      assert rel == [rel[0]] + rel[1..];
    } else {
      assert rel == [rel[0]];
    }
  }

  lemma ReachesSplit(items: seq<Item>, rel: seq<string>, item: Item)
    requires items != []
    ensures Reaches(items, rel, item) <==>
            Reaches(items[..|items| - 1], rel, item)
            || (rel != [] && !Private(rel[0]) && items[|items| - 1].name == rel[0] && Leads(items[|items| - 1], rel, item))
  {
    var before, last := items[..|items| - 1], items[|items| - 1];
    if Reaches(items, rel, item) {
      var i :| 0 <= i < |items| && items[i].name == rel[0] && Leads(items[i], rel, item);
      assert i < |before| ==> before[i] == items[i];
    }
    if Reaches(before, rel, item) {
      var i :| 0 <= i < |before| && before[i].name == rel[0] && Leads(before[i], rel, item);
      assert items[i] == before[i];
    }
  }

  /** The entry the analyzer keeps of an item found this way. */
  predicate FileFound(items: seq<Item>, at: seq<string>, rel: seq<string>, item: Item, f: FileEntry) {
    Reaches(items, rel, item) && item.FileItem? && f == FileEntry(Join(at + rel), item.size, item.mtime)
  }

  /** The analyzer lists every regular file that can be reached, and nothing else. */
  lemma {:induction false} FilesListed(items: seq<Item>, at: seq<string>, f: FileEntry)
    ensures f in FilesIn(items, at) <==> exists rel, item :: FileFound(items, at, rel, item, f)
    decreases items, 1
  {
    if items != [] {
      FilesListed(items[..|items| - 1], at, f);
      FileOfItem(items[|items| - 1], at, f);
      FilesListedNext(items, items[..|items| - 1], items[|items| - 1], at, f);
    }
  }

  predicate FileLed(first: Item, at: seq<string>, rel: seq<string>, item: Item, f: FileEntry) {
    rel != [] && !Private(first.name) && first.name == rel[0] && Leads(first, rel, item) && item.FileItem? && f == FileEntry(Join(at + rel), item.size, item.mtime)
  }

  lemma FilesListedNext(items: seq<Item>, before: seq<Item>, last: Item, at: seq<string>, f: FileEntry)
    requires items != [] && before == items[..|items| - 1] && last == items[|items| - 1]
    ensures (exists rel, item :: FileFound(items, at, rel, item, f)) <==>
            (exists rel, item :: FileFound(before, at, rel, item, f)) || (exists rel, item :: FileLed(last, at, rel, item, f))
  {
    forall rel, item
      ensures FileFound(items, at, rel, item, f) <==> FileFound(before, at, rel, item, f) || FileLed(last, at, rel, item, f)
    {
      ReachesSplit(items, rel, item);
    }
  }

  lemma {:induction false} FileOfItem(first: Item, at: seq<string>, f: FileEntry)
    ensures f in FilesOf(first, at) <==> exists rel, item :: FileLed(first, at, rel, item, f)
    decreases first, 0
  {
    if first.DirItem? && first.listing.Readable? && !Private(first.name) {
      var inner := first.listing.items;
      FilesListed(inner, at + [first.name], f);
      forall rel, item | FileFound(inner, at + [first.name], rel, item, f)
        ensures FileLed(first, at, [first.name] + rel, item, f)
      {
        assert ([first.name] + rel)[1..] == rel && at + ([first.name] + rel) == at + [first.name] + rel;
      }
      forall rel, item | FileLed(first, at, rel, item, f)
        ensures FileFound(inner, at + [first.name], rel[1..], item, f)
      {
        assert at + rel == at + [first.name] + rel[1..];
      }
    } else if first.FileItem? && !Private(first.name) {
      assert f in FilesOf(first, at) ==> FileLed(first, at, [first.name], first, f);
      forall rel, item | FileLed(first, at, rel, item, f)
        ensures rel == [first.name]
      {
      }
    }
  }

  /** The entry the search scanner keeps of an item found this way. */
  predicate EntryFound(items: seq<Item>, at: seq<string>, rel: seq<string>, item: Item, e: SearchEntry) {
    Reaches(items, rel, item) && KeptAs(at, rel, item, e)
  }

  predicate KeptAs(at: seq<string>, rel: seq<string>, item: Item, e: SearchEntry) {
    match item
    case FileItem(_, size, mtime) => EntryOf(Join(at + rel), false, Some(size), mtime) == Some(e)
    case DirItem(_, _, mtime) => EntryOf(Join(at + rel), true, None, mtime) == Some(e)
    case LinkItem(_) => false
  }

  predicate EntryLed(first: Item, at: seq<string>, rel: seq<string>, item: Item, e: SearchEntry) {
    rel != [] && !Private(first.name) && first.name == rel[0] && Leads(first, rel, item) && KeptAs(at, rel, item, e)
  }

  /** The search scanner lists every file and directory that can be reached, and nothing else. */
  lemma {:induction false} EntriesListed(items: seq<Item>, at: seq<string>, e: SearchEntry)
    requires EntriesIn(items, at).Some?
    ensures e in EntriesIn(items, at).value <==> exists rel, item :: EntryFound(items, at, rel, item, e)
    decreases items, 1
  {
    if items != [] {
      EntriesListed(items[..|items| - 1], at, e);
      EntryOfItem(items[|items| - 1], at, e);
      EntriesListedNext(items, items[..|items| - 1], items[|items| - 1], at, e);
    }
  }

  lemma EntriesListedNext(items: seq<Item>, before: seq<Item>, last: Item, at: seq<string>, e: SearchEntry)
    requires items != [] && before == items[..|items| - 1] && last == items[|items| - 1]
    ensures (exists rel, item :: EntryFound(items, at, rel, item, e)) <==>
            (exists rel, item :: EntryFound(before, at, rel, item, e)) || (exists rel, item :: EntryLed(last, at, rel, item, e))
  {
    forall rel, item
      ensures EntryFound(items, at, rel, item, e) <==> EntryFound(before, at, rel, item, e) || EntryLed(last, at, rel, item, e)
    {
      ReachesSplit(items, rel, item);
    }
  }

  lemma {:induction false} EntryOfItem(first: Item, at: seq<string>, e: SearchEntry)
    requires EntriesOf(first, at).Some?
    ensures e in EntriesOf(first, at).value <==> exists rel, item :: EntryLed(first, at, rel, item, e)
    decreases first, 0
  {
    var name := first.name;
    if !Private(name) {
      EntryLedShort(first, at, e);
      if first.DirItem? {
        EntriesListed(first.listing.items, at + [name], e);
        EntryLedLong(first, at, e);
      }
    }
  }

  /** The item itself. */
  lemma EntryLedShort(first: Item, at: seq<string>, e: SearchEntry)
    requires !Private(first.name)
    ensures EntryLed(first, at, [first.name], first, e) <==> KeptAs(at, [first.name], first, e)
    ensures forall rel, item :: EntryLed(first, at, rel, item, e) && |rel| == 1 ==> rel == [first.name] && item == first
    ensures !first.DirItem? ==> forall rel, item :: EntryLed(first, at, rel, item, e) ==> rel == [first.name] && item == first
  {
    forall rel, item | EntryLed(first, at, rel, item, e) && |rel| == 1
      ensures rel == [first.name] && item == first
    {
    }
  }

  /** What lies below it. */
  lemma EntryLedLong(first: Item, at: seq<string>, e: SearchEntry)
    requires !Private(first.name) && first.DirItem? && first.listing.Readable?
    ensures (exists rel, item :: EntryLed(first, at, rel, item, e) && |rel| > 1) <==>
            (exists rel, item :: EntryFound(first.listing.items, at + [first.name], rel, item, e))
  {
    var inner, down := first.listing.items, at + [first.name];
    forall rel, item | EntryFound(inner, down, rel, item, e)
      ensures EntryLed(first, at, [first.name] + rel, item, e) && |[first.name] + rel| > 1
    {
      StepDown(first, at, rel, item);
    }
    forall rel, item | EntryLed(first, at, rel, item, e) && |rel| > 1
      ensures EntryFound(inner, down, rel[1..], item, e)
    {
      StepDown(first, at, rel[1..], item);
      assert [first.name] + rel[1..] == rel;
    }
  }

  /** One name more on the way. */
  lemma StepDown(first: Item, at: seq<string>, rel: seq<string>, item: Item)
    requires first.DirItem? && first.listing.Readable? && rel != []
    ensures Leads(first, [first.name] + rel, item) <==> Reaches(first.listing.items, rel, item)
    ensures at + ([first.name] + rel) == at + [first.name] + rel
  {
    assert ([first.name] + rel)[1..] == rel;
  }

  /** The search scanner gives up exactly when it comes to a directory it cannot read. */
  lemma {:induction false} GivesUpIff(items: seq<Item>, at: seq<string>)
    ensures EntriesIn(items, at).None? <==> exists rel, item :: ClosedAt(items, rel, item)
    decreases items, 1
  {
    if items != [] {
      var before, last := items[..|items| - 1], items[|items| - 1];
      GivesUpIff(before, at);
      ItemGivesUp(last, at);
      ClosedNext(items, before, last);
    }
  }

  /** A directory that can be reached but not read. */
  predicate ClosedAt(items: seq<Item>, rel: seq<string>, item: Item) {
    Reaches(items, rel, item) && item.DirItem? && item.listing.Unreadable?
  }

  predicate ClosedBelow(first: Item, rel: seq<string>, item: Item) {
    rel != [] && !Private(first.name) && first.name == rel[0] && Leads(first, rel, item) && item.DirItem? && item.listing.Unreadable?
  }

  lemma ClosedNext(items: seq<Item>, before: seq<Item>, last: Item)
    requires items != [] && before == items[..|items| - 1] && last == items[|items| - 1]
    ensures (exists rel, item :: ClosedAt(items, rel, item)) <==>
            (exists rel, item :: ClosedAt(before, rel, item)) || (exists rel, item :: ClosedBelow(last, rel, item))
  {
    forall rel, item
      ensures ClosedAt(items, rel, item) <==> ClosedAt(before, rel, item) || ClosedBelow(last, rel, item)
    {
      ReachesSplit(items, rel, item);
    }
  }

  lemma {:induction false} ItemGivesUp(first: Item, at: seq<string>)
    ensures EntriesOf(first, at).None? <==> exists rel, item :: ClosedBelow(first, rel, item)
    decreases first, 0
  {
    if !Private(first.name) && first.DirItem? {
      if first.listing.Unreadable? {
        assert ClosedBelow(first, [first.name], first);
      } else {
        var inner := first.listing.items;
        GivesUpIff(inner, at + [first.name]);
        forall rel, item | ClosedAt(inner, rel, item)
          ensures ClosedBelow(first, [first.name] + rel, item)
        {
          StepDown(first, at, rel, item);
        }
        forall rel, item | ClosedBelow(first, rel, item)
          ensures ClosedAt(inner, rel[1..], item)
        {
          assert |rel| > 1;
        }
      }
    }
  }

  // ----- The scanners agree

  predicate NamedItem(item: Item) {
    EntryName(item.name) && (item.DirItem? && item.listing.Readable? ==> NamedItems(item.listing.items))
  }

  predicate NamedItems(items: seq<Item>) {
    items == [] || (NamedItems(items[..|items| - 1]) && NamedItem(items[|items| - 1]))
  }

  /** The files among search entries. */
  function FilesAmong(entries: seq<SearchEntry>): seq<FileEntry> {
    if entries == [] then []
    else
      var last := entries[|entries| - 1];
      FilesAmong(entries[..|entries| - 1]) + if last.isDir || last.size.None? then [] else [FileEntry(last.path, last.size.value, last.mtime)]
  }

  lemma {:induction false} FilesAmongConcat(a: seq<SearchEntry>, b: seq<SearchEntry>)
    ensures FilesAmong(a + b) == FilesAmong(a) + FilesAmong(b)
    decreases |b|
  {
    if b == [] {
      assert a + b == a;
    } else {
      assert (a + b)[..|a + b| - 1] == a + b[..|b| - 1];
      FilesAmongConcat(a, b[..|b| - 1]);
    }
  }

  predicate NoBackslash(files: seq<FileEntry>) {
    forall f :: f in files ==> '\\' !in f.path
  }

  lemma {:induction false} ItemAgrees(item: Item, at: seq<string>)
    requires EntryNames(at) && NamedItem(item) && EntriesOf(item, at).Some? && NoBackslash(FilesOf(item, at))
    ensures FilesAmong(EntriesOf(item, at).value) == FilesOf(item, at)
    decreases item
  {
    if !Private(item.name) {
      match item {
        case DirItem(name, listing, mtime) =>
          ScannersAgree(listing.items, at + [name]);
          var self := OneOrNone(EntryOf(Join(at + [name]), true, None, mtime));
          FilesAmongConcat(self, EntriesIn(listing.items, at + [name]).value);
          assert |self| == 1 ==> self[..0] == [];
        case FileItem(name, size, mtime) =>
          assert FilesOf(item, at)[0] in FilesOf(item, at);
          PlainPath(at + [name]);
          var self := OneOrNone(EntryOf(Join(at + [name]), false, Some(size), mtime));
          assert self[..0] == [];
        case LinkItem(_) =>
      }
    }
  }

  lemma {:induction false} ScannersAgree(items: seq<Item>, at: seq<string>)
    requires EntryNames(at) && NamedItems(items) && EntriesIn(items, at).Some? && NoBackslash(FilesIn(items, at))
    ensures FilesAmong(EntriesIn(items, at).value) == FilesIn(items, at)
    decreases items
  {
    if items != [] {
      var before, last := items[..|items| - 1], items[|items| - 1];
      assert forall f :: f in FilesIn(before, at) || f in FilesOf(last, at) ==> f in FilesIn(items, at);
      ScannersAgree(before, at);
      ItemAgrees(last, at);
      FilesAmongConcat(EntriesIn(before, at).value, EntriesOf(last, at).value);
    }
  }

  predicate Normal(entries: seq<SearchEntry>) {
    forall e :: e in entries ==> '\\' !in e.path
  }

  lemma EntryIsNormal(path: string, isDir: bool, size: Option<nat>, mtime: Option<nat>)
    ensures Normal(OneOrNone(EntryOf(path, isDir, size, mtime)))
  {
    NormalizedPath(path);
  }

  lemma {:induction false} EntriesAreNormal(items: seq<Item>, at: seq<string>)
    requires EntriesIn(items, at).Some?
    ensures Normal(EntriesIn(items, at).value)
    decreases items
  {
    if items != [] {
      EntriesAreNormal(items[..|items| - 1], at);
      var last := items[|items| - 1];
      match last {
        case DirItem(name, listing, mtime) =>
          if !Private(name) {
            EntryIsNormal(Join(at + [name]), true, None, mtime);
            EntriesAreNormal(listing.items, at + [name]);
          }
        case FileItem(name, size, mtime) => EntryIsNormal(Join(at + [name]), false, Some(size), mtime);
        case LinkItem(_) =>
      }
    }
  }

  lemma {:induction false} FilesAmongAreNormal(entries: seq<SearchEntry>)
    requires Normal(entries)
    ensures NoBackslash(FilesAmong(entries))
    decreases |entries|
  {
    if entries != [] {
      FilesAmongAreNormal(entries[..|entries| - 1]);
      assert entries[|entries| - 1] in entries;
    }
  }

  /**
   Whenever the search scanner gets through, it has found the very files the analyzer found, in the
   same order, exactly when no path of a file holds a backslash.
   */
  lemma ScannersAgreeIff(items: seq<Item>)
    requires NamedItems(items) && EntriesIn(items, []).Some?
    ensures FilesAmong(EntriesIn(items, []).value) == FilesIn(items, []) <==> NoBackslash(FilesIn(items, []))
  {
    if NoBackslash(FilesIn(items, [])) {
      ScannersAgree(items, []);
    }
    EntriesAreNormal(items, []);
    FilesAmongAreNormal(EntriesIn(items, []).value);
  }

  /** A file whose name holds a backslash is scanned, and is not the file the analyzer found. */
  lemma BackslashDisagrees()
    ensures var items := [FileItem("a\\b", 0, None)];
            NamedItems(items) && EntriesIn(items, []).Some? && FilesAmong(EntriesIn(items, []).value) != FilesIn(items, [])
  {
    var items := [FileItem("a\\b", 0, None)];
    var file := FileEntry(Join(["a\\b"]), 0, None);
    assert items[..0] == [] && [] + ["a\\b"] == ["a\\b"];
    assert "a\\b"[1] == '\\';
    assert FilesIn(items, []) == [file] && file in FilesIn(items, []) && '\\' in file.path;
    ScannersAgreeIff(items);
  }
}
