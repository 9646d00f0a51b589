/** The two tables of the search index, and the operations that must keep them in step. */
module Index {
  import opened Text
  import opened Journal
  import opened Like
  import opened Scan
  import opened Wrappers

  /** A row of `file_index`. */
  datatype FileRow = FileRow(size: nat, mtime: Option<nat>, extension: Option<string>)

  /** A row of `file_search_entries`. */
  datatype SearchRow = SearchRow(name: string, isDir: bool, extension: Option<string>, size: Option<nat>, mtime: Option<nat>)

  /** The tables, both keyed by path, with the singleton row of `file_index_meta`. */
  datatype Tables = Tables(files: map<string, FileRow>, entries: map<string, SearchRow>, initialized: bool, generation: nat)

  /** The file rows of the search table, seen through the columns of `file_index`. */
  function Projected(entries: map<string, SearchRow>): map<string, FileRow> {
    map p | p in entries && !entries[p].isDir && entries[p].size.Some? ::
      FileRow(entries[p].size.value, entries[p].mtime, entries[p].extension)
  }

  predicate Agree(t: Tables) {
    t.files == Projected(t.entries)
  }

  // ----- Inserting

  function RowOfFile(f: FileEntry): FileRow {
    FileRow(f.size, f.mtime, ExtensionOf(f.path))
  }

  function RowOfEntry(e: SearchEntry): SearchRow {
    SearchRow(e.name, e.isDir, e.extension, e.size, e.mtime)
  }

  /** Plain inserts of all files; None when a path comes twice. */
  function FileTable(files: seq<FileEntry>): Option<map<string, FileRow>> {
    if files == [] then Some(map[])
    else
      var last := files[|files| - 1];
      match FileTable(files[..|files| - 1])
      case None => None
      case Some(table) => if last.path in table then None else Some(table[last.path := RowOfFile(last)])
  }

  function EntryTable(entries: seq<SearchEntry>): Option<map<string, SearchRow>> {
    if entries == [] then Some(map[])
    else
      var last := entries[|entries| - 1];
      match EntryTable(entries[..|entries| - 1])
      case None => None
      case Some(table) => if last.path in table then None else Some(table[last.path := RowOfEntry(last)])
  }

  // ----- The operations on values

  datatype IndexOp =
    | Reindex(root: Listing)
    | Upsert(path: string, size: nat, mtime: Option<nat>)
    | Remove(path: string)
    | Clear

  /** A failed operation rolls its transaction back. */
  function Reindexed(t: Tables, root: Listing): Option<Tables> {
    if root.Unreadable? || EntriesIn(root.items, []).None? then None
    else
      var files, entries := FileTable(FilesIn(root.items, [])), EntryTable(EntriesIn(root.items, []).value);
      if files.None? || entries.None? then None else Some(Tables(files.value, entries.value, true, t.generation + 1))
  }

  /** The rows of one path replaced in both tables, unless another path has the row of the entry. */
  function Replaced(t: Tables, path: string, row: FileRow, e: SearchEntry): Option<Tables> {
    if e.path in t.entries && e.path != path then None
    else Some(Tables(t.files[path := row], (t.entries - {path})[e.path := RowOfEntry(e)], t.initialized, t.generation + 1))
  }

  function Upserted(t: Tables, path: string, size: nat, mtime: Option<nat>): Option<Tables> {
    match EntryOf(path, false, Some(size), mtime)
    case None => None
    case Some(e) => Replaced(t, path, FileRow(size, mtime, ExtensionOf(path)), e)
  }

  /** `trim_end_matches('/')`. */
  function TrimSlashes(path: string): string {
    if path != "" && path[|path| - 1] == '/' then TrimSlashes(path[..|path| - 1]) else path
  }

  /** The path itself and everything below it. */
  predicate Covered(path: string, p: string) {
    p == path || Under(TrimSlashes(path), p)
  }

  function Removed(t: Tables, path: string): Tables {
    Tables(map p | p in t.files && !Covered(path, p) :: t.files[p],
           map p | p in t.entries && !Covered(path, p) :: t.entries[p], t.initialized, t.generation + 1)
  }

  function Cleared(t: Tables): Tables {
    Tables(map[], map[], false, t.generation + 1)
  }

  /** An operation that fails leaves everything as it was. */
  function ApplyOp(t: Tables, op: IndexOp): Tables {
    match op
    case Reindex(root) => (match Reindexed(t, root) case None => t case Some(u) => u)
    case Upsert(path, size, mtime) => (match Upserted(t, path, size, mtime) case None => t case Some(u) => u)
    case Remove(path) => Removed(t, path)
    case Clear => Cleared(t)
  }

  function ApplyOps(t: Tables, ops: seq<IndexOp>): Tables {
    if ops == [] then t else ApplyOp(ApplyOps(t, ops[..|ops| - 1]), ops[|ops| - 1])
  }

  /** The insert loops of one transaction; a repeated path rolls it back. */
  method InsertFiles(files: seq<FileEntry>) returns (table: Option<map<string, FileRow>>)
    ensures table == FileTable(files)
  {
    var rows: map<string, FileRow>, k := map[], 0;
    while k < |files|
      invariant k <= |files| && FileTable(files[..k]) == Some(rows)
    {
      assert files[..k + 1][..k] == files[..k];
      if files[k].path in rows {
        FileTableStops(files, k + 1);
        return None;
      }
      rows := rows[files[k].path := RowOfFile(files[k])];
      k := k + 1;
    }
    assert files[..k] == files;
    table := Some(rows);
  }

  method InsertEntries(entries: seq<SearchEntry>) returns (table: Option<map<string, SearchRow>>)
    ensures table == EntryTable(entries)
  {
    var rows: map<string, SearchRow>, k := map[], 0;
    while k < |entries|
      invariant k <= |entries| && EntryTable(entries[..k]) == Some(rows)
    {
      assert entries[..k + 1][..k] == entries[..k];
      if entries[k].path in rows {
        EntryTableStops(entries, k + 1);
        return None;
      }
      rows := rows[entries[k].path := RowOfEntry(entries[k])];
      k := k + 1;
    }
    assert entries[..k] == entries;
    table := Some(rows);
  }

  // ----- The operations on the database

  class Database {
    var files: map<string, FileRow>
    var entries: map<string, SearchRow>
    var initialized: bool
    var generation: nat

    constructor ()
      ensures Value() == Tables(map[], map[], false, 0)
    {
      files, entries, initialized, generation := map[], map[], false, 0;
    }

    function Value(): Tables
      reads this
    {
      Tables(files, entries, initialized, generation)
    }

    method BumpGeneration()
      modifies this`generation
      ensures generation == old(generation) + 1
    {
      generation := generation + 1;
    }

    /** `reindex_root`: both scans, then both tables rebuilt in one transaction. */
    method ReindexRoot(root: Listing) returns (ok: bool)
      modifies this
      ensures ok == Reindexed(old(Value()), root).Some?
      ensures Value() == ApplyOp(old(Value()), Reindex(root))
    {
      if root.Unreadable? {
        return false;
      }
      var analyzer := new Analyzer();
      analyzer.Collect(root.items, []);
      var collector := new Collector();
      ok := collector.Visit(root.items, []);
      if !ok {
        return;
      }
      assert analyzer.files == FilesIn(root.items, []) && collector.entries == EntriesIn(root.items, []).value;
      var newFiles := InsertFiles(analyzer.files);
      var newEntries := InsertEntries(collector.entries);
      if newFiles.None? || newEntries.None? {
        return false;
      }
      files, entries, initialized := newFiles.value, newEntries.value, true;
      BumpGeneration();
    }

    /** `upsert_file`. */
    method UpsertFile(path: string, size: nat, mtime: Option<nat>) returns (ok: bool)
      modifies this
      ensures ok == Upserted(old(Value()), path, size, mtime).Some?
      ensures Value() == ApplyOp(old(Value()), Upsert(path, size, mtime))
    {
      var entry := EntryOf(path, false, Some(size), mtime);
      if entry.None? {
        return false;
      }
      ok := ReplaceRows(path, FileRow(size, mtime, ExtensionOf(path)), entry.value);
    }

    /** The statements of `upsert_file` in their transaction; a conflict rolls it back. */
    method ReplaceRows(path: string, row: FileRow, entry: SearchEntry) returns (ok: bool)
      modifies this
      ensures ok == Replaced(old(Value()), path, row, entry).Some?
      ensures Value() == if ok then Replaced(old(Value()), path, row, entry).value else old(Value())
    {
      var left := entries - {path};
      if entry.path in left {
        return false;
      }
      files := files[path := row];
      entries := left[entry.path := RowOfEntry(entry)];
      BumpGeneration();
      ok := true;
    }

    /** `remove_path`: the rows are selected by LIKE with the escaped prefix. */
    method RemovePath(path: string)
      modifies this
      ensures Value() == ApplyOp(old(Value()), Remove(path))
    {
      var prefix := Escaped(TrimSlashes(path)) + "/%";
      forall p: string
        ensures Matches(prefix, p) <==> Under(TrimSlashes(path), p)
      {
        EscapedPrefixIsLiteral(TrimSlashes(path), p);
      }
      files := map p | p in files && !(p == path || Matches(prefix, p)) :: files[p];
      entries := map p | p in entries && !(p == path || Matches(prefix, p)) :: entries[p];
      BumpGeneration();
    }

    /** `clear_index`. */
    method ClearIndex()
      modifies this
      ensures Value() == ApplyOp(old(Value()), Clear)
    {
      files, entries, initialized := map[], map[], false;
      BumpGeneration();
    }
  }

  lemma {:induction false} FileTableStops(files: seq<FileEntry>, k: nat)
    requires k <= |files| && FileTable(files[..k]).None?
    ensures FileTable(files).None?
    decreases |files|
  {
    if k < |files| {
      assert files[..|files| - 1][..k] == files[..k];
      FileTableStops(files[..|files| - 1], k);
    } else {
      assert files[..k] == files;
    }
  }

  lemma {:induction false} EntryTableStops(entries: seq<SearchEntry>, k: nat)
    requires k <= |entries| && EntryTable(entries[..k]).None?
    ensures EntryTable(entries).None?
    decreases |entries|
  {
    if k < |entries| {
      assert entries[..|entries| - 1][..k] == entries[..k];
      EntryTableStops(entries[..|entries| - 1], k);
    } else {
      assert entries[..k] == entries;
    }
  }

  // ----- What the operations do to the rows

  /** The same letter, in either ASCII case. */
  predicate SameLetter(a: char, b: char) {
    a == b || ('A' <= a <= 'Z' && b as int == a as int + 32) || ('A' <= b <= 'Z' && a as int == b as int + 32)
  }

  /** p is base followed by a slash and more, up to ASCII case. */
  predicate Below(base: string, p: string) {
    |p| > |base| && p[|base|] == '/' && forall i :: 0 <= i < |base| ==> SameLetter(base[i], p[i])
  }

  lemma FoldMeans(a: char, b: char)
    ensures Like.Fold(a) == Like.Fold(b) <==> SameLetter(a, b)
  {
  }

  lemma BelowIsUnder(base: string, p: string)
    ensures Below(base, p) <==> Under(base, p)
  {
    if |p| > |base| {
      var a, b := FoldAll(p[..|base|]), FoldAll(base);
      forall i | 0 <= i < |base|
        ensures a[i] == b[i] <==> SameLetter(base[i], p[i])
      {
        FoldMeans(base[i], p[i]);
      }
      assert (forall i :: 0 <= i < |base| ==> a[i] == b[i]) <==> a == b;
    }
  }

  lemma {:induction false} TrimIs(base: string, slashes: string)
    requires (base == "" || base[|base| - 1] != '/') && forall c :: c in slashes ==> c == '/'
    ensures TrimSlashes(base + slashes) == base
    decreases |slashes|
  {
    if slashes == "" {
      assert base + slashes == base;
    } else {
      var path := base + slashes;
      assert slashes[|slashes| - 1] in slashes && path[..|path| - 1] == base + slashes[..|slashes| - 1];
      var fewer := slashes[..|slashes| - 1];
      forall c | c in fewer
        ensures c == '/'
      {
        assert slashes == fewer + [slashes[|slashes| - 1]];
        assert c in slashes;
      }
      TrimIs(base, fewer);
    }
  }

  /** Of the keys of one table, the removal leaves those that are neither the path nor below it. */
  ghost predicate SubtreeGone<Row>(before: map<string, Row>, after: map<string, Row>, path: string, base: string) {
    forall p :: (p in after <==> p in before && p != path && !Below(base, p)) && (p in after ==> after[p] == before[p])
  }

  /**
   Removing a path takes the path and, with its trailing slashes left out, everything below it out of both
   tables, up to ASCII case; every other row stays as it is.
   */
  lemma RemovalTakesSubtree(t: Tables, base: string, slashes: string)
    requires (base == "" || base[|base| - 1] != '/') && forall c :: c in slashes ==> c == '/'
    ensures var u := ApplyOp(t, Remove(base + slashes));
            SubtreeGone(t.files, u.files, base + slashes, base) && SubtreeGone(t.entries, u.entries, base + slashes, base)
            && u.initialized == t.initialized && u.generation == t.generation + 1
  {
    TrimIs(base, slashes);
    forall p: string
      ensures Below(base, p) <==> Under(base, p)
    {
      BelowIsUnder(base, p);
    }
  }

  /**
   An upsert of a path of plain names goes through, and sets the one row of the path in each table: the file
   with this size and time, under its own name, with the extension of that name.
   */
  lemma UpsertSetsRows(t: Tables, parts: seq<string>, size: nat, mtime: Option<nat>)
    requires parts != [] && EntryNames(parts) && '\\' !in Join(parts)
    ensures var path, name := Join(parts), parts[|parts| - 1]; var u := ApplyOp(t, Upsert(path, size, mtime));
            path in u.files
            && var extension := u.files[path].extension;
               ExtensionIs(name, extension)
               && u == Tables(t.files[path := FileRow(size, mtime, extension)],
                              t.entries[path := SearchRow(name, false, extension, Some(size), mtime)], t.initialized, t.generation + 1)
  {
    PlainEntry(parts, false, Some(size), mtime);
    var path, name := Join(parts), parts[|parts| - 1];
    var e := SearchEntry(path, name, false, ExtensionOf(path), Some(size), mtime);
    ReplacedInPlace(t, path, FileRow(size, mtime, ExtensionOf(path)), e);
  }

  lemma ReplacedInPlace(t: Tables, path: string, row: FileRow, e: SearchEntry)
    requires e.path == path
    ensures Replaced(t, path, row, e) == Some(Tables(t.files[path := row], t.entries[path := RowOfEntry(e)], t.initialized, t.generation + 1))
  {
    assert (t.entries - {path})[path := RowOfEntry(e)] == t.entries[path := RowOfEntry(e)];
  }

  /** Clearing empties both tables. */
  lemma ClearEmpties(t: Tables)
    ensures ApplyOp(t, Clear) == Tables(map[], map[], false, t.generation + 1)
  {
  }

  /** The rows are those of the listed files. */
  lemma {:induction false} FileTableRows(files: seq<FileEntry>)
    requires FileTable(files).Some?
    ensures forall f :: f in files ==> f.path in FileTable(files).value && FileTable(files).value[f.path] == RowOfFile(f)
    ensures forall p :: p in FileTable(files).value ==> exists f :: f in files && f.path == p
    decreases |files|
  {
    if files != [] {
      var before, last := files[..|files| - 1], files[|files| - 1];
      FileTableRows(before);
      assert files == before + [last];
      KeyAdded(FileTable(before).value, last.path, RowOfFile(last));
    }
  }

  lemma KeyAdded<Row>(table: map<string, Row>, p: string, row: Row)
    requires p !in table
    ensures table[p := row][p] == row && forall q :: q in table ==> q != p && table[p := row][q] == table[q]
  {
  }

  lemma {:induction false} EntryTableRows(entries: seq<SearchEntry>)
    requires EntryTable(entries).Some?
    ensures forall e :: e in entries ==> e.path in EntryTable(entries).value && EntryTable(entries).value[e.path] == RowOfEntry(e)
    ensures forall p :: p in EntryTable(entries).value ==> exists e :: e in entries && e.path == p
    decreases |entries|
  {
    if entries != [] {
      var before, last := entries[..|entries| - 1], entries[|entries| - 1];
      EntryTableRows(before);
      assert entries == before + [last];
    }
  }

  /** The file the tree has at `rel` has its row under that path, with its size, its time and its extension. */
  predicate FileRowOf(rel: seq<string>, item: Item, p: string, row: FileRow) {
    item.FileItem? && p == Join(rel) && row == FileRow(item.size, item.mtime, ExtensionOf(p))
  }

  /** What the tree has at `rel`, a file or a directory, has its row under the path the entry gets. */
  ghost predicate SearchRowOf(rel: seq<string>, item: Item, p: string, row: SearchRow) {
    !item.LinkItem?
    && exists e: SearchEntry :: e.path == p && row == SearchRow(e.name, e.isDir, e.extension, e.size, e.mtime) && KeptAs([], rel, item, e)
  }

  /**
   A reindexing that goes through leaves in each table exactly the rows of what can be reached in the tree,
   whatever was there before.
   */
  lemma ReindexSetsRows(t: Tables, root: Listing)
    requires Reindexed(t, root).Some?
    ensures var u := ApplyOp(t, Reindex(root));
            root.Readable? && u.initialized && u.generation == t.generation + 1
            && (forall rel, item :: Reaches(root.items, rel, item) && item.FileItem? ==> FileKept(u, rel, item))
            && (forall p :: p in u.files ==> exists rel, item :: Reaches(root.items, rel, item) && FileRowOf(rel, item, p, u.files[p]))
            && (forall rel, item, e :: Reaches(root.items, rel, item) && KeptAs([], rel, item, e) ==> e.path in u.entries && u.entries[e.path] == RowOfEntry(e))
            && (forall p :: p in u.entries ==> exists rel, item :: Reaches(root.items, rel, item) && SearchRowOf(rel, item, p, u.entries[p]))
  {
    var u := ApplyOp(t, Reindex(root));
    var items := root.items;
    ReindexedFiles(items, u.files);
    ReindexedEntries(items, u.entries);
  }

  predicate FileKept(u: Tables, rel: seq<string>, item: Item) {
    Join(rel) in u.files && FileRowOf(rel, item, Join(rel), u.files[Join(rel)])
  }

  lemma ReindexedFiles(items: seq<Item>, table: map<string, FileRow>)
    requires FileTable(FilesIn(items, [])) == Some(table)
    ensures forall rel, item :: Reaches(items, rel, item) && item.FileItem? ==> Join(rel) in table && FileRowOf(rel, item, Join(rel), table[Join(rel)])
    ensures forall p :: p in table ==> exists rel, item :: Reaches(items, rel, item) && FileRowOf(rel, item, p, table[p])
  {
    var files := FilesIn(items, []);
    FileTableRows(files);
    forall rel, item | Reaches(items, rel, item) && item.FileItem?
      ensures Join(rel) in table && FileRowOf(rel, item, Join(rel), table[Join(rel)])
    {
      var f := FileEntry(Join(rel), item.size, item.mtime);
      assert [] + rel == rel;
      assert FileFound(items, [], rel, item, f);
      FilesListed(items, [], f);
    }
    forall p | p in table
      ensures exists rel, item :: Reaches(items, rel, item) && FileRowOf(rel, item, p, table[p])
    {
      var f :| f in files && f.path == p;
      FilesListed(items, [], f);
      var rel, item :| FileFound(items, [], rel, item, f);
      assert [] + rel == rel;
      assert Reaches(items, rel, item) && FileRowOf(rel, item, p, table[p]);
    }
  }

  lemma ReindexedEntries(items: seq<Item>, table: map<string, SearchRow>)
    requires EntriesIn(items, []).Some? && EntryTable(EntriesIn(items, []).value) == Some(table)
    ensures forall rel, item, e :: Reaches(items, rel, item) && KeptAs([], rel, item, e) ==> e.path in table && table[e.path] == RowOfEntry(e)
    ensures forall p :: p in table ==> exists rel, item :: Reaches(items, rel, item) && SearchRowOf(rel, item, p, table[p])
  {
    var entries := EntriesIn(items, []).value;
    EntryTableRows(entries);
    forall rel, item, e | Reaches(items, rel, item) && KeptAs([], rel, item, e)
      ensures e.path in table && table[e.path] == RowOfEntry(e)
    {
      assert EntryFound(items, [], rel, item, e);
      EntriesListed(items, [], e);
    }
    forall p | p in table
      ensures exists rel, item :: Reaches(items, rel, item) && SearchRowOf(rel, item, p, table[p])
    {
      var e :| e in entries && e.path == p;
      EntriesListed(items, [], e);
      var rel, item :| EntryFound(items, [], rel, item, e);
      assert Reaches(items, rel, item) && SearchRowOf(rel, item, p, table[p]);
    }
  }

  // ----- The tables agree

  /** Rows the search scanner makes. */
  predicate Scanned(entries: seq<SearchEntry>) {
    forall e :: e in entries ==> (e.isDir ==> e.size.None?) && (!e.isDir ==> e.size.Some? && e.extension == ExtensionOf(e.path))
  }

  lemma {:induction false} EntriesAreScanned(items: seq<Item>, at: seq<string>)
    requires EntriesIn(items, at).Some?
    ensures Scanned(EntriesIn(items, at).value)
    decreases items
  {
    if items != [] {
      EntriesAreScanned(items[..|items| - 1], at);
      var last := items[|items| - 1];
      if last.DirItem? && !Private(last.name) {
        EntriesAreScanned(last.listing.items, at + [last.name]);
      }
    }
  }

  lemma ProjectedNext(table: map<string, SearchRow>, p: string, row: SearchRow)
    requires p !in table && (row.isDir <==> row.size.None?)
    ensures Projected(table[p := row]) ==
            if row.isDir then Projected(table) else Projected(table)[p := FileRow(row.size.value, row.mtime, row.extension)]
  {
  }

  /** Building the search table from a scan builds the file table from its files. */
  lemma {:induction false} TablesTogether(entries: seq<SearchEntry>)
    requires Scanned(entries) && EntryTable(entries).Some?
    ensures FileTable(FilesAmong(entries)) == Some(Projected(EntryTable(entries).value))
    decreases |entries|
  {
    if entries != [] {
      var before, last := entries[..|entries| - 1], entries[|entries| - 1];
      assert last in entries;
      assert forall e :: e in before ==> e in entries;
      TablesTogether(before);
      TogetherNext(before, last);
      assert entries == before + [last];
    }
  }

  lemma TogetherNext(before: seq<SearchEntry>, last: SearchEntry)
    requires Scanned(before + [last]) && EntryTable(before + [last]).Some? && EntryTable(before).Some?
    requires FileTable(FilesAmong(before)) == Some(Projected(EntryTable(before).value))
    ensures FileTable(FilesAmong(before + [last])) == Some(Projected(EntryTable(before + [last]).value))
  {
    var table := EntryTable(before).value;
    assert last in before + [last];
    EntryTableNext(before, last);
    FilesAmongNext(before, last);
    ProjectedNext(table, last.path, RowOfEntry(last));
    if !last.isDir {
      FileTableNext(FilesAmong(before), FileEntry(last.path, last.size.value, last.mtime));
    }
  }

  lemma EntryTableNext(before: seq<SearchEntry>, last: SearchEntry)
    requires EntryTable(before + [last]).Some?
    ensures EntryTable(before).Some? && last.path !in EntryTable(before).value
    ensures EntryTable(before + [last]).value == EntryTable(before).value[last.path := RowOfEntry(last)]
  {
    assert (before + [last])[..|before|] == before;
  }

  lemma FilesAmongNext(before: seq<SearchEntry>, last: SearchEntry)
    requires last.isDir <==> last.size.None?
    ensures FilesAmong(before + [last]) ==
            if last.isDir then FilesAmong(before) else FilesAmong(before) + [FileEntry(last.path, last.size.value, last.mtime)]
  {
    assert (before + [last])[..|before|] == before;
    assert FilesAmong(before) + [] == FilesAmong(before);
  }

  lemma FileTableNext(files: seq<FileEntry>, f: FileEntry)
    requires FileTable(files).Some? && f.path !in FileTable(files).value
    ensures FileTable(files + [f]) == Some(FileTable(files).value[f.path := RowOfFile(f)])
  {
    assert (files + [f])[..|files|] == files;
  }

  /** The operation names its files in normal form; a directory tree holds no backslash in a file path. */
  predicate NormalOp(op: IndexOp) {
    match op
    case Reindex(root) => root.Readable? ==> NamedItems(root.items) && NoBackslash(FilesIn(root.items, []))
    case Upsert(path, _, _) => Normalize(path) == path
    case _ => true
  }

  lemma OpKeepsAgreement(t: Tables, op: IndexOp)
    requires Agree(t) && NormalOp(op)
    ensures Agree(ApplyOp(t, op))
  {
    if op.Reindex? && Reindexed(t, op.root).Some? {
      var items := op.root.items;
      ScannersAgreeIff(items);
      EntriesAreScanned(items, []);
      TablesTogether(EntriesIn(items, []).value);
    }
  }

  /**
   From an empty database, any sequence of reindexing, upserts, removals and clearing on normal paths
   keeps `file_index` the exact projection of the file rows of `file_search_entries`.
   */
  lemma {:induction false} TablesAlwaysAgree(t: Tables, ops: seq<IndexOp>)
    requires Agree(t) && forall op :: op in ops ==> NormalOp(op)
    ensures Agree(ApplyOps(t, ops))
    decreases |ops|
  {
    if ops != [] {
      assert ops[|ops| - 1] in ops;
      TablesAlwaysAgree(t, ops[..|ops| - 1]);
      OpKeepsAgreement(ApplyOps(t, ops[..|ops| - 1]), ops[|ops| - 1]);
    }
  }

  /** An upsert that goes through leaves the tables in agreement exactly when its path is in normal form. */
  lemma UpsertAgreesIffNormal(t: Tables, path: string, size: nat, mtime: Option<nat>)
    requires Agree(t) && Upserted(t, path, size, mtime).Some?
    ensures Agree(Upserted(t, path, size, mtime).value) <==> Normalize(path) == path
  {
    if Normalize(path) == path {
      OpKeepsAgreement(t, Upsert(path, size, mtime));
    } else {
      var u := Upserted(t, path, size, mtime).value;
      assert path in u.files && path !in Projected(u.entries);
    }
  }

  /** A reindexing that goes through makes the tables agree, whatever was in them, exactly when no file path holds a backslash. */
  lemma ReindexAgreesIff(t: Tables, root: Listing)
    requires Reindexed(t, root).Some? && NamedItems(root.items)
    ensures Agree(Reindexed(t, root).value) <==> NoBackslash(FilesIn(root.items, []))
  {
    var items := root.items;
    var files, hits := FilesIn(items, []), EntriesIn(items, []).value;
    ScannersAgreeIff(items);
    EntriesAreScanned(items, []);
    TablesTogether(hits);
    EntriesAreNormal(items, []);
    TableKeys(files);
    EntryKeys(hits);
    if f :| f in files && '\\' in f.path {
      assert f.path in FileTable(files).value;
      assert f.path !in EntryTable(hits).value;
    }
  }

  lemma {:induction false} TableKeys(files: seq<FileEntry>)
    requires FileTable(files).Some?
    ensures forall f :: f in files ==> f.path in FileTable(files).value
    decreases |files|
  {
    if files != [] {
      TableKeys(files[..|files| - 1]);
      assert forall f :: f in files ==> f in files[..|files| - 1] || f == files[|files| - 1];
    }
  }

  lemma {:induction false} EntryKeys(entries: seq<SearchEntry>)
    requires EntryTable(entries).Some?
    ensures forall p :: p in EntryTable(entries).value ==> exists e :: e in entries && e.path == p
    decreases |entries|
  {
    if entries != [] {
      var before, last := entries[..|entries| - 1], entries[|entries| - 1];
      EntryKeys(before);
      assert forall e :: e in before || e == last ==> e in entries;
    }
  }

  // ----- Generations

  /** Every operation raises the generation or does nothing at all; so equal generations mean equal tables. */
  lemma {:induction false} GenerationTells(t: Tables, ops: seq<IndexOp>)
    ensures t.generation <= ApplyOps(t, ops).generation
    ensures ApplyOps(t, ops).generation == t.generation ==> ApplyOps(t, ops) == t
    decreases |ops|
  {
    if ops != [] {
      GenerationTells(t, ops[..|ops| - 1]);
    }
  }
}
