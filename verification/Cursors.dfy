/** Search cursors: printed and parsed text that binds a query and a generation of the index. */
module Cursors {
  import opened Text
  import opened Journal
  import opened Scan
  import opened Index
  import opened Paging
  import opened Wrappers

  const U64: nat := 0x1_0000_0000_0000_0000

  // ----- Text

  /** `{:016x}`. */
  function Hex16(n: nat): string {
    Padded(n, 16, Sixteen)
  }

  function Printed(fingerprint: nat, generation: nat, offset: nat): string {
    "search" + [':'] + (Hex16(fingerprint) + [':'] + (Decimal(generation) + [':'] + Decimal(offset)))
  }

  /** `u64::from_str_radix`: an optional plus sign, at least one digit, and no overflow. */
  function ParseU64(s: string, base: Base): Option<nat> {
    var digits := if s != "" && s[0] == '+' then s[1..] else s;
    var v := Value(digits, base);
    if digits == "" || v < 0 || v >= U64 then None else Some(v)
  }

  datatype Bound = Bound(generation: nat, offset: nat)

  /** `parse_search_cursor` on a cursor that is present: None when it does not match this query. */
  function Parsed(cursor: string, fingerprint: nat): Option<Bound> {
    var parts := Split(cursor, {':'});
    if |parts| != 4 || parts[0] != "search" || ParseU64(parts[1], Sixteen) != Some(fingerprint) then None
    else
      var generation, offset := ParseU64(parts[2], Ten), ParseU64(parts[3], Ten);
      if generation.None? || offset.None? then None else Some(Bound(generation.value, offset.value))
  }

  lemma {:induction false} ValueOfPadded(n: nat, s: string, base: Base)
    requires Value(s, base) >= 0
    ensures Value(Zeros(n) + s, base) == Value(s, base)
    decreases |s|
  {
    var all := Zeros(n) + s;
    if s == [] {
      ValueOfZeros(n, base);
      assert all == Zeros(n);
    } else {
      ValueOfPadded(n, s[..|s| - 1], base);
      assert all[..|all| - 1] == Zeros(n) + s[..|s| - 1];
    }
  }

  lemma {:induction false} ValueOfZeros(n: nat, base: Base)
    ensures Value(Zeros(n), base) == 0
  {
    if n > 0 {
      ValueOfZeros(n - 1, base);
      assert Zeros(n)[..n - 1] == Zeros(n - 1);
    }
  }

  lemma PaddedDigits(n: nat, base: Base, pad: nat)
    ensures forall c :: c in Zeros(pad) + Digits(n, base) ==> DigitValue(c, base) >= 0
  {
    DigitsAreDigits(n, base);
    assert DigitValue('0', base) == 0;
  }

  lemma NumberText(n: nat, base: Base, pad: nat)
    requires n < U64
    ensures var s := Zeros(pad) + Digits(n, base); ParseU64(s, base) == Some(n) && Free(s, {':'})
  {
    var s := Zeros(pad) + Digits(n, base);
    ValueOfDigits(n, base);
    ValueOfPadded(pad, Digits(n, base), base);
    PaddedDigits(n, base, pad);
    assert DigitValue('+', base) < 0 && DigitValue(':', base) < 0;
    assert s[0] in s;
  }

  lemma HexText(n: nat)
    requires n < U64
    ensures ParseU64(Hex16(n), Sixteen) == Some(n) && Free(Hex16(n), {':'})
  {
    var digits := Digits(n, Sixteen);
    var pad := if |digits| < 16 then 16 - |digits| else 0;
    NumberText(n, Sixteen, pad);
    assert Hex16(n) == Zeros(pad) + digits;
  }

  lemma DecimalText(n: nat)
    requires n < U64
    ensures ParseU64(Decimal(n), Ten) == Some(n) && Free(Decimal(n), {':'})
  {
    NumberText(n, Ten, 0);
    assert Decimal(n) == Zeros(0) + Decimal(n);
  }

  lemma PrintedParts(fingerprint: nat, generation: nat, offset: nat)
    requires fingerprint < U64 && generation < U64 && offset < U64
    ensures Split(Printed(fingerprint, generation, offset), {':'}) == ["search", Hex16(fingerprint), Decimal(generation), Decimal(offset)]
  {
    HexText(fingerprint);
    DecimalText(generation);
    DecimalText(offset);
    SplitFirst(Decimal(offset), ':', "", {':'});
    SplitFirst(Decimal(generation), ':', Decimal(offset), {':'});
    SplitFirst(Hex16(fingerprint), ':', Decimal(generation) + [':'] + Decimal(offset), {':'});
    SplitFirst("search", ':', Hex16(fingerprint) + [':'] + (Decimal(generation) + [':'] + Decimal(offset)), {':'});
  }

  /** Printing, then parsing for some query, gives back the numbers exactly when it is the query the cursor was made for. */
  lemma CursorRoundTrip(fingerprint: nat, generation: nat, offset: nat, asked: nat)
    requires fingerprint < U64 && generation < U64 && offset < U64
    ensures Parsed(Printed(fingerprint, generation, offset), asked) ==
            if asked == fingerprint then Some(Bound(generation, offset)) else None
    ensures Printed(fingerprint, generation, offset) != ""
  {
    PrintedParts(fingerprint, generation, offset);
    HexText(fingerprint);
    DecimalText(generation);
    DecimalText(offset);
  }

  function Power16(k: nat): nat {
    if k == 0 then 1 else 16 * Power16(k - 1)
  }

  lemma {:induction false} HexLength(n: nat, k: nat)
    requires n < Power16(k) && k > 0
    ensures |Digits(n, Sixteen)| <= k
    decreases k
  {
    if n / 16 != 0 {
      assert k > 1 by { assert Power16(1) == 16 * Power16(0); }
      HexLength(n / 16, k - 1);
    }
  }

  lemma SixteenDigits()
    ensures Power16(16) == U64
  {
    assert Power16(4) == 0x1_0000 by { assert Power16(2) == 0x100; }
    assert Power16(8) == 0x1_0000_0000 by { assert Power16(6) == 0x100_0000; }
    assert Power16(12) == 0x1_0000_0000_0000 by { assert Power16(10) == 0x100_0000_0000; }
    assert Power16(14) == 0x100_0000_0000_0000;
  }

  lemma HexForm(n: nat)
    requires n < U64
    ensures |Hex16(n)| == 16 && Value(Hex16(n), Sixteen) == n
  {
    var digits := Digits(n, Sixteen);
    SixteenDigits();
    HexLength(n, 16);
    ValueOfDigits(n, Sixteen);
    ValueOfPadded(16 - |digits|, digits, Sixteen);
    assert Hex16(n) == Zeros(16 - |digits|) + digits;
  }

  /** A search cursor: the word search, 16 hexadecimal digits, and two decimal numbers, with colons between. */
  lemma CursorForm(fingerprint: nat, generation: nat, offset: nat)
    requires fingerprint < U64 && generation < U64 && offset < U64
    ensures var parts := Split(Printed(fingerprint, generation, offset), {':'});
            |parts| == 4 && parts[0] == "search" && |parts[1]| == 16 && Value(parts[1], Sixteen) == fingerprint
            && Value(parts[2], Ten) == generation && Value(parts[3], Ten) == offset
  {
    PrintedParts(fingerprint, generation, offset);
    HexForm(fingerprint);
    ValueOfDigits(generation, Ten);
    ValueOfDigits(offset, Ten);
  }

  // ----- One fetch

  datatype Query = Query(text: string, extensions: seq<string>, limit: nat)

  /** What stays fixed while a client pages: the directory tree, and functions of it and of the tables. */
  datatype World = World(root: Listing, valid: Hit -> bool, select: (Tables, Query) -> seq<Hit>, fingerprint: Query -> nat)

  datatype Failure = CursorInvalidated | OutsideManagedRoot

  datatype Reply = Answered(entries: seq<Hit>, next: Option<string>) | Declined(code: Failure)

  predicate MatchesExtensions(hit: Hit, extensions: seq<string>) {
    extensions == [] || (!hit.row.isDir && hit.row.extension.Some? && hit.row.extension.value in extensions)
  }

  predicate EndsWith(s: string, suffix: string) {
    |s| >= |suffix| && s[|s| - |suffix|..] == suffix
  }

  predicate OccursAt(s: string, part: string, i: nat) {
    i + |part| <= |s| && s[i..i + |part|] == part
  }

  predicate Contains(s: string, part: string) {
    exists i :: 0 <= i <= |s| && OccursAt(s, part, i)
  }

  /** `is_remotely_browsable_name`. */
  predicate Browsable(name: string) {
    var low := Lower(name);
    low != STATE_DIR && low != TRASH_DIR
    && (forall suffix :: suffix in [".tmp", ".crdownload", ".part", ".lock", ".download", ".key", ".pem", ".p12", ".pfx"] ==> !EndsWith(low, suffix))
    && (forall part :: part in ["credential", "password", "secret", "token"] ==> !Contains(low, part))
  }

  function Keep(w: World, q: Query): Hit -> bool {
    (hit: Hit) => w.valid(hit) && MatchesExtensions(hit, q.extensions)
  }

  function Visible(): Hit -> bool {
    (hit: Hit) => Browsable(hit.row.name)
  }

  predicate Acceptable(q: Query) {
    1 <= q.limit <= MAX_LIMIT && 2 <= |q.text| <= 100
  }

  /** The tables after the index was rebuilt if it had to be; None when that failed. */
  function Opened(w: World, t: Tables): Option<Tables> {
    if t.initialized then Some(t) else Reindexed(t, w.root)
  }

  /** `build_search_result_page_limited`: the tables afterwards, and the reply. */
  function Fetch(w: World, t: Tables, q: Query, cursor: Option<string>): (Tables, Reply) {
    var parsed := if cursor.None? || cursor.value == "" then Some(Bound(0, 0)) else Parsed(cursor.value, w.fingerprint(q));
    if !(1 <= q.limit <= MAX_LIMIT) || parsed.None? then (t, Declined(CursorInvalidated))
    else match Opened(w, t)
      case None => (t, Declined(OutsideManagedRoot))
      case Some(u) =>
        if !Acceptable(q) || (cursor.Some? && cursor.value != "" && parsed.value.generation != u.generation) then (u, Declined(CursorInvalidated))
        else
          var page := PageOf(w.select(u, q), Keep(w, q), parsed.value.offset, q.limit);
          var next := match page.next case None => None case Some(n) => Some(Printed(w.fingerprint(q), u.generation, n));
          (u, Answered(Filter(page.entries, Visible()), next))
  }

  // ----- A chain of fetches

  datatype Ending = Complete | Pending | Refused(code: Failure)

  datatype Chain = Chain(pages: seq<seq<Hit>>, ending: Ending)

  /** Fetch, and fetch on with the returned cursor; before each further fetch the listed index operations happen. */
  function Follow(w: World, t: Tables, q: Query, cursor: Option<string>, between: seq<seq<IndexOp>>): Chain
    decreases |between|
  {
    var (u, reply) := Fetch(w, t, q, cursor);
    if reply.Declined? then Chain([], Refused(reply.code))
    else if reply.next.None? then Chain([reply.entries], Complete)
    else if between == [] then Chain([reply.entries], Pending)
    else
      var rest := Follow(w, ApplyOps(u, between[0]), q, reply.next, between[1..]);
      Chain([reply.entries] + rest.pages, rest.ending)
  }

  /** What the client is owed: the browsable matching rows of the index. */
  function Owed(w: World, t: Tables, q: Query, offset: nat): seq<Hit> {
    var rows := w.select(t, q);
    if offset <= |rows| then Filter(Filter(rows[offset..], Keep(w, q)), Visible()) else []
  }

  /** Numbers fit in 64 bits. */
  ghost predicate Fits(w: World, t: Tables, q: Query) {
    w.fingerprint(q) < U64 && t.generation < U64 && |w.select(t, q)| < U64
  }

  lemma FilterFirst(row: Hit, rows: seq<Hit>, keep: Hit -> bool)
    ensures Filter([row] + rows, keep) == Filter([row], keep) + Filter(rows, keep)
  {
    assert ([row] + rows)[1..] == rows && [row][1..] == [];
  }

  lemma {:induction false} FilterConcat(a: seq<Hit>, b: seq<Hit>, keep: Hit -> bool)
    ensures Filter(a + b, keep) == Filter(a, keep) + Filter(b, keep)
  {
    if a == [] {
      assert a + b == b;
    } else {
      FilterConcat(a[1..], b, keep);
      FilterFirst(a[0], a[1..] + b, keep);
      FilterFirst(a[0], a[1..], keep);
      assert a + b == [a[0]] + (a[1..] + b) && a == [a[0]] + a[1..];
    }
  }

  /** The cursor for row `offset` of the tables t. */
  function CursorAt(w: World, t: Tables, q: Query, offset: nat): Option<string> {
    Some(Printed(w.fingerprint(q), t.generation, offset))
  }

  /** A cursor of another generation is refused; the index may first have to be rebuilt. */
  lemma StaleCursorIsRefused(w: World, t: Tables, q: Query, offset: nat, ops: seq<IndexOp>)
    requires Fits(w, t, q) && Acceptable(q) && offset < U64 && ApplyOps(t, ops) != t
    ensures var u := ApplyOps(t, ops);
            Fetch(w, u, q, CursorAt(w, t, q, offset)).1 ==
            Declined(if Opened(w, u).Some? then CursorInvalidated else OutsideManagedRoot)
  {
    CursorRoundTrip(w.fingerprint(q), t.generation, offset, w.fingerprint(q));
    GenerationTells(t, ops);
  }

  /** One page of an index that has not changed. */
  lemma FreshFetch(w: World, t: Tables, q: Query, offset: nat, first: bool)
    requires Fits(w, t, q) && Acceptable(q) && t.initialized && offset <= |w.select(t, q)| && (first ==> offset == 0)
    ensures var (u, reply) := Fetch(w, t, q, if first then None else CursorAt(w, t, q, offset));
            u == t && reply.Answered?
            && (reply.next.None? ==> reply.entries == Owed(w, t, q, offset))
            && (reply.next.Some? ==> exists n :: offset < n < |w.select(t, q)| && reply.next == CursorAt(w, t, q, n)
                                                 && reply.entries + Owed(w, t, q, n) == Owed(w, t, q, offset))
  {
    CursorRoundTrip(w.fingerprint(q), t.generation, offset, w.fingerprint(q));
    var rows := w.select(t, q);
    var page := PageOf(rows, Keep(w, q), offset, q.limit);
    PageMeans(rows, Keep(w, q), offset, q.limit);
    if page.next.Some? {
      var n := page.next.value;
      FilterConcat(page.entries, Filter(rows[n..], Keep(w, q)), Visible());
      assert Filter(page.entries, Visible()) + Owed(w, t, q, n) == Owed(w, t, q, offset);
    }
  }

  /** Which of the operation lists before the k-th further fetch leave the tables alone. */
  predicate Quiet(t: Tables, between: seq<seq<IndexOp>>, k: nat)
    requires k <= |between|
  {
    forall i :: 0 <= i < k ==> ApplyOps(t, between[i]) == t
  }

  /** How a chain from row `offset` on relates to what is owed. */
  ghost predicate Exact(w: World, t: Tables, q: Query, offset: nat, between: seq<seq<IndexOp>>, chain: Chain) {
    match chain.ending
    case Complete => Flatten(chain.pages) == Owed(w, t, q, offset) && 1 <= |chain.pages| <= |between| + 1 && Quiet(t, between, |chain.pages| - 1)
    case Pending => Flatten(chain.pages) <= Owed(w, t, q, offset) && Quiet(t, between, |between|)
    case Refused(code) =>
      Flatten(chain.pages) <= Owed(w, t, q, offset)
      && 1 <= |chain.pages| <= |between| && Quiet(t, between, |chain.pages| - 1)
      && var u := ApplyOps(t, between[|chain.pages| - 1]);
         u.generation > t.generation && code == (if Opened(w, u).Some? then CursorInvalidated else OutsideManagedRoot)
  }

  lemma {:induction false} ChainFrom(w: World, t: Tables, q: Query, offset: nat, first: bool, between: seq<seq<IndexOp>>)
    requires Fits(w, t, q) && Acceptable(q) && t.initialized && offset <= |w.select(t, q)| && (first ==> offset == 0)
    ensures Exact(w, t, q, offset, between, Follow(w, t, q, if first then None else CursorAt(w, t, q, offset), between))
    decreases |between|
  {
    var cursor := if first then None else CursorAt(w, t, q, offset);
    var chain := Follow(w, t, q, cursor, between);
    FreshFetch(w, t, q, offset, first);
    var reply := Fetch(w, t, q, cursor).1;
    assert Flatten([reply.entries]) == reply.entries + Flatten([]) == reply.entries;
    if reply.next.Some? && between != [] {
      var n :| offset < n < |w.select(t, q)| && reply.next == CursorAt(w, t, q, n)
               && reply.entries + Owed(w, t, q, n) == Owed(w, t, q, offset);
      var u := ApplyOps(t, between[0]);
      if u == t {
        ChainFrom(w, t, q, n, false, between[1..]);
        ChainNext(w, t, q, offset, n, between, reply.entries, Follow(w, t, q, reply.next, between[1..]));
      } else {
        StaleCursorIsRefused(w, t, q, n, between[0]);
        RefusedNext(w, t, q, offset, n, between, reply.entries);
      }
    }
  }

  /** The tables have changed before the next fetch. */
  lemma RefusedNext(w: World, t: Tables, q: Query, offset: nat, n: nat, between: seq<seq<IndexOp>>, page: seq<Hit>)
    requires between != [] && ApplyOps(t, between[0]) != t && page + Owed(w, t, q, n) == Owed(w, t, q, offset)
    ensures var code := if Opened(w, ApplyOps(t, between[0])).Some? then CursorInvalidated else OutsideManagedRoot;
            Exact(w, t, q, offset, between, Chain([page] + [], Refused(code)))
  {
    GenerationTells(t, between[0]);
    assert [page] + [] == [page];
    assert Flatten([page]) == page + Flatten([]) == page;
  }

  lemma ChainNext(w: World, t: Tables, q: Query, offset: nat, n: nat, between: seq<seq<IndexOp>>, page: seq<Hit>, rest: Chain)
    requires between != [] && ApplyOps(t, between[0]) == t && Exact(w, t, q, n, between[1..], rest)
    requires page + Owed(w, t, q, n) == Owed(w, t, q, offset)
    ensures Exact(w, t, q, offset, between, Chain([page] + rest.pages, rest.ending))
  {
    var pages := [page] + rest.pages;
    FlattenNext(page, rest.pages, Owed(w, t, q, n));
    match rest.ending {
      case Complete => QuietNext(t, between, |rest.pages| - 1);
      case Pending => QuietNext(t, between, |between| - 1);
      case Refused(_) =>
        QuietNext(t, between, |rest.pages| - 1);
        assert between[1..][|rest.pages| - 1] == between[|pages| - 1];
    }
  }

  lemma QuietNext(t: Tables, between: seq<seq<IndexOp>>, k: nat)
    requires between != [] && ApplyOps(t, between[0]) == t && k < |between| && Quiet(t, between[1..], k)
    ensures Quiet(t, between, k + 1)
  {
    forall i | 0 <= i < k + 1
      ensures ApplyOps(t, between[i]) == t
    {
      if i > 0 {
        assert between[i] == between[1..][i - 1];
      }
    }
  }

  /** A page in front of pages that give all or a first part of what is owed. */
  lemma FlattenNext(page: seq<Hit>, pages: seq<seq<Hit>>, owed: seq<Hit>)
    ensures Flatten([page] + pages) == page + Flatten(pages)
    ensures Flatten(pages) <= owed ==> Flatten([page] + pages) <= page + owed
  {
    assert ([page] + pages)[1..] == pages;
  }

  /**
   With the tree fixed, a chain of fetches that completes has returned every browsable matching row of
   the index once and in order. Otherwise it has returned a prefix of them and was refused at the first
   fetch after the index had changed.
   */
  lemma ChainIsExactOrRefused(w: World, t: Tables, q: Query, between: seq<seq<IndexOp>>)
    requires Acceptable(q) && Opened(w, t).Some? && Fits(w, Opened(w, t).value, q)
    ensures Exact(w, Opened(w, t).value, q, 0, between, Follow(w, t, q, None, between))
  {
    var u := Opened(w, t).value;
    ChainFrom(w, u, q, 0, true, between);
    assert Fetch(w, t, q, None) == Fetch(w, u, q, None);
  }

  // ----- What an answer holds

  /** The row may be shown for this query. */
  predicate Shown(w: World, q: Query, h: Hit) {
    w.valid(h) && Browsable(h.row.name)
    && (q.extensions == [] || (!h.row.isDir && exists x :: x in q.extensions && h.row.extension == Some(x)))
  }

  lemma {:induction false} FilterMeans(rows: seq<Hit>, keep: Hit -> bool)
    ensures forall h :: h in Filter(rows, keep) <==> h in rows && keep(h)
  {
    if rows != [] {
      FilterMeans(rows[1..], keep);
      assert rows == [rows[0]] + rows[1..];
    }
  }

  /** What is owed from the first row on is every selected row that may be shown. */
  lemma OwedMeans(w: World, t: Tables, q: Query)
    ensures forall h :: h in Owed(w, t, q, 0) <==> h in w.select(t, q) && Shown(w, q, h)
  {
    var rows := w.select(t, q);
    assert rows[0..] == rows;
    FilterMeans(rows, Keep(w, q));
    FilterMeans(Filter(rows, Keep(w, q)), Visible());
  }

  /** Answers come only for 1 to 200 rows and texts of 2 to 100 characters, and hold only selected rows that may be shown. */
  lemma AnswerMeans(w: World, t: Tables, q: Query, cursor: Option<string>)
    requires Fetch(w, t, q, cursor).1.Answered?
    ensures 1 <= q.limit <= 200 && 2 <= |q.text| <= 100
    ensures var (u, reply) := Fetch(w, t, q, cursor);
            |reply.entries| <= q.limit && forall h :: h in reply.entries ==> h in w.select(u, q) && Shown(w, q, h)
  {
    var u := Opened(w, t).value;
    var offset := if cursor.None? || cursor.value == "" then 0 else Parsed(cursor.value, w.fingerprint(q)).value.offset;
    PageIsSelected(w.select(u, q), Keep(w, q), offset, q.limit);
    var page := PageOf(w.select(u, q), Keep(w, q), offset, q.limit);
    FilterMeans(page.entries, Visible());
    FilterShortens(page.entries, Visible());
  }

  lemma {:induction false} PageIsSelected(rows: seq<Hit>, keep: Hit -> bool, offset: nat, limit: nat)
    ensures |PageOf(rows, keep, offset, limit).entries| <= limit
    ensures forall h :: h in PageOf(rows, keep, offset, limit).entries ==> h in rows && keep(h)
    decreases |rows| - offset
  {
    if offset < |rows| {
      if !keep(rows[offset]) {
        PageIsSelected(rows, keep, offset + 1, limit);
      } else if limit > 0 {
        PageIsSelected(rows, keep, offset + 1, limit - 1);
      }
    }
  }

  lemma {:induction false} FilterShortens(rows: seq<Hit>, keep: Hit -> bool)
    ensures |Filter(rows, keep)| <= |rows|
  {
    if rows != [] {
      FilterShortens(rows[1..], keep);
    }
  }
}
