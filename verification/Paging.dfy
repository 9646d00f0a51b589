/** The batched, filtering page scan, and what following it page by page returns. */
module Paging {
  import opened Journal
  import opened Index
  import opened Wrappers

  /** A row as it comes out of the ordered SELECT. */
  datatype Hit = Hit(path: string, row: SearchRow)

  const FETCH_BATCH: nat := 256
  const MAX_LIMIT: nat := 200

  function Min(a: nat, b: nat): nat { if a < b then a else b }

  function Filter(rows: seq<Hit>, keep: Hit -> bool): seq<Hit> {
    if rows == [] then [] else (if keep(rows[0]) then [rows[0]] else []) + Filter(rows[1..], keep)
  }

  datatype Page = Page(entries: seq<Hit>, next: Option<nat>)

  /** One page, row by row: up to `limit` kept rows from `offset` on, and where the next kept row is. */
  function PageOf(rows: seq<Hit>, keep: Hit -> bool, offset: nat, limit: nat): (p: Page)
    ensures p.next.Some? ==> offset <= p.next.value < |rows| && (limit > 0 ==> offset < p.next.value)
    decreases |rows| - offset
  {
    if offset >= |rows| then Page([], None)
    else if !keep(rows[offset]) then PageOf(rows, keep, offset + 1, limit)
    else if limit == 0 then Page([], Some(offset))
    else
      var rest := PageOf(rows, keep, offset + 1, limit - 1);
      Page([rows[offset]] + rest.entries, rest.next)
  }

  /** `search_index_page_with_extensions`, its scan: rows are fetched in batches, the page ends in the middle of one. */
  method ScanPage(rows: seq<Hit>, keep: Hit -> bool, offset: nat, limit: nat) returns (page: Page)
    ensures page == PageOf(rows, keep, offset, limit)
  {
    var entries: seq<Hit>, scanned, next := [], offset, None;
    label pages: while true
      invariant Continues(rows, keep, offset, limit, entries, scanned)
      decreases |rows| - scanned
    {
      var batch := rows[Min(scanned, |rows|)..Min(scanned + FETCH_BATCH, |rows|)];
      if batch == [] {
        break;
      }
      var start, k := scanned, 0;
      while k < |batch|
        invariant k <= |batch| && scanned == start + k && start + |batch| <= |rows| && batch == rows[start..start + |batch|]
        invariant Continues(rows, keep, offset, limit, entries, scanned)
      {
        assert batch[k] == rows[scanned];
        Continuation(rows, keep, offset, limit, entries, scanned);
        if keep(batch[k]) {
          if |entries| == limit {
            next := Some(scanned);
            break pages;
          }
          entries := entries + [batch[k]];
        }
        scanned := scanned + 1;
        k := k + 1;
      }
      if |batch| < FETCH_BATCH {
        break;
      }
    }
    page := Page(entries, next);
  }

  /** What one more row does to the page. */
  lemma Continuation(rows: seq<Hit>, keep: Hit -> bool, offset: nat, limit: nat, entries: seq<Hit>, scanned: nat)
    requires scanned < |rows| && Continues(rows, keep, offset, limit, entries, scanned)
    ensures !keep(rows[scanned]) ==> Continues(rows, keep, offset, limit, entries, scanned + 1)
    ensures keep(rows[scanned]) && |entries| == limit ==> PageOf(rows, keep, offset, limit) == Page(entries, Some(scanned))
    ensures keep(rows[scanned]) && |entries| < limit ==> Continues(rows, keep, offset, limit, entries + [rows[scanned]], scanned + 1)
  {
    if keep(rows[scanned]) {
      if |entries| == limit {
        assert entries + [] == entries;
      } else {
        var rest := PageOf(rows, keep, scanned + 1, limit - |entries| - 1);
        assert entries + ([rows[scanned]] + rest.entries) == (entries + [rows[scanned]]) + rest.entries;
      }
    }
  }

  /** What is still to come completes what has been collected. */
  predicate Continues(rows: seq<Hit>, keep: Hit -> bool, offset: nat, limit: nat, entries: seq<Hit>, scanned: nat) {
    |entries| <= limit &&
    var rest := PageOf(rows, keep, scanned, limit - |entries|);
    PageOf(rows, keep, offset, limit) == Page(entries + rest.entries, rest.next)
  }

  // ----- What a page is

  /** A page is a full stretch of kept rows up to the next kept one, or all the kept rows that remain. */
  lemma {:induction false} PageMeans(rows: seq<Hit>, keep: Hit -> bool, offset: nat, limit: nat)
    requires offset <= |rows|
    ensures var p := PageOf(rows, keep, offset, limit);
            match p.next
            case None => p.entries == Filter(rows[offset..], keep) && |p.entries| <= limit
            case Some(n) => p.entries + Filter(rows[n..], keep) == Filter(rows[offset..], keep) && |p.entries| == limit && keep(rows[n])
    decreases |rows| - offset
  {
    if offset < |rows| {
      assert rows[offset..][1..] == rows[offset + 1..];
      if !keep(rows[offset]) {
        PageMeans(rows, keep, offset + 1, limit);
      } else if limit > 0 {
        PageMeans(rows, keep, offset + 1, limit - 1);
        var rest := PageOf(rows, keep, offset + 1, limit - 1);
        if rest.next.Some? {
          var tail := Filter(rows[rest.next.value..], keep);
          assert ([rows[offset]] + rest.entries) + tail == [rows[offset]] + (rest.entries + tail);
        }
      }
    }
  }

  // ----- Following the pages

  function Flatten(pages: seq<seq<Hit>>): seq<Hit> {
    if pages == [] then [] else pages[0] + Flatten(pages[1..])
  }

  /** The pages one gets by following `next`; which rows are kept may change from one fetch to the next. */
  function Pages(rows: seq<Hit>, keeps: nat -> Hit -> bool, time: nat, offset: nat, limit: nat): (pages: seq<seq<Hit>>)
    requires limit > 0
    ensures pages != []
    decreases |rows| - offset
  {
    var p := PageOf(rows, keeps(time), offset, limit);
    [p.entries] + if p.next.None? then [] else Pages(rows, keeps, time + 1, p.next.value, limit)
  }

  /** All pages but the last are full; only the answer without any row has an empty page. */
  predicate Tidy(pages: seq<seq<Hit>>, limit: nat) {
    pages != []
    && (forall i :: 0 <= i < |pages| - 1 ==> |pages[i]| == limit)
    && |pages[|pages| - 1]| <= limit
    && (|pages| > 1 ==> pages[|pages| - 1] != [])
  }

  lemma FirstRow(rows: seq<Hit>, keep: Hit -> bool, offset: nat, limit: nat)
    requires 0 < limit && offset <= |rows|
    ensures offset < |rows| && keep(rows[offset]) ==> PageOf(rows, keep, offset, limit).entries != []
  {
  }

  lemma {:induction false} PagesFrom(rows: seq<Hit>, keep: Hit -> bool, time: nat, offset: nat, limit: nat)
    requires 0 < limit && offset <= |rows|
    ensures var pages := Pages(rows, (_: nat) => keep, time, offset, limit);
            Flatten(pages) == Filter(rows[offset..], keep) && Tidy(pages, limit)
            && (offset < |rows| && keep(rows[offset]) ==> pages[|pages| - 1] != [])
    decreases |rows| - offset
  {
    var p := PageOf(rows, keep, offset, limit);
    PageMeans(rows, keep, offset, limit);
    FirstRow(rows, keep, offset, limit);
    if p.next.None? {
      assert Flatten([p.entries]) == p.entries + Flatten([]) == p.entries;
    } else {
      PagesFrom(rows, keep, time + 1, p.next.value, limit);
      var rest := Pages(rows, (_: nat) => keep, time + 1, p.next.value, limit);
      assert ([p.entries] + rest)[1..] == rest;
    }
  }

  /** Paging refines filtering: following the pages from the start gives the filtered list, cut into full pages. */
  lemma PagingRefinesFiltering(rows: seq<Hit>, keep: Hit -> bool, limit: nat)
    requires 1 <= limit <= MAX_LIMIT
    ensures var pages := Pages(rows, (_: nat) => keep, 0, 0, limit);
            Flatten(pages) == Filter(rows, keep) && Tidy(pages, limit)
  {
    PagesFrom(rows, keep, 0, 0, limit);
    assert rows[0..] == rows;
  }

  /** a is b with some rows left out. */
  predicate Subsequence(a: seq<Hit>, b: seq<Hit>) {
    a == [] || (b != [] && if a[0] == b[0] then Subsequence(a[1..], b[1..]) else Subsequence(a, b[1..]))
  }

  lemma {:induction false} SubsequenceSkips(a: seq<Hit>, b: seq<Hit>)
    requires b != [] && Subsequence(a, b[1..])
    ensures Subsequence(a, b)
    decreases |b|, 0
  {
    if a != [] && a[0] == b[0] {
      var c := b[1..];
      if a[0] == c[0] {
        SubsequenceSkips(a[1..], c);
      } else {
        SubsequenceTail(a, c);
      }
    }
  }

  lemma {:induction false} SubsequenceTail(a: seq<Hit>, b: seq<Hit>)
    requires a != [] && Subsequence(a, b)
    ensures Subsequence(a[1..], b)
    decreases |b|, 1
  {
    if a[0] == b[0] {
      SubsequenceSkips(a[1..], b);
    } else {
      SubsequenceTail(a, b[1..]);
      SubsequenceSkips(a[1..], b);
    }
  }

  lemma {:induction false} PageThenRest(rows: seq<Hit>, keep: Hit -> bool, offset: nat, limit: nat, rest: seq<Hit>)
    requires offset <= |rows|
    requires var p := PageOf(rows, keep, offset, limit); if p.next.None? then rest == [] else Subsequence(rest, rows[p.next.value..])
    ensures Subsequence(PageOf(rows, keep, offset, limit).entries + rest, rows[offset..])
    decreases |rows| - offset
  {
    var p := PageOf(rows, keep, offset, limit);
    if offset < |rows| {
      assert rows[offset..][1..] == rows[offset + 1..];
      if !keep(rows[offset]) {
        PageThenRest(rows, keep, offset + 1, limit, rest);
        SubsequenceSkips(p.entries + rest, rows[offset..]);
      } else if limit == 0 {
        assert p.entries + rest == rest;
      } else {
        PageThenRest(rows, keep, offset + 1, limit - 1, rest);
        assert (p.entries + rest)[1..] == PageOf(rows, keep, offset + 1, limit - 1).entries + rest;
      }
    }
  }

  lemma {:induction false} PagesInOrder(rows: seq<Hit>, keeps: nat -> Hit -> bool, time: nat, offset: nat, limit: nat)
    requires 0 < limit && offset <= |rows|
    ensures Subsequence(Flatten(Pages(rows, keeps, time, offset, limit)), rows[offset..])
    decreases |rows| - offset
  {
    var p := PageOf(rows, keeps(time), offset, limit);
    var rest := if p.next.None? then [] else Pages(rows, keeps, time + 1, p.next.value, limit);
    if p.next.Some? {
      PagesInOrder(rows, keeps, time + 1, p.next.value, limit);
    }
    assert ([p.entries] + rest)[1..] == rest;
    PageThenRest(rows, keeps(time), offset, limit, Flatten(rest));
  }

  predicate Distinct(rows: seq<Hit>) {
    forall i, j :: 0 <= i < j < |rows| ==> rows[i] != rows[j]
  }

  lemma {:induction false} SubsequenceWithin(a: seq<Hit>, b: seq<Hit>)
    requires Subsequence(a, b)
    ensures forall x :: x in a ==> x in b
    decreases |b|
  {
    if a != [] {
      SubsequenceWithin(if a[0] == b[0] then a[1..] else a, b[1..]);
      assert forall x :: x in a <==> x == a[0] || x in a[1..];
      assert forall x :: x in b <==> x == b[0] || x in b[1..];
    }
  }

  lemma {:induction false} SubsequenceDistinct(a: seq<Hit>, b: seq<Hit>)
    requires Subsequence(a, b) && Distinct(b)
    ensures Distinct(a)
    decreases |b|
  {
    if a != [] {
      if a[0] == b[0] {
        SubsequenceDistinct(a[1..], b[1..]);
        SubsequenceWithin(a[1..], b[1..]);
        assert b[0] !in b[1..];
        forall i, j | 0 <= i < j < |a|
          ensures a[i] != a[j]
        {
          assert a[j] == a[1..][j - 1];
          if i > 0 {
            assert a[i] == a[1..][i - 1];
          }
        }
      } else {
        SubsequenceDistinct(a, b[1..]);
      }
    }
  }

  /** Even when validity changes between fetches, the pages list rows in order and no row twice. */
  lemma NoRowTwice(rows: seq<Hit>, keeps: nat -> Hit -> bool, limit: nat)
    requires 1 <= limit <= MAX_LIMIT && Distinct(rows)
    ensures var all := Flatten(Pages(rows, keeps, 0, 0, limit)); Subsequence(all, rows) && Distinct(all)
  {
    PagesInOrder(rows, keeps, 0, 0, limit);
    assert rows[0..] == rows;
    SubsequenceDistinct(Flatten(Pages(rows, keeps, 0, 0, limit)), rows);
  }

  lemma {:induction false} FilterHas(rows: seq<Hit>, keep: Hit -> bool, x: Hit)
    requires x in rows && keep(x)
    ensures x in Filter(rows, keep)
  {
    if rows[0] != x {
      FilterHas(rows[1..], keep, x);
    }
  }

  /** And a row that stays valid throughout is not missed. */
  lemma {:induction false} SteadyRowIsReturned(rows: seq<Hit>, keeps: nat -> Hit -> bool, time: nat, offset: nat, limit: nat, x: Hit)
    requires 0 < limit && offset <= |rows| && x in rows[offset..] && forall now: nat :: keeps(now)(x)
    ensures x in Flatten(Pages(rows, keeps, time, offset, limit))
    decreases |rows| - offset
  {
    var p := PageOf(rows, keeps(time), offset, limit);
    PageMeans(rows, keeps(time), offset, limit);
    FilterHas(rows[offset..], keeps(time), x);
    if x !in p.entries {
      var n := p.next.value;
      FilterFrom(rows[n..], keeps(time), x);
      SteadyRowIsReturned(rows, keeps, time + 1, n, limit, x);
    }
  }

  lemma {:induction false} FilterFrom(rows: seq<Hit>, keep: Hit -> bool, x: Hit)
    requires x in Filter(rows, keep)
    ensures x in rows
  {
    if rows != [] && !(keep(rows[0]) && x == rows[0]) {
      FilterFrom(rows[1..], keep, x);
    }
  }
}
