/** Desktops that read sync events by cursor, next to the transactions that write them. */
module SyncReplay {
  import opened Wrappers
  import opened SyncEvents

  const PAGE: nat := 100

  /** Events of one user with a number above the cursor, in order: what the server replays. */
  function EventsAfter(events: seq<Event>, user: string, cursor: nat): seq<Event> {
    if events == [] then []
    else
      var last := events[|events| - 1];
      EventsAfter(events[..|events| - 1], user, cursor) + if last.user == user && last.sequence > cursor then [last] else []
  }

  /** The i-th event has a larger number than the one before it, or than `after`. */
  predicate Exceeds(after: nat, events: seq<Event>, i: nat)
    requires i < |events|
  {
    events[i].sequence > if i == 0 then after else events[i - 1].sequence
  }

  predicate Ascending(after: nat, events: seq<Event>) {
    forall i :: 0 <= i < |events| ==> Exceeds(after, events, i)
  }

  /** `validate_sync_events`; `complete` is the check that no field of the envelope is empty. */
  method ValidateSyncEvents(after: nat, events: seq<Event>, complete: Event -> bool) returns (ok: bool)
    ensures ok <==> Ascending(after, events) && forall i :: 0 <= i < |events| ==> complete(events[i])
  {
    var previous, k := after, 0;
    while k < |events|
      invariant k <= |events| && previous == (if k == 0 then after else events[k - 1].sequence)
      invariant forall i :: 0 <= i < k ==> Exceeds(after, events, i)
      invariant forall i :: 0 <= i < k ==> complete(events[i])
    {
      if events[k].sequence <= previous || !complete(events[k]) {
        assert events[k].sequence <= previous ==> !Exceeds(after, events, k);
        return false;
      }
      previous := events[k].sequence;
      k := k + 1;
    }
    ok := true;
  }

  // ----- One desktop

  datatype Outcome = Continue | DeviceRevoked | Failed

  function SequencesOf(events: seq<Event>): set<nat> {
    set e | e in events :: e.sequence
  }

  class Desktop {
    var cursor: nat
    var applied: set<nat>

    constructor ()
      ensures cursor == 0 && applied == {}
    {
      cursor, applied := 0, {};
    }

    /** `replay_events` after the fetch: the cursor moves only when the whole page has been applied. */
    method ReplayEvents(events: seq<Event>, fails: Event -> bool, revokes: Event -> bool) returns (outcome: Outcome)
      modifies this
      ensures outcome.Continue? ==>
                applied == old(applied) + SequencesOf(events) && cursor == if events == [] then old(cursor) else events[|events| - 1].sequence
      ensures !outcome.Continue? ==>
                cursor == old(cursor) && exists n :: 0 <= n <= |events| && applied == old(applied) + SequencesOf(events[..n])
      ensures outcome.DeviceRevoked? ==> exists e :: e in events && revokes(e) && e.sequence in applied
    {
      var k := 0;
      while k < |events|
        invariant k <= |events| && cursor == old(cursor) && applied == old(applied) + SequencesOf(events[..k])
      {
        if fails(events[k]) {
          return Failed;
        }
        applied := applied + {events[k].sequence};
        assert events[..k + 1] == events[..k] + [events[k]];
        k := k + 1;
        if revokes(events[k - 1]) {
          return DeviceRevoked;
        }
      }
      assert events[..k] == events;
      if events != [] {
        var next := events[|events| - 1].sequence;
        if next < cursor {
          return Failed;
        }
        cursor := next;
      }
      outcome := Continue;
    }
  }

  // ----- Everything together, step by step

  /** `page` is in memory only; `cursor` and the effects behind `applied` are on disk. */
  datatype Desk = Desk(user: string, cursor: nat, page: seq<Event>, done: nat, applied: set<nat>)

  datatype World = World(store: Store, desks: map<nat, Desk>)

  datatype Move =
    | OnServer(step: Step)
    | Pair(desk: nat, user: string)
    | Fetch(desk: nat, size: nat)
    | ApplyNext(desk: nat)
    | Advance(desk: nat)
    | Drop(desk: nat)   // a crash, a failed or a revoking event: the page is given up

  function Fetched(w: World, d: Desk, size: nat): Desk {
    var all := EventsAfter(w.store.committed, d.user, d.cursor);
    var page := if |all| > size then all[..size] else all;
    if d.page != [] || !Ascending(d.cursor, page) then d else d.(page := page, done := 0)
  }

  function Advanced(d: Desk): Desk {
    if d.page == [] || d.done < |d.page| then d else d.(cursor := d.page[|d.page| - 1].sequence, page := [], done := 0)
  }

  /** A move that is not possible changes nothing. */
  function Next(w: World, hash: Hash, m: Move): World {
    match m
    case OnServer(step) => if Possible(w.store, hash, step) then w.(store := After(w.store, hash, step)) else w
    case Pair(k, user) => if k in w.desks then w else w.(desks := w.desks[k := Desk(user, 0, [], 0, {})])
    case Fetch(k, size) => if k in w.desks && size <= PAGE then w.(desks := w.desks[k := Fetched(w, w.desks[k], size)]) else w
    case ApplyNext(k) =>
      if k in w.desks && w.desks[k].done < |w.desks[k].page| then
        var d := w.desks[k];
        w.(desks := w.desks[k := d.(applied := d.applied + {d.page[d.done].sequence}, done := d.done + 1)])
      else w
    case Advance(k) => if k in w.desks then w.(desks := w.desks[k := Advanced(w.desks[k])]) else w
    case Drop(k) => if k in w.desks then w.(desks := w.desks[k := w.desks[k].(page := [], done := 0)]) else w
  }

  function RunMoves(w: World, hash: Hash, moves: seq<Move>): World {
    if moves == [] then w else Next(RunMoves(w, hash, moves[..|moves| - 1]), hash, moves[|moves| - 1])
  }

  const EMPTY := World(Store([], map[]), map[])

  // ----- No event is skipped

  /** The page goes on where the cursor stands, without a gap. */
  predicate Contiguous(d: Desk) {
    forall i :: 0 <= i < |d.page| ==> d.page[i].sequence == d.cursor + 1 + i
  }

  ghost predicate DeskSound(s: Store, d: Desk) {
    d.cursor + |d.page| <= |Numbers(s.committed, d.user)| && d.done <= |d.page| && Contiguous(d)
    && forall k: nat :: 1 <= k <= d.cursor + d.done ==> k in d.applied
  }

  ghost predicate AllSound(w: World, hash: Hash) {
    Sound(w.store, hash) && forall k :: k in w.desks ==> DeskSound(w.store, w.desks[k])
  }

  /** With numbers counting from 1, replay after the cursor starts at the next number and leaves no gap. */
  lemma {:induction false} ReplayIsContiguous(events: seq<Event>, user: string, cursor: nat)
    requires Counting(Numbers(events, user))
    ensures var all, n := EventsAfter(events, user, cursor), |Numbers(events, user)|;
            |all| == (if n > cursor then n - cursor else 0) && forall i :: 0 <= i < |all| ==> all[i].sequence == cursor + 1 + i
    decreases |events|
  {
    if events != [] {
      var before, last := events[..|events| - 1], events[|events| - 1];
      var numbers := Numbers(events, user);
      if last.user == user {
        assert numbers == Numbers(before, user) + [last.sequence];
        assert numbers[|numbers| - 1] == last.sequence;
        assert forall i :: 0 <= i < |Numbers(before, user)| ==> Numbers(before, user)[i] == numbers[i];
      } else {
        assert numbers == Numbers(before, user);
      }
      assert Counting(Numbers(before, user));
      ReplayIsContiguous(before, user, cursor);
    }
  }

  lemma FetchKeeps(w: World, hash: Hash, k: nat, size: nat)
    requires AllSound(w, hash) && k in w.desks
    ensures DeskSound(w.store, Fetched(w, w.desks[k], size))
    ensures w.desks[k].page == [] ==>
              var all := EventsAfter(w.store.committed, w.desks[k].user, w.desks[k].cursor);
              Fetched(w, w.desks[k], size).page == if |all| > size then all[..size] else all
  {
    ReplayIsContiguous(w.store.committed, w.desks[k].user, w.desks[k].cursor);
    assert DeskSound(w.store, w.desks[k]);
  }

  lemma AdvanceKeeps(s: Store, d: Desk)
    requires DeskSound(s, d)
    ensures DeskSound(s, Advanced(d)) && d.cursor <= Advanced(d).cursor
  {
    if d.page != [] {
      assert d.page[|d.page| - 1].sequence == d.cursor + |d.page|;
    }
  }

  lemma ServerKeepsDesks(w: World, hash: Hash, step: Step, d: Desk)
    requires Sound(w.store, hash) && Possible(w.store, hash, step) && DeskSound(w.store, d)
    ensures DeskSound(After(w.store, hash, step), d)
  {
    if step.Commit? {
      NumbersConcat(w.store.committed, w.store.txs[step.tx].staged, d.user);
    }
  }

  lemma MoveKeepsSound(w: World, hash: Hash, m: Move)
    requires AllSound(w, hash)
    ensures AllSound(Next(w, hash, m), hash)
  {
    match m {
      case OnServer(step) =>
        if Possible(w.store, hash, step) {
          StepKeepsSound(w.store, hash, step);
          forall k | k in w.desks
            ensures DeskSound(After(w.store, hash, step), w.desks[k])
          {
            ServerKeepsDesks(w, hash, step, w.desks[k]);
          }
        }
      case Pair(_, _) =>
      case Fetch(k, size) =>
        if k in w.desks {
          FetchKeeps(w, hash, k, size);
        }
      case ApplyNext(k) =>
        if k in w.desks {
          assert DeskSound(w.store, w.desks[k]);
        }
      case Advance(k) =>
        if k in w.desks {
          AdvanceKeeps(w.store, w.desks[k]);
        }
      case Drop(k) =>
        if k in w.desks {
          assert DeskSound(w.store, w.desks[k]);
        }
    }
  }

  lemma {:induction false} RunsAreSound(hash: Hash, moves: seq<Move>)
    ensures AllSound(RunMoves(EMPTY, hash, moves), hash)
    decreases |moves|
  {
    if moves != [] {
      RunsAreSound(hash, moves[..|moves| - 1]);
      MoveKeepsSound(RunMoves(EMPTY, hash, moves[..|moves| - 1]), hash, moves[|moves| - 1]);
    }
  }

  lemma {:induction false} NumberOfEvent(events: seq<Event>, e: Event)
    requires e in events
    ensures e.sequence in Numbers(events, e.user)
    decreases |events|
  {
    if events[|events| - 1] != e {
      NumberOfEvent(events[..|events| - 1], e);
    }
  }

  /**
   For every interleaving of transactions, aborts, fetches and desktop crashes: the visible events of
   each user are numbered 1 to n in the order in which they became visible, and every event at or
   below the saved cursor of a desktop has been applied by it.
   */
  lemma NoEventIsSkipped(hash: Hash, moves: seq<Move>)
    ensures var w := RunMoves(EMPTY, hash, moves);
            (forall user :: Counting(Numbers(w.store.committed, user)))
            && forall k, e :: k in w.desks && e in w.store.committed && e.user == w.desks[k].user && e.sequence <= w.desks[k].cursor ==>
                 e.sequence in w.desks[k].applied
  {
    RunsAreSound(hash, moves);
    var w := RunMoves(EMPTY, hash, moves);
    forall k, e | k in w.desks && e in w.store.committed && e.user == w.desks[k].user && e.sequence <= w.desks[k].cursor
      ensures e.sequence in w.desks[k].applied
    {
      NumberOfEvent(w.store.committed, e);
      assert DeskSound(w.store, w.desks[k]);
    }
  }

  /** From any reachable state, a desktop that fetches gets the events right after its cursor: none is ever rejected or left out. */
  lemma FetchIsExact(hash: Hash, moves: seq<Move>, k: nat, size: nat)
    requires var w := RunMoves(EMPTY, hash, moves); k in w.desks && w.desks[k].page == [] && size <= PAGE
    ensures var w := RunMoves(EMPTY, hash, moves);
            var n, d := |Numbers(w.store.committed, w.desks[k].user)|, Next(w, hash, Fetch(k, size)).desks[k];
            d.cursor == w.desks[k].cursor && Contiguous(d) && |d.page| == (if n - d.cursor > size then size else n - d.cursor)
            && forall e :: e in d.page ==> e in w.store.committed && e.user == w.desks[k].user
  {
    RunsAreSound(hash, moves);
    var w := RunMoves(EMPTY, hash, moves);
    assert DeskSound(w.store, w.desks[k]);
    ReplayIsContiguous(w.store.committed, w.desks[k].user, w.desks[k].cursor);
    FetchKeeps(w, hash, k, size);
    ReplayedAre(w.store.committed, w.desks[k].user, w.desks[k].cursor);
  }

  lemma {:induction false} ReplayedAre(events: seq<Event>, user: string, cursor: nat)
    ensures forall e :: e in EventsAfter(events, user, cursor) <==> e in events && e.user == user && e.sequence > cursor
    decreases |events|
  {
    if events != [] {
      ReplayedAre(events[..|events| - 1], user, cursor);
      assert events == events[..|events| - 1] + [events[|events| - 1]];
    }
  }

  /** The moves that apply n more events of the page. */
  function Applies(k: nat, n: nat): (moves: seq<Move>)
    ensures |moves| == n && forall i :: 0 <= i < n ==> moves[i] == ApplyNext(k)
  {
    seq(n, i => ApplyNext(k))
  }

  lemma {:induction false} AppliesAll(w: World, hash: Hash, k: nat, n: nat)
    requires k in w.desks && w.desks[k].done + n <= |w.desks[k].page|
    ensures var r, d := RunMoves(w, hash, Applies(k, n)), w.desks[k];
            k in r.desks && r.desks[k].page == d.page && r.desks[k].cursor == d.cursor && r.desks[k].done == d.done + n
  {
    if n > 0 {
      var moves := Applies(k, n);
      assert moves[..n - 1] == Applies(k, n - 1);
      AppliesAll(w, hash, k, n - 1);
      assert moves[n - 1] == ApplyNext(k);
    }
  }

  lemma {:induction false} MovesConcat(w: World, hash: Hash, a: seq<Move>, b: seq<Move>)
    ensures RunMoves(w, hash, a + b) == RunMoves(RunMoves(w, hash, a), hash, b)
    decreases |b|
  {
    if b == [] {
      assert a + b == a;
    } else {
      assert (a + b)[..|a + b| - 1] == a + b[..|b| - 1];
      MovesConcat(w, hash, a, b[..|b| - 1]);
    }
  }

  /** How many events of the page are still to be applied. */
  function ToApply(d: Desk): nat {
    if d.done < |d.page| then |d.page| - d.done else 0
  }

  lemma AdvanceMoves(w: World, hash: Hash, k: nat)
    requires AllSound(w, hash) && k in w.desks && w.desks[k].page != [] && w.desks[k].done == |w.desks[k].page|
    ensures var r := Next(w, hash, Advance(k)); k in r.desks && r.desks[k].cursor == w.desks[k].cursor + |w.desks[k].page| && r.desks[k].page == []
    ensures forall n: nat :: 1 <= n <= w.desks[k].cursor + |w.desks[k].page| ==> n in Next(w, hash, Advance(k)).desks[k].applied
  {
    var d := w.desks[k];
    assert DeskSound(w.store, d);
    assert d.page[|d.page| - 1].sequence == d.cursor + 1 + (|d.page| - 1);
  }

  /**
   Progress: from any reachable state, a desktop with a page that applies what is left of it and then
   advances has its cursor at the end of the page, and the events of the whole page applied.
   */
  lemma PageAdvances(hash: Hash, moves: seq<Move>, k: nat)
    requires var w := RunMoves(EMPTY, hash, moves); k in w.desks && w.desks[k].page != []
    ensures var d := RunMoves(EMPTY, hash, moves).desks[k];
            var r := RunMoves(EMPTY, hash, moves + Applies(k, ToApply(d)) + [Advance(k)]);
            k in r.desks && r.desks[k].cursor == d.cursor + |d.page| && r.desks[k].page == []
            && forall n: nat :: 1 <= n <= d.cursor + |d.page| ==> n in r.desks[k].applied
  {
    RunsAreSound(hash, moves);
    var w := RunMoves(EMPTY, hash, moves);
    assert DeskSound(w.store, w.desks[k]);
    var more := moves + Applies(k, ToApply(w.desks[k]));
    MovesConcat(EMPTY, hash, moves, Applies(k, ToApply(w.desks[k])));
    AppliesAll(w, hash, k, ToApply(w.desks[k]));
    RunsAreSound(hash, more);
    AdvanceMoves(RunMoves(EMPTY, hash, more), hash, k);
    assert (more + [Advance(k)])[..|more|] == more;
  }
}
