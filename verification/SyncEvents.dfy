/** Numbering sync events under a lock held to commit, as interleaved transactions. */
module SyncEvents {
  import opened Wrappers

  datatype Event = Event(user: string, sequence: nat, body: string)

  /** The result of `max(sequence)` for one user, before the insert that uses it. */
  datatype Latest = Latest(user: string, value: nat)

  /** An open transaction: the advisory locks it holds, and what only it can see yet. */
  datatype Tx = Tx(held: set<int>, staged: seq<Event>, latest: Option<Latest>)

  /** `committed` lists the events in the order in which they became visible. */
  datatype Store = Store(committed: seq<Event>, txs: map<nat, Tx>)

  /** The lock of a user is a hash of the user's id; two users may share one. */
  type Hash = string -> int

  datatype Step =
    | Begin(tx: nat)
    | Lock(tx: nat, user: string)
    | ReadLatest(tx: nat, user: string)
    | Insert(tx: nat, body: string)
    | Commit(tx: nat)
    | Abort(tx: nat)

  /** Sequence numbers of one user's events. */
  function Numbers(events: seq<Event>, user: string): seq<nat> {
    if events == [] then []
    else
      var last := events[|events| - 1];
      Numbers(events[..|events| - 1], user) + if last.user == user then [last.sequence] else []
  }

  /** SQL max, 0 when there is no row. */
  function Max(s: seq<nat>): nat {
    if s == [] then 0 else if s[|s| - 1] > Max(s[..|s| - 1]) then s[|s| - 1] else Max(s[..|s| - 1])
  }

  predicate Free(s: Store, tx: nat, lock: int) {
    forall other :: other in s.txs && other != tx ==> lock !in s.txs[other].held
  }

  /** When the database lets the step happen; a lock that is taken makes the step wait. */
  predicate Possible(s: Store, hash: Hash, step: Step) {
    match step
    case Begin(tx) => tx !in s.txs
    case Lock(tx, user) => tx in s.txs && Free(s, tx, hash(user))
    case ReadLatest(tx, user) => tx in s.txs && hash(user) in s.txs[tx].held
    case Insert(tx, _) => tx in s.txs && s.txs[tx].latest.Some?
    case Commit(tx) => tx in s.txs
    case Abort(tx) => tx in s.txs
  }

  function After(s: Store, hash: Hash, step: Step): Store
    requires Possible(s, hash, step)
  {
    match step
    case Begin(tx) => s.(txs := s.txs[tx := Tx({}, [], None)])
    case Lock(tx, user) => s.(txs := s.txs[tx := s.txs[tx].(held := s.txs[tx].held + {hash(user)})])
    case ReadLatest(tx, user) =>
      s.(txs := s.txs[tx := s.txs[tx].(latest := Some(Latest(user, Max(Numbers(s.committed + s.txs[tx].staged, user)))))])
    case Insert(tx, body) =>
      var t := s.txs[tx];
      s.(txs := s.txs[tx := t.(staged := t.staged + [Event(t.latest.value.user, t.latest.value.value + 1, body)], latest := None)])
    case Commit(tx) => Store(s.committed + s.txs[tx].staged, s.txs - {tx})
    case Abort(tx) => s.(txs := s.txs - {tx})
  }

  // ----- The numbering invariant

  /** 1, 2, 3, and so on. */
  predicate Counting(s: seq<nat>) {
    forall i :: 0 <= i < |s| ==> s[i] == i + 1
  }

  lemma {:induction false} CountingMax(s: seq<nat>)
    requires Counting(s)
    ensures Max(s) == |s|
  {
    if s != [] {
      CountingMax(s[..|s| - 1]);
    }
  }

  lemma {:induction false} NumbersConcat(a: seq<Event>, b: seq<Event>, user: string)
    ensures Numbers(a + b, user) == Numbers(a, user) + Numbers(b, user)
    decreases |b|
  {
    if b == [] {
      assert a + b == a;
    } else {
      assert (a + b)[..|a + b| - 1] == a + b[..|b| - 1];
      NumbersConcat(a, b[..|b| - 1], user);
    }
  }

  /** What one transaction sees of one user. */
  function Seen(s: Store, t: Tx, user: string): seq<nat> {
    Numbers(s.committed, user) + Numbers(t.staged, user)
  }

  predicate TxSound(s: Store, hash: Hash, t: Tx, user: string) {
    (hash(user) in t.held ==> Counting(Seen(s, t, user)))
    && (Numbers(t.staged, user) != [] ==> hash(user) in t.held)
    && (t.latest.Some? && t.latest.value.user == user ==> hash(user) in t.held && t.latest.value.value == |Seen(s, t, user)|)
  }

  /** Visible numbers of every user count up from 1, and every lock holder is about to go on counting. */
  ghost predicate Sound(s: Store, hash: Hash) {
    (forall user :: Counting(Numbers(s.committed, user)))
    && (forall tx, user :: tx in s.txs ==> TxSound(s, hash, s.txs[tx], user))
    && (forall tx, lock :: tx in s.txs && lock in s.txs[tx].held ==> Free(s, tx, lock))
  }

  lemma LocalStep(s: Store, hash: Hash, step: Step)
    requires Sound(s, hash) && Possible(s, hash, step) && !step.Commit?
    ensures Sound(After(s, hash, step), hash)
  {
    var r := After(s, hash, step);
    forall tx, user | tx in r.txs
      ensures TxSound(r, hash, r.txs[tx], user)
    {
      if tx in s.txs {
        assert TxSound(s, hash, s.txs[tx], user);
        if tx == step.tx {
          OwnStep(s, hash, step, user);
        }
      } else {
        assert r.txs[tx] == Tx({}, [], None) && Numbers([], user) == [];
      }
    }
  }

  lemma OwnStep(s: Store, hash: Hash, step: Step, user: string)
    requires Sound(s, hash) && Possible(s, hash, step) && !step.Commit? && !step.Abort? && !step.Begin?
    ensures var r := After(s, hash, step); TxSound(r, hash, r.txs[step.tx], user)
  {
    var t := s.txs[step.tx];
    assert TxSound(s, hash, t, user);
    match step {
      case Lock(tx, u) =>
        if hash(user) !in t.held {
          assert Numbers(t.staged, user) == [];
          assert Seen(s, t, user) == Numbers(s.committed, user);
        }
      case ReadLatest(tx, u) =>
        NumbersConcat(s.committed, t.staged, user);
        if u == user {
          CountingMax(Seen(s, t, user));
        }
      case Insert(tx, body) =>
        var e := Event(t.latest.value.user, t.latest.value.value + 1, body);
        assert (t.staged + [e])[..|t.staged|] == t.staged;
        var r := After(s, hash, step);
        assert r.txs[tx].staged == t.staged + [e];
        if e.user == user {
          assert e.sequence == |Seen(s, t, user)| + 1;
          assert Seen(r, r.txs[tx], user) == Seen(s, t, user) + [e.sequence];
        } else {
          assert Numbers(r.txs[tx].staged, user) == Numbers(t.staged, user);
        }
      case _ =>
    }
  }

  lemma CommitStep(s: Store, hash: Hash, tx: nat)
    requires Sound(s, hash) && tx in s.txs
    ensures Sound(After(s, hash, Commit(tx)), hash)
  {
    var r, t := After(s, hash, Commit(tx)), s.txs[tx];
    forall user
      ensures Counting(Numbers(r.committed, user))
    {
      NumbersConcat(s.committed, t.staged, user);
      assert TxSound(s, hash, t, user);
      if Numbers(t.staged, user) == [] {
        assert Numbers(r.committed, user) == Numbers(s.committed, user);
      }
    }
    forall other, user | other in r.txs
      ensures TxSound(r, hash, r.txs[other], user)
    {
      NumbersConcat(s.committed, t.staged, user);
      assert TxSound(s, hash, t, user) && TxSound(s, hash, s.txs[other], user);
      if hash(user) in s.txs[other].held {
        assert Free(s, other, hash(user));
        assert Numbers(t.staged, user) == [];
        assert Numbers(r.committed, user) == Numbers(s.committed, user);
      }
    }
  }

  /** Every step of every transaction keeps the numbering. */
  lemma StepKeepsSound(s: Store, hash: Hash, step: Step)
    requires Sound(s, hash) && Possible(s, hash, step)
    ensures Sound(After(s, hash, step), hash)
  {
    if step.Commit? {
      CommitStep(s, hash, step.tx);
    } else {
      LocalStep(s, hash, step);
    }
  }

  // ----- What becomes visible

  /** A step that is not possible changes nothing. */
  function RunSteps(hash: Hash, steps: seq<Step>): Store {
    if steps == [] then Store([], map[])
    else
      var s, step := RunSteps(hash, steps[..|steps| - 1]), steps[|steps| - 1];
      if Possible(s, hash, step) then After(s, hash, step) else s
  }

  /** The steps of a run that happened. */
  function Happened(hash: Hash, steps: seq<Step>): seq<Step> {
    if steps == [] then []
    else
      var before, step := steps[..|steps| - 1], steps[|steps| - 1];
      Happened(hash, before) + if Possible(RunSteps(hash, before), hash, step) then [step] else []
  }

  /** Whose event, and what is in it. */
  datatype Message = Message(user: string, body: string)

  /** The user whose numbers transaction tx read last. */
  function Reader(log: seq<Step>, tx: nat): string {
    if log == [] then ""
    else if log[|log| - 1].ReadLatest? && log[|log| - 1].tx == tx then log[|log| - 1].user
    else Reader(log[..|log| - 1], tx)
  }

  /** What tx has inserted since it began, told from the steps alone. */
  function Inserted(log: seq<Step>, tx: nat): seq<Message> {
    if log == [] then []
    else
      var before, last := log[..|log| - 1], log[|log| - 1];
      if last == Begin(tx) then []
      else if last.Insert? && last.tx == tx then Inserted(before, tx) + [Message(Reader(before, tx), last.body)]
      else Inserted(before, tx)
  }

  /** What the commits have published, in their order. */
  function Published(log: seq<Step>): seq<Message> {
    if log == [] then []
    else
      var before, last := log[..|log| - 1], log[|log| - 1];
      Published(before) + if last.Commit? then Inserted(before, last.tx) else []
  }

  /** Transaction tx has begun and not ended, told from the steps alone. */
  predicate Running(log: seq<Step>, tx: nat) {
    log != [] &&
    var last := log[|log| - 1];
    last == Begin(tx) || (last != Commit(tx) && last != Abort(tx) && Running(log[..|log| - 1], tx))
  }

  function Messages(events: seq<Event>): (m: seq<Message>)
    ensures |m| == |events| && forall i :: 0 <= i < |m| ==> m[i] == Message(events[i].user, events[i].body)
  {
    seq(|events|, i requires 0 <= i < |events| => Message(events[i].user, events[i].body))
  }

  /** The store holds what the steps say. */
  ghost predicate Accords(s: Store, log: seq<Step>) {
    Messages(s.committed) == Published(log)
    && forall tx: nat :: (tx in s.txs <==> Running(log, tx)) && (tx in s.txs ==> TxAccords(s.txs[tx], log, tx))
  }

  predicate TxAccords(t: Tx, log: seq<Step>, tx: nat) {
    Messages(t.staged) == Inserted(log, tx) && (t.latest.Some? ==> t.latest.value.user == Reader(log, tx))
  }

  lemma StepAccords(s: Store, hash: Hash, log: seq<Step>, step: Step)
    requires Accords(s, log) && Possible(s, hash, step)
    ensures Accords(After(s, hash, step), log + [step])
  {
    var r, more := After(s, hash, step), log + [step];
    assert more[..|more| - 1] == log && more[|more| - 1] == step;
    forall tx: nat
      ensures tx in r.txs <==> Running(more, tx)
      ensures tx in r.txs ==> TxAccords(r.txs[tx], more, tx)
    {
      assert tx in s.txs ==> TxAccords(s.txs[tx], log, tx);
      if step.Insert? && step.tx == tx {
        assert Messages(r.txs[tx].staged) == Messages(s.txs[tx].staged) + [Message(s.txs[tx].latest.value.user, step.body)];
      }
    }
    if step.Commit? {
      assert TxAccords(s.txs[step.tx], log, step.tx);
      assert Messages(r.committed) == Messages(s.committed) + Messages(s.txs[step.tx].staged);
    }
  }

  /**
   For every run: the visible events are exactly the messages that committed transactions inserted, in the
   order of the commits, and within a transaction in the order of its inserts.
   */
  lemma {:induction false} VisibleIsPublished(hash: Hash, steps: seq<Step>)
    ensures Messages(RunSteps(hash, steps).committed) == Published(Happened(hash, steps))
    ensures Accords(RunSteps(hash, steps), Happened(hash, steps))
    decreases |steps|
  {
    if steps != [] {
      var before, step := steps[..|steps| - 1], steps[|steps| - 1];
      VisibleIsPublished(hash, before);
      if Possible(RunSteps(hash, before), hash, step) {
        StepAccords(RunSteps(hash, before), hash, Happened(hash, before), step);
      } else {
        assert Happened(hash, steps) == Happened(hash, before);
      }
    }
  }

  /** The step at i inserts this message, and its transaction goes on without a break until it is committed at c. */
  predicate CommittedInsert(log: seq<Step>, i: nat, c: nat, m: Message) {
    i < c < |log| && log[i].Insert? && log[i].body == m.body && Reader(log[..i], log[i].tx) == m.user && log[c] == Commit(log[i].tx)
    && forall k :: i < k < c ==> log[k] !in {Begin(log[i].tx), Abort(log[i].tx), Commit(log[i].tx)}
  }

  /** A transaction that runs has gone on since any point after which it did not begin. */
  lemma {:induction false} RunningGoesOn(log: seq<Step>, tx: nat, i: nat)
    requires Running(log, tx) && i < |log| && forall k :: i < k < |log| ==> log[k] != Begin(tx)
    ensures forall k :: i < k < |log| ==> log[k] !in {Abort(tx), Commit(tx)}
    decreases |log|
  {
    if i < |log| - 1 {
      RunningGoesOn(log[..|log| - 1], tx, i);
    }
  }

  lemma {:induction false} InsertedMeans(log: seq<Step>, tx: nat, m: Message) returns (i: nat)
    requires m in Inserted(log, tx)
    ensures i < |log| && log[i] == Insert(tx, m.body) && Reader(log[..i], tx) == m.user && forall k :: i < k < |log| ==> log[k] != Begin(tx)
    decreases |log|
  {
    var before, last := log[..|log| - 1], log[|log| - 1];
    if last.Insert? && last.tx == tx && m !in Inserted(before, tx) {
      i := |log| - 1;
    } else {
      i := InsertedMeans(before, tx, m);
      assert before[..i] == log[..i];
    }
  }

  /**
   Nothing becomes visible but by a commit: a visible message was inserted by a transaction that went on to
   its commit, so what an aborted transaction inserted is never seen.
   */
  lemma {:induction false} VisibleWasCommitted(hash: Hash, steps: seq<Step>, e: Event)
    requires e in RunSteps(hash, steps).committed
    ensures exists i: nat, c: nat :: CommittedInsert(Happened(hash, steps), i, c, Message(e.user, e.body))
  {
    VisibleIsPublished(hash, steps);
    var x :| 0 <= x < |RunSteps(hash, steps).committed| && RunSteps(hash, steps).committed[x] == e;
    assert Messages(RunSteps(hash, steps).committed)[x] == Message(e.user, e.body);
    PublishedMeans(hash, steps, Message(e.user, e.body));
  }

  lemma {:induction false} PublishedMeans(hash: Hash, steps: seq<Step>, m: Message)
    requires m in Published(Happened(hash, steps))
    ensures exists i: nat, c: nat :: CommittedInsert(Happened(hash, steps), i, c, m)
    decreases |steps|
  {
    var before, step := steps[..|steps| - 1], steps[|steps| - 1];
    var log := Happened(hash, before);
    if !Possible(RunSteps(hash, before), hash, step) {
      assert Happened(hash, steps) == log;
      PublishedMeans(hash, before, m);
    } else if m in Published(log) {
      PublishedMeans(hash, before, m);
      var i: nat, c: nat :| CommittedInsert(log, i, c, m);
      CommittedLater(log, step, i, c, m);
    } else {
      VisibleIsPublished(hash, before);
      var i := PublishedNow(log, step, m);
    }
  }

  lemma CommittedLater(log: seq<Step>, step: Step, i: nat, c: nat, m: Message)
    requires CommittedInsert(log, i, c, m)
    ensures CommittedInsert(log + [step], i, c, m)
  {
    assert (log + [step])[..i] == log[..i];
  }

  lemma PublishedNow(log: seq<Step>, step: Step, m: Message) returns (i: nat)
    requires m in Published(log + [step]) && m !in Published(log) && (step.Commit? ==> Running(log, step.tx))
    ensures CommittedInsert(log + [step], i, |log|, m)
  {
    assert (log + [step])[..|log|] == log;
    i := InsertedMeans(log, step.tx, m);
    RunningGoesOn(log, step.tx, i);
    assert (log + [step])[..i] == log[..i];
  }

  // ----- The steps as they change the database

  class Database {
    var committed: seq<Event>
    var txs: map<nat, Tx>
    const hash: Hash

    constructor (hash: Hash)
      ensures Value() == Store([], map[]) && this.hash == hash
    {
      committed, txs, this.hash := [], map[], hash;
    }

    function Value(): Store
      reads this
    {
      Store(committed, txs)
    }

    method BeginTransaction(tx: nat)
      requires Possible(Value(), hash, Begin(tx))
      modifies this
      ensures Value() == After(old(Value()), hash, Begin(tx))
    {
      txs := txs[tx := Tx({}, [], None)];
    }

    /** `appendSyncEvent`, up to its three statements: lock, read the maximum, insert the next number. */
    method AppendSyncEvent(tx: nat, user: string, body: string)
      requires Possible(Value(), hash, Lock(tx, user))
      modifies this
      ensures var locked := After(old(Value()), hash, Lock(tx, user));
              var latest := After(locked, hash, ReadLatest(tx, user));
              Value() == After(latest, hash, Insert(tx, body))
      ensures committed == old(committed) && tx in txs && Messages(txs[tx].staged) == Messages(old(txs)[tx].staged) + [Message(user, body)]
    {
      var t := txs[tx];
      var value := Max(Numbers(committed + t.staged, user));
      txs := txs[tx := Tx(t.held + {hash(user)}, t.staged + [Event(user, value + 1, body)], None)];
    }

    method CommitTransaction(tx: nat)
      requires Possible(Value(), hash, Commit(tx))
      modifies this
      ensures Value() == After(old(Value()), hash, Commit(tx))
      ensures committed == old(committed) + old(txs)[tx].staged && txs == old(txs) - {tx}
    {
      committed, txs := committed + txs[tx].staged, txs - {tx};
    }
  }
}
