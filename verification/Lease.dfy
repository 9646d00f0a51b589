/** The notification queue: a lease that doubles as the time of the next attempt. */
module Lease {
  import opened Wrappers

  const LEASE_MS: nat := 300_000
  const RETRY_MS: nat := 60_000

  datatype Status = PENDING | PROCESSING | COMPLETED

  datatype Job = Job(status: Status, next: nat, attempts: nat)

  /** A worker at work on a job. */
  datatype Claim = Claim(job: string, until: nat)

  datatype Queue = Queue(clock: nat, jobs: map<string, Job>, claims: map<nat, Claim>)

  datatype Step =
    | Tick(ms: nat)
    | Take(worker: nat, job: string, seen: nat)   // `seen` is the time read before the transaction
    | Finish(worker: nat, retry: bool)
    | Crash(worker: nat)

  predicate Claimable(j: Job, now: nat) {
    !j.status.COMPLETED? && j.next <= now
  }

  predicate Possible(q: Queue, step: Step) {
    match step
    case Tick(_) => true
    case Take(w, j, seen) => w !in q.claims && j in q.jobs && seen <= q.clock && Claimable(q.jobs[j], seen)
    case Finish(w, _) => w in q.claims && q.claims[w].job in q.jobs
    case Crash(w) => w in q.claims
  }

  function Taken(j: Job, now: nat): Job {
    Job(PROCESSING, now + LEASE_MS, j.attempts + 1)
  }

  function Finished(j: Job, retry: bool, now: nat): Job {
    if retry then j.(status := PENDING, next := now + RETRY_MS) else j.(status := COMPLETED)
  }

  function After(q: Queue, step: Step): Queue
    requires Possible(q, step)
  {
    match step
    case Tick(ms) => q.(clock := q.clock + ms)
    case Take(w, j, _) =>
      q.(jobs := q.jobs[j := Taken(q.jobs[j], q.clock)], claims := q.claims[w := Claim(j, q.clock + LEASE_MS)])
    case Finish(w, retry) =>
      var j := q.claims[w].job;
      q.(jobs := q.jobs[j := Finished(q.jobs[j], retry, q.clock)], claims := q.claims - {w})
    case Crash(w) => q.(claims := q.claims - {w})
  }

  /** The final write of a worker lands before its lease ends. */
  predicate Prompt(q: Queue, step: Step) {
    step.Finish? && step.worker in q.claims ==> q.clock < q.claims[step.worker].until
  }

  /** A step that is not possible changes nothing. */
  function Next(q: Queue, step: Step): Queue {
    if Possible(q, step) then After(q, step) else q
  }

  function RunSteps(q: Queue, steps: seq<Step>): Queue {
    if steps == [] then q else Next(RunSteps(q, steps[..|steps| - 1]), steps[|steps| - 1])
  }

  ghost predicate AllPrompt(q: Queue, steps: seq<Step>) {
    forall i :: 0 <= i < |steps| ==> Prompt(RunSteps(q, steps[..i]), steps[i])
  }

  // ----- The queue table

  class JobTable {
    var jobs: map<string, Job>

    constructor (jobs: map<string, Job>)
      ensures this.jobs == jobs
    {
      this.jobs := jobs;
    }

    /** `claimNotificationJob`: the claimable row with the earliest time that no one else has locked. */
    method ClaimJob(seen: nat, now: nat, locked: set<string>) returns (row: Option<string>)
      requires seen <= now
      modifies this
      ensures row.None? ==> jobs == old(jobs) && forall j :: j in jobs && j !in locked ==> !Claimable(jobs[j], seen)
      ensures row.Some? ==>
                row.value in old(jobs) && row.value !in locked && Claimable(old(jobs)[row.value], seen)
                && (forall j :: j in old(jobs) && j !in locked && Claimable(old(jobs)[j], seen) ==> old(jobs)[row.value].next <= old(jobs)[j].next)
                && forall w: nat ::
                     After(Queue(now, old(jobs), map[]), Take(w, row.value, seen)).jobs == jobs
      ensures row.Some? ==> jobs == old(jobs)[row.value := Job(PROCESSING, now + 300_000, old(jobs)[row.value].attempts + 1)]
    {
      var rows := set j | j in jobs && j !in locked && Claimable(jobs[j], seen);
      if rows == {} {
        assert forall j :: j in jobs && j !in locked && Claimable(jobs[j], seen) ==> j in rows;
        return None;
      }
      EarliestExists(jobs, rows);
      var first :| first in rows && forall j :: j in rows ==> jobs[first].next <= jobs[j].next;
      jobs := jobs[first := Taken(jobs[first], now)];
      row := Some(first);
    }

    /** The closing write of `processNotificationJob`: completed, or to be tried again. */
    method FinishJob(job: string, retry: bool, now: nat)
      requires job in jobs
      modifies this
      ensures forall w: nat, until: nat ::
                After(Queue(now, old(jobs), map[w := Claim(job, until)]), Finish(w, retry)).jobs == jobs
      ensures var was := old(jobs)[job];
              jobs == old(jobs)[job := if retry then Job(PENDING, now + 60_000, was.attempts) else Job(COMPLETED, was.next, was.attempts)]
    {
      if retry {
        jobs := jobs[job := jobs[job].(status := PENDING, next := now + RETRY_MS)];
      } else {
        jobs := jobs[job := jobs[job].(status := COMPLETED)];
      }
    }
  }

  lemma {:induction false} EarliestExists(jobs: map<string, Job>, rows: set<string>)
    requires rows != {} && rows <= jobs.Keys
    ensures exists first :: first in rows && forall j :: j in rows ==> jobs[first].next <= jobs[j].next
    decreases |rows|
  {
    var x :| x in rows;
    var rest := rows - {x};
    if rest != {} {
      EarliestExists(jobs, rest);
      var y :| y in rest && forall j :: j in rest ==> jobs[y].next <= jobs[j].next;
      var first := if jobs[x].next <= jobs[y].next then x else y;
      assert forall j :: j in rows ==> j == x || j in rest;
      assert first in rows && forall j :: j in rows ==> jobs[first].next <= jobs[j].next;
    } else {
      assert forall j :: j in rows ==> j == x || j in rest;
    }
  }

  // ----- Lease safety

  /** Worker w holds job j: its lease runs. */
  predicate Holds(q: Queue, w: nat, j: string) {
    w in q.claims && q.claims[w].job == j && q.clock < q.claims[w].until
  }

  ghost predicate Safe(q: Queue) {
    (forall w, j :: Holds(q, w, j) ==> j in q.jobs && q.jobs[j].status.PROCESSING? && q.jobs[j].next == q.claims[w].until)
    && (forall w, v, j :: Holds(q, w, j) && Holds(q, v, j) ==> w == v)
  }

  lemma StepKeepsSafe(q: Queue, step: Step)
    requires Safe(q) && Prompt(q, step)
    ensures Safe(Next(q, step))
  {
    var r := Next(q, step);
    forall w, j | Holds(r, w, j)
      ensures j in r.jobs && r.jobs[j].status.PROCESSING? && r.jobs[j].next == r.claims[w].until
      ensures !(step.Take? && Possible(q, step) && step.worker == w) ==> Holds(q, w, j)
    {
      if Possible(q, step) && step.Take? && step.worker == w {
      } else {
        assert Holds(q, w, j);
        if Possible(q, step) && step.Finish? {
          assert Holds(q, step.worker, q.claims[step.worker].job);
        }
      }
    }
  }

  lemma {:induction false} RunIsSafe(q: Queue, steps: seq<Step>)
    requires q.claims == map[] && AllPrompt(q, steps)
    ensures Safe(RunSteps(q, steps))
    decreases |steps|
  {
    if steps != [] {
      var before := steps[..|steps| - 1];
      PromptPrefix(q, steps, |before|);
      RunIsSafe(q, before);
      StepKeepsSafe(RunSteps(q, before), steps[|steps| - 1]);
    }
  }

  lemma PromptPrefix(q: Queue, steps: seq<Step>, n: nat)
    requires AllPrompt(q, steps) && n <= |steps|
    ensures AllPrompt(q, steps[..n])
  {
    forall i | 0 <= i < n
      ensures Prompt(RunSteps(q, steps[..n][..i]), steps[..n][i])
    {
      assert steps[..n][..i] == steps[..i];
    }
  }

  /** The step puts job j back although it may be completed: a retry by a worker whose claim is on it. */
  predicate Reopens(q: Queue, step: Step, j: string) {
    step.Finish? && step.retry && step.worker in q.claims && q.claims[step.worker].job == j
  }

  /** From point n on, job j never changes. */
  ghost predicate StaysFrom(q: Queue, steps: seq<Step>, n: nat, j: string)
    requires n <= |steps| && j in RunSteps(q, steps[..n]).jobs
  {
    forall k :: n <= k <= |steps| ==>
      j in RunSteps(q, steps[..k]).jobs && RunSteps(q, steps[..k]).jobs[j] == RunSteps(q, steps[..n]).jobs[j]
  }

  lemma {:induction false} UntouchedUpTo(q: Queue, steps: seq<Step>, n: nat, k: nat, j: string)
    requires n <= k <= |steps| && j in RunSteps(q, steps[..n]).jobs && RunSteps(q, steps[..n]).jobs[j].status.COMPLETED?
    requires forall i :: n <= i < k ==> !Reopens(RunSteps(q, steps[..i]), steps[i], j)
    ensures j in RunSteps(q, steps[..k]).jobs && RunSteps(q, steps[..k]).jobs[j] == RunSteps(q, steps[..n]).jobs[j]
    decreases k
  {
    if n < k {
      UntouchedUpTo(q, steps, n, k - 1, j);
      UnrollRun(q, steps, k - 1);
    }
  }

  /**
   Exactly when completion is final, whether writes are prompt or not: a completed job stays as it is if
   and only if no worker with a claim on it ever finishes by asking for a retry.
   */
  lemma CompletedStaysIff(q: Queue, steps: seq<Step>, n: nat, j: string)
    requires n <= |steps| && j in RunSteps(q, steps[..n]).jobs && RunSteps(q, steps[..n]).jobs[j].status.COMPLETED?
    ensures StaysFrom(q, steps, n, j) <==> forall i :: n <= i < |steps| ==> !Reopens(RunSteps(q, steps[..i]), steps[i], j)
  {
    if i :| n <= i < |steps| && Reopens(RunSteps(q, steps[..i]), steps[i], j) {
      UnrollRun(q, steps, i);
      JobsAreKept(q, steps[..n]);
      JobsAreKept(q, steps[..i]);
      assert RunSteps(q, steps[..i + 1]).jobs[j].status.PENDING?;
    } else {
      forall k | n <= k <= |steps|
        ensures j in RunSteps(q, steps[..k]).jobs && RunSteps(q, steps[..k]).jobs[j] == RunSteps(q, steps[..n]).jobs[j]
      {
        UntouchedUpTo(q, steps, n, k, j);
      }
    }
  }

  /** Prompt workers do not reopen a completed job: who holds a claim on it holds its lease. */
  lemma PromptDoesNotReopen(q: Queue, step: Step, j: string)
    requires Safe(q) && Prompt(q, step) && j in q.jobs && q.jobs[j].status.COMPLETED?
    ensures !Reopens(q, step, j)
  {
    if Reopens(q, step, j) {
      assert Holds(q, step.worker, j);
    }
  }

  /** With prompt writes, once completed, a job is never touched again. */
  lemma {:induction false} CompletedIsFinal(q: Queue, steps: seq<Step>, n: nat, j: string)
    requires q.claims == map[] && AllPrompt(q, steps) && n <= |steps|
    requires j in RunSteps(q, steps[..n]).jobs && RunSteps(q, steps[..n]).jobs[j].status.COMPLETED?
    ensures StaysFrom(q, steps, n, j)
    decreases |steps|
  {
    forall i | n <= i < |steps|
      ensures !Reopens(RunSteps(q, steps[..i]), steps[i], j)
    {
      var before := steps[..i];
      PromptPrefix(q, steps, i);
      assert before[..n] == steps[..n] && before[..i] == before;
      CompletedIsFinal(q, before, n, j);
      RunIsSafe(q, before);
      PromptDoesNotReopen(RunSteps(q, before), steps[i], j);
    }
    CompletedStaysIff(q, steps, n, j);
  }

  /** No job is ever put off further than one lease from now, or its first appointment. */
  lemma {:induction false} WaitIsBounded(q: Queue, steps: seq<Step>, j: string)
    requires j in q.jobs
    ensures var r := RunSteps(q, steps); j in r.jobs && r.clock >= q.clock && (r.jobs[j].next <= r.clock + LEASE_MS || r.jobs[j].next == q.jobs[j].next)
    decreases |steps|
  {
    if steps != [] {
      WaitIsBounded(q, steps[..|steps| - 1], j);
    }
  }

  /**
   Lease safety: when every final write lands within its lease, then over every interleaving and every
   crash no two workers hold the same job, and any job that is not completed can be claimed by a new
   worker after a bounded wait, whoever crashed.
   */
  lemma {:induction false} LeaseSafety(q: Queue, steps: seq<Step>)
    requires q.claims == map[] && AllPrompt(q, steps)
    ensures var r := RunSteps(q, steps);
            (forall w, v, j :: Holds(r, w, j) && Holds(r, v, j) ==> w == v)
            && forall w, j :: j in r.jobs && w !in r.claims && !r.jobs[j].status.COMPLETED? ==> ClaimableSoon(q, r, w, j)
  {
    RunIsSafe(q, steps);
    var r := RunSteps(q, steps);
    forall w, j | j in r.jobs && w !in r.claims && !r.jobs[j].status.COMPLETED?
      ensures ClaimableSoon(q, r, w, j)
    {
      JobsAreKept(q, steps);
      WaitIsBounded(q, steps, j);
    }
  }

  predicate ClaimableSoon(q: Queue, r: Queue, w: nat, j: string)
    requires j in r.jobs
  {
    j in q.jobs &&
    var wait := if r.jobs[j].next <= r.clock then 0 else r.jobs[j].next - r.clock;
    wait <= (if q.jobs[j].next > LEASE_MS then q.jobs[j].next else LEASE_MS)
    && var later := Next(r, Tick(wait)); Possible(later, Take(w, j, later.clock))
  }

  lemma {:induction false} JobsAreKept(q: Queue, steps: seq<Step>)
    ensures RunSteps(q, steps).jobs.Keys == q.jobs.Keys
    decreases |steps|
  {
    if steps != [] {
      JobsAreKept(q, steps[..|steps| - 1]);
    }
  }

  /** Without promptness it is false: a late retry reopens a job that another worker has completed. */
  lemma LateWriteReopens(j: string)
    ensures var q := Queue(0, map[j := Job(PENDING, 0, 0)], map[]);
            var late := [Take(1, j, 0), Tick(LEASE_MS), Take(2, j, LEASE_MS), Finish(2, false), Finish(1, true)];
            var before, after := RunSteps(q, late[..4]), RunSteps(q, late);
            j in before.jobs && before.jobs[j].status.COMPLETED? && j in after.jobs && after.jobs[j].status.PENDING?
            && !Prompt(before, late[4])
  {
    var q := Queue(0, map[j := Job(PENDING, 0, 0)], map[]);
    var late := [Take(1, j, 0), Tick(LEASE_MS), Take(2, j, LEASE_MS), Finish(2, false), Finish(1, true)];
    assert late[..5] == late;
    UnrollRun(q, late, 4);
    UnrollRun(q, late, 3);
    UnrollRun(q, late, 2);
    UnrollRun(q, late, 1);
    UnrollRun(q, late, 0);
    assert late[..0] == [];
  }

  lemma UnrollRun(q: Queue, steps: seq<Step>, n: nat)
    requires n < |steps|
    ensures RunSteps(q, steps[..n + 1]) == Next(RunSteps(q, steps[..n]), steps[n])
  {
    assert steps[..n + 1][..n] == steps[..n];
  }

  // ----- The times in numbers

  /** A claimed job can be claimed again from 300 seconds later on and not before, one to be retried after 60 seconds. */
  lemma WaitsInMilliseconds(q: Queue, w: nat, j: string, seen: nat, retry: nat)
    requires Possible(q, Take(w, j, seen)) && retry in q.claims && q.claims[retry].job in q.jobs
    ensures var r := After(q, Take(w, j, seen));
            r.jobs[j].attempts == q.jobs[j].attempts + 1
            && forall v: nat, t: nat, s: nat :: v !in r.claims ==>
                 (Possible(Next(r, Tick(t)), Take(v, j, s)) <==> q.clock + 300_000 <= s <= q.clock + t)
    ensures var r := After(q, Finish(retry, true)); var k := q.claims[retry].job;
            r.jobs[k].attempts == q.jobs[k].attempts
            && forall v: nat, t: nat, s: nat :: v !in r.claims ==>
                 (Possible(Next(r, Tick(t)), Take(v, k, s)) <==> q.clock + 60_000 <= s <= q.clock + t)
  {
  }

  lemma {:induction false} ClockRises(q: Queue, steps: seq<Step>)
    ensures RunSteps(q, steps).clock >= q.clock
    decreases |steps|
  {
    if steps != [] {
      ClockRises(q, steps[..|steps| - 1]);
    }
  }

  /** The step is the final write of a worker whose claim is on job j. */
  predicate Ends(q: Queue, step: Step, j: string) {
    step.Finish? && step.worker in q.claims && q.claims[step.worker].job == j
  }

  /** Whatever else happens, for 300 seconds nobody can claim a job that was claimed, unless a final write on it comes before. */
  lemma {:induction false} NoOneElseFor300Seconds(q: Queue, w: nat, j: string, seen: nat, steps: seq<Step>)
    requires Possible(q, Take(w, j, seen))
    requires forall i :: 0 <= i < |steps| ==> !Ends(RunSteps(After(q, Take(w, j, seen)), steps[..i]), steps[i], j)
    ensures var r := RunSteps(After(q, Take(w, j, seen)), steps);
            r.clock < q.clock + 300_000 ==>
              j in r.jobs && r.jobs[j] == Job(PROCESSING, q.clock + 300_000, q.jobs[j].attempts + 1) && forall v: nat, s: nat :: !Possible(r, Take(v, j, s))
    decreases |steps|
  {
    if steps != [] {
      var before, last := steps[..|steps| - 1], steps[|steps| - 1];
      var mid := RunSteps(After(q, Take(w, j, seen)), before);
      forall i | 0 <= i < |before|
        ensures !Ends(RunSteps(After(q, Take(w, j, seen)), before[..i]), before[i], j)
      {
        assert before[..i] == steps[..i];
      }
      NoOneElseFor300Seconds(q, w, j, seen, before);
      assert !Ends(mid, last, j);
      assert Next(mid, last).clock >= mid.clock;
    }
  }

  /** How often a step of the run claimed job j. */
  function Claims(q: Queue, steps: seq<Step>, j: string): nat {
    if steps == [] then 0
    else
      var before, last := steps[..|steps| - 1], steps[|steps| - 1];
      Claims(q, before, j) + if last.Take? && last.job == j && Possible(RunSteps(q, before), last) then 1 else 0
  }

  /** The counter of a job counts its claims. */
  lemma {:induction false} AttemptsAreClaims(q: Queue, steps: seq<Step>, j: string)
    requires j in q.jobs
    ensures j in RunSteps(q, steps).jobs && RunSteps(q, steps).jobs[j].attempts == q.jobs[j].attempts + Claims(q, steps, j)
    decreases |steps|
  {
    if steps != [] {
      AttemptsAreClaims(q, steps[..|steps| - 1], j);
    }
  }
}
