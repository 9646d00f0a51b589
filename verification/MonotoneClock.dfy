/** The shared snapshot clock: many threads, one compare-and-swap loop. */
module MonotoneClock {

  const U64_MAX: nat := 0xffff_ffff_ffff_ffff

  function SaturatingNext(n: nat): nat {
    if n >= U64_MAX then U64_MAX else n + 1
  }

  /** The value a thread tries to store. */
  function Candidate(now: nat, previous: nat): nat {
    if now >= SaturatingNext(previous) then now else SaturatingNext(previous)
  }

  /** A thread in the loop: the time it read once, and the last value it saw. */
  datatype Attempt = Attempt(now: nat, previous: nat)

  datatype Ticket = Ticket(thread: nat, now: nat, value: nat)

  /** `returned` lists the successful calls in the order of their stores. */
  datatype Shared = Shared(last: nat, attempts: map<nat, Attempt>, returned: seq<Ticket>)

  datatype Step =
    | Call(thread: nat, now: nat, seen: nat)   // the relaxed load may see any value, however old
    | CompareExchange(thread: nat, spurious: bool)

  /** A step that is not possible changes nothing. */
  function Next(s: Shared, step: Step): Shared {
    match step
    case Call(t, now, seen) =>
      if t in s.attempts || now > U64_MAX || seen > U64_MAX then s else s.(attempts := s.attempts[t := Attempt(now, seen)])
    case CompareExchange(t, spurious) =>
      if t !in s.attempts then s
      else
        var a := s.attempts[t];
        if s.last == a.previous && !spurious then
          var candidate := Candidate(a.now, a.previous);
          Shared(candidate, s.attempts - {t}, s.returned + [Ticket(t, a.now, candidate)])
        else s.(attempts := s.attempts[t := a.(previous := s.last)])
  }

  function RunSteps(s: Shared, steps: seq<Step>): Shared {
    if steps == [] then s else Next(RunSteps(s, steps[..|steps| - 1]), steps[|steps| - 1])
  }

  predicate Rising(first: nat, tickets: seq<Ticket>, last: nat) {
    (forall i :: 0 <= i < |tickets| ==> first <= tickets[i].value <= last && tickets[i].now <= tickets[i].value)
    && (forall i :: 0 <= i < |tickets| ==> tickets[i].value > first || tickets[i].value == U64_MAX)
    && (forall i, j :: 0 <= i < j < |tickets| ==> tickets[i].value < tickets[j].value || tickets[j].value == U64_MAX)
  }

  /** The clock before ticket i was handed out. */
  function Before(first: nat, tickets: seq<Ticket>, i: nat): nat
    requires i <= |tickets|
  {
    if i == 0 then first else tickets[i - 1].value
  }

  function NextValue(now: nat, previous: nat): nat {
    if now > previous then now else if previous < 0xffff_ffff_ffff_ffff then previous + 1 else 0xffff_ffff_ffff_ffff
  }

  /** Each call got the time it read if that is later than the clock, and else the next number, up to the largest. */
  predicate Exact(first: nat, tickets: seq<Ticket>) {
    forall i :: 0 <= i < |tickets| ==> tickets[i].value == NextValue(tickets[i].now, Before(first, tickets, i))
  }

  lemma ExactNext(first: nat, tickets: seq<Ticket>, more: Ticket)
    requires Exact(first, tickets) && more.value == NextValue(more.now, Before(first, tickets, |tickets|))
    ensures Exact(first, tickets + [more]) && Before(first, tickets + [more], |tickets| + 1) == more.value
  {
    assert forall i :: 0 <= i <= |tickets| ==> Before(first, tickets + [more], i) == Before(first, tickets, i);
  }

  lemma StepKeepsExact(first: nat, s: Shared, step: Step)
    requires s.last == Before(first, s.returned, |s.returned|) <= U64_MAX && Exact(first, s.returned)
    requires forall t :: t in s.attempts ==> s.attempts[t].now <= U64_MAX
    ensures var r := Next(s, step); r.last == Before(first, r.returned, |r.returned|) && Exact(first, r.returned)
  {
    if step.CompareExchange? && step.thread in s.attempts {
      var a := s.attempts[step.thread];
      if s.last == a.previous && !step.spurious {
        ExactNext(first, s.returned, Ticket(step.thread, a.now, Candidate(a.now, a.previous)));
      }
    }
  }

  lemma StepKeepsRising(first: nat, s: Shared, step: Step)
    requires first <= s.last <= U64_MAX && Rising(first, s.returned, s.last) && forall t :: t in s.attempts ==> s.attempts[t].now <= U64_MAX
    ensures var r := Next(s, step);
            first <= r.last <= U64_MAX && Rising(first, r.returned, r.last) && forall t :: t in r.attempts ==> r.attempts[t].now <= U64_MAX
  {
    var r := Next(s, step);
    forall i, j | 0 <= i < j < |r.returned|
      ensures r.returned[i].value < r.returned[j].value || r.returned[j].value == U64_MAX
    {
      if j < |s.returned| {
        assert r.returned[i] == s.returned[i] && r.returned[j] == s.returned[j];
      }
    }
  }

  /**
   With any number of threads, any interleaving, stale loads and spurious failures: successful calls
   return strictly rising values until the largest 64-bit number is reached, never less than the time
   read, and never a value the clock has already held. Each returns exactly the time it read if that is
   later than the clock, and else the next number.
   */
  lemma {:induction false} CallsRise(first: nat, steps: seq<Step>)
    requires first <= U64_MAX
    ensures var r := RunSteps(Shared(first, map[], []), steps);
            first <= r.last <= U64_MAX && Rising(first, r.returned, r.last) && Exact(first, r.returned)
            && r.last == Before(first, r.returned, |r.returned|) && forall t :: t in r.attempts ==> r.attempts[t].now <= U64_MAX
    decreases |steps|
  {
    if steps != [] {
      CallsRise(first, steps[..|steps| - 1]);
      StepKeepsRising(first, RunSteps(Shared(first, map[], []), steps[..|steps| - 1]), steps[|steps| - 1]);
      StepKeepsExact(first, RunSteps(Shared(first, map[], []), steps[..|steps| - 1]), steps[|steps| - 1]);
    }
  }

  class Clock {
    var last: nat

    constructor ()
      ensures last == 0
    {
      last := 0;
    }

    /** `monotonic_unix_ms` when no other thread gets in between; `seen` is what the first load returns. */
    method MonotonicUnixMs(now: nat, seen: nat) returns (value: nat)
      modifies this
      ensures value == last == Candidate(now, old(last))
      ensures now > old(last) && now <= U64_MAX ==> value == now
      ensures now <= old(last) < U64_MAX ==> value == old(last) + 1
    {
      var previous := seen;
      while true
        invariant last == old(last)
        decreases if previous == last then 0 else 1
      {
        var candidate := Candidate(now, previous);
        if last == previous {
          last := candidate;
          return candidate;
        }
        previous := last;
      }
    }
  }
}
