/** A user's decisions on a report of proposals. */
module Decisions {
  import opened Journal
  import opened Scripts
  import opened Wrappers

  datatype Verdict = Approve | Reject

  /** A decision on one proposal; `reason` is the text left after trimming. */
  datatype Decision = Decision(id: string, verdict: Verdict, reason: string)

  datatype Named = Named(id: string, proposal: Proposal)

  datatype Declined = Declined(named: Named, reason: string)

  datatype DecisionError = UnknownProposalId(id: string) | DuplicateDecision(id: string) | MissingRejectionReason(id: string)

  datatype Application = Accepted(approved: seq<Named>, rejected: seq<Declined>) | Refused(error: DecisionError)

  predicate Knows(report: seq<Named>, id: string) {
    exists i :: 0 <= i < |report| && report[i].id == id
  }

  predicate SeenBefore(decisions: seq<Decision>, id: string, k: nat)
    requires k <= |decisions|
  {
    exists j :: 0 <= j < k && decisions[j].id == id
  }

  /** What is wrong with decision k, given the ones before it. */
  function ErrorAt(report: seq<Named>, decisions: seq<Decision>, k: nat): Option<DecisionError>
    requires k < |decisions|
  {
    var d := decisions[k];
    if !Knows(report, d.id) then Some(UnknownProposalId(d.id))
    else if SeenBefore(decisions, d.id, k) then Some(DuplicateDecision(d.id))
    else if d.verdict.Reject? && d.reason == "" then Some(MissingRejectionReason(d.id))
    else None
  }

  predicate CleanUpTo(report: seq<Named>, decisions: seq<Decision>, k: nat)
    requires k <= |decisions|
  {
    forall j :: 0 <= j < k ==> ErrorAt(report, decisions, j).None?
  }

  predicate Decided(decisions: seq<Decision>, id: string, verdict: Verdict) {
    exists k :: 0 <= k < |decisions| && decisions[k].id == id && decisions[k].verdict == verdict
  }

  predicate DeclinedFor(decisions: seq<Decision>, id: string, reason: string) {
    Decision(id, Reject, reason) in decisions
  }

  /** The proposals with this verdict, in the order of the report. */
  function Select(report: seq<Named>, decisions: seq<Decision>, verdict: Verdict): seq<Named> {
    if report == [] then []
    else
      var last := report[|report| - 1];
      Select(report[..|report| - 1], decisions, verdict) + if Decided(decisions, last.id, verdict) then [last] else []
  }

  function NamedOf(declined: seq<Declined>): seq<Named> {
    seq(|declined|, i requires 0 <= i < |declined| => declined[i].named)
  }

  /**
   `apply_decisions`. The first faulty decision is reported; otherwise the report is split, in order,
   and a proposal nobody decided on is in neither part.
   */
  method ApplyDecisions(report: seq<Named>, decisions: seq<Decision>) returns (r: Application)
    ensures r.Refused? ==>
              exists k :: 0 <= k < |decisions| && ErrorAt(report, decisions, k) == Some(r.error) && CleanUpTo(report, decisions, k)
    ensures r.Accepted? ==>
              CleanUpTo(report, decisions, |decisions|)
              && r.approved == Select(report, decisions, Approve) && NamedOf(r.rejected) == Select(report, decisions, Reject)
    ensures r.Accepted? ==>
              forall d :: d in r.rejected ==> d.reason != "" && DeclinedFor(decisions, d.named.id, d.reason) && d.named !in r.approved
  {
    var known := set i | 0 <= i < |report| :: report[i].id;
    var seen: set<string>, approvedIds: set<string>, reasons: map<string, string> := {}, {}, map[];
    var k := 0;
    while k < |decisions|
      invariant k <= |decisions|
      invariant forall id :: id in known <==> Knows(report, id)
      invariant forall id :: id in seen <==> SeenBefore(decisions, id, k)
      invariant forall id :: id in approvedIds <==> Decided(decisions[..k], id, Approve)
      invariant forall id :: id in reasons <==> Decided(decisions[..k], id, Reject)
      invariant forall id :: id in reasons ==> reasons[id] != "" && DeclinedFor(decisions, id, reasons[id])
      invariant CleanUpTo(report, decisions, k)
    {
      var d := decisions[k];
      if d.id !in known {
        assert ErrorAt(report, decisions, k) == Some(UnknownProposalId(d.id));
        return Refused(UnknownProposalId(d.id));
      }
      if d.id in seen {
        assert ErrorAt(report, decisions, k) == Some(DuplicateDecision(d.id));
        return Refused(DuplicateDecision(d.id));
      }
      if d.verdict.Reject? && d.reason == "" {
        assert ErrorAt(report, decisions, k) == Some(MissingRejectionReason(d.id));
        return Refused(MissingRejectionReason(d.id));
      }
      seen := seen + {d.id};
      if d.verdict.Approve? {
        approvedIds := approvedIds + {d.id};
      } else {
        assert d == Decision(d.id, Reject, d.reason);
        reasons := reasons[d.id := d.reason];
      }
      DecidedNext(decisions, k);
      k := k + 1;
    }
    assert decisions[..k] == decisions;
    OneVerdict(report, decisions);
    SelectMeans(report, decisions, Approve);
    var approved, rejected, i := [], [], 0;
    while i < |report|
      invariant i <= |report|
      invariant approved == Select(report[..i], decisions, Approve)
      invariant NamedOf(rejected) == Select(report[..i], decisions, Reject)
      invariant forall d :: d in rejected ==> d.reason != "" && DeclinedFor(decisions, d.named.id, d.reason) && d.named.id in reasons
    {
      assert report[..i + 1][..i] == report[..i];
      if report[i].id in approvedIds {
        approved := approved + [report[i]];
      } else if report[i].id in reasons {
        rejected := rejected + [Declined(report[i], reasons[report[i].id])];
      }
      i := i + 1;
    }
    assert report[..i] == report;
    r := Accepted(approved, rejected);
  }

  lemma DecidedNext(decisions: seq<Decision>, k: nat)
    requires k < |decisions|
    ensures forall id, v ::
              Decided(decisions[..k + 1], id, v) <==> Decided(decisions[..k], id, v) || (decisions[k].id == id && decisions[k].verdict == v)
  {
    forall id, v
      ensures Decided(decisions[..k + 1], id, v) <==> Decided(decisions[..k], id, v) || (decisions[k].id == id && decisions[k].verdict == v)
    {
      if Decided(decisions[..k], id, v) {
        var j :| 0 <= j < k && decisions[..k][j].id == id && decisions[..k][j].verdict == v;
        assert decisions[..k + 1][j] == decisions[j];
      }
      if decisions[k].id == id && decisions[k].verdict == v {
        assert decisions[..k + 1][k] == decisions[k];
      }
    }
  }

  /** Without duplicates, nothing is both approved and rejected. */
  lemma OneVerdict(report: seq<Named>, decisions: seq<Decision>)
    requires CleanUpTo(report, decisions, |decisions|)
    ensures forall id :: !(Decided(decisions, id, Approve) && Decided(decisions, id, Reject))
  {
    forall j, k | 0 <= j < k < |decisions|
      ensures decisions[j].id != decisions[k].id
    {
      assert ErrorAt(report, decisions, k).None?;
    }
  }

  /** Exactly the proposals with that verdict are selected. */
  lemma {:induction false} SelectMeans(report: seq<Named>, decisions: seq<Decision>, verdict: Verdict)
    ensures forall q :: q in Select(report, decisions, verdict) <==> q in report && Decided(decisions, q.id, verdict)
    decreases |report|
  {
    if report != [] {
      SelectMeans(report[..|report| - 1], decisions, verdict);
      assert forall q :: q in report <==> q in report[..|report| - 1] || q == report[|report| - 1];
    }
  }

  /** The selection is the report in its own order, each position with that verdict once. */
  lemma {:induction false} SelectInOrder(report: seq<Named>, decisions: seq<Decision>, verdict: Verdict) returns (at: seq<nat>)
    ensures |at| == |Select(report, decisions, verdict)|
    ensures forall k :: 0 <= k < |at| ==> at[k] < |report| && Select(report, decisions, verdict)[k] == report[at[k]]
    ensures forall j, k :: 0 <= j < k < |at| ==> at[j] < at[k]
    ensures forall i :: 0 <= i < |report| ==> (i in at <==> Decided(decisions, report[i].id, verdict))
    decreases |report|
  {
    at := [];
    if report != [] {
      at := SelectInOrder(report[..|report| - 1], decisions, verdict);
      if Decided(decisions, report[|report| - 1].id, verdict) {
        at := at + [|report| - 1];
      }
    }
  }

  /** Nothing is wrong exactly when every decision is on a proposal of the report, none is on the same one twice, and rejections say why. */
  lemma CleanMeans(report: seq<Named>, decisions: seq<Decision>)
    ensures CleanUpTo(report, decisions, |decisions|) <==>
            (forall d :: d in decisions ==> exists q :: q in report && q.id == d.id)
            && (forall j, k :: 0 <= j < k < |decisions| ==> decisions[j].id != decisions[k].id)
            && (forall d :: d in decisions && d.verdict == Reject ==> d.reason != "")
  {
    forall k | 0 <= k < |decisions|
      ensures ErrorAt(report, decisions, k).None? <==>
              (exists q :: q in report && q.id == decisions[k].id) && (forall j :: 0 <= j < k ==> decisions[j].id != decisions[k].id)
              && (decisions[k].verdict == Reject ==> decisions[k].reason != "")
    {
    }
    if CleanUpTo(report, decisions, |decisions|) {
      forall j, k | 0 <= j < k < |decisions|
        ensures decisions[j].id != decisions[k].id
      {
        assert ErrorAt(report, decisions, k).None?;
      }
    }
  }

  /** What is reported is what is wrong, and for the reason that comes first. */
  lemma ErrorMeans(report: seq<Named>, decisions: seq<Decision>, k: nat)
    requires k < |decisions|
    ensures var d, known, again := decisions[k], exists q :: q in report && q.id == decisions[k].id, exists j :: 0 <= j < k && decisions[j].id == decisions[k].id;
            match ErrorAt(report, decisions, k)
            case Some(UnknownProposalId(id)) => id == d.id && !known
            case Some(DuplicateDecision(id)) => id == d.id && known && again
            case Some(MissingRejectionReason(id)) => id == d.id && known && !again && d.verdict == Reject && d.reason == ""
            case None => known && !again && (d.verdict == Reject ==> d.reason != "")
  {
    if q :| q in report && q.id == decisions[k].id {
      var i :| 0 <= i < |report| && report[i] == q;
    }
  }
}
