/**
 The issuance quota over the runs of the attestation service.
 */
module SasQuota {
  import opened Base
  import opened RateLimit
  import opened Sas

  predicate IssuesFor(e: Event, a: Address) {
    e.op.Issue? && e.op.att.attester == a
  }

  /** The ledgers of an attester's issuances in a run. */
  function IssuanceLedgers(trace: seq<Event>, a: Address): seq<nat> {
    if trace == [] then []
    else
      var before, last := IssuanceLedgers(trace[..|trace| - 1], a), trace[|trace| - 1];
      if IssuesFor(last, a) then before + [last.ledger.sequence] else before
  }

  /** Those in an interval, counted in the run itself. */
  lemma {:induction false} CountIssued(trace: seq<Event>, a: Address, from: nat, to: nat)
    ensures CountIn(IssuanceLedgers(trace, a), from, to) ==
            |set i | 0 <= i < |trace| && IssuesFor(trace[i], a) && from <= trace[i].ledger.sequence < to|
  {
    var all := set i | 0 <= i < |trace| && IssuesFor(trace[i], a) && from <= trace[i].ledger.sequence < to;
    if trace == [] {
      assert all == {};
    } else {
      hide CountIn, IssuesFor;
      CountIssued(trace[..|trace| - 1], a, from, to);
      StepsSnoc(trace, a, from, to);
      CountSnoc(IssuanceLedgers(trace[..|trace| - 1], a), trace[|trace| - 1].ledger.sequence, from, to);
    }
  }

  lemma StepsSnoc(trace: seq<Event>, a: Address, from: nat, to: nat)
    requires trace != []
    ensures var init, last := trace[..|trace| - 1], trace[|trace| - 1];
            |set i | 0 <= i < |trace| && IssuesFor(trace[i], a) && from <= trace[i].ledger.sequence < to| ==
            |set i | 0 <= i < |init| && IssuesFor(init[i], a) && from <= init[i].ledger.sequence < to|
            + if IssuesFor(last, a) && from <= last.ledger.sequence < to then 1 else 0
  {
    hide IssuesFor;
    var init, n := trace[..|trace| - 1], |trace| - 1;
    var all := set i | 0 <= i < |trace| && IssuesFor(trace[i], a) && from <= trace[i].ledger.sequence < to;
    var before := set i | 0 <= i < |init| && IssuesFor(init[i], a) && from <= init[i].ledger.sequence < to;
    assert all == if IssuesFor(trace[n], a) && from <= trace[n].ledger.sequence < to then before + {n} else before;
  }

  /** What the quota answers after `trace`. */
  predicate UnderQuota(trace: seq<Event>, lg: Ledger, a: Address, max: nat, width: nat) {
    InWindow(IssuanceLedgers(trace, a), lg.sequence, width) < max
  }

  /** Each issuance of the attester was given the quota's own answer. */
  ghost predicate Metered(trace: seq<Event>, a: Address, max: nat, width: nat) {
    forall i :: 0 <= i < |trace| && IssuesFor(trace[i], a) ==>
      trace[i].op.verdict.underQuota == UnderQuota(trace[..i], trace[i].ledger, a, max, width)
  }

  /** An issuance that commits was under quota. */
  lemma CommittedUnderQuota(w: World, lg: Ledger, h: UidHash, op: Op)
    requires op.Issue? && Do(w, lg, h, op).Ok?
    ensures op.verdict.underQuota
  {}

  lemma {:induction false} RunPaced(h: UidHash, trace: seq<Event>, states: seq<World>, a: Address, max: nat,
      width: nat, n: nat)
    requires width > 0 && Run(h, trace, states) && Metered(trace, a, max, width) && n <= |trace|
    ensures var s := IssuanceLedgers(trace[..n], a);
            && NonDecreasing(s) && Paced(s, max, width)
            && forall i :: 0 <= i < |s| ==> s[i] <= LedgerAt(trace, n).sequence
  {
    hide Do, NonDecreasing, Paced, InWindow;
    if n == 0 {
      PacedNone(max, width);
    } else {
      RunPaced(h, trace, states, a, max, width, n - 1);
      var s, e := IssuanceLedgers(trace[..n - 1], a), trace[n - 1];
      assert trace[..n][..n - 1] == trace[..n - 1];
      assert n > 1 ==> NotAfter(trace[n - 2].ledger, e.ledger);
      if IssuesFor(e, a) {
        assert Do(states[n - 1], e.ledger, h, e.op) == Ok(states[n]);
        CommittedUnderQuota(states[n - 1], e.ledger, h, e.op);
        RecentIsCount(s, e.ledger.sequence, width);
        PacedAppend(s, max, width, e.ledger.sequence);
      }
    }
  }

  lemma PacedNone(max: nat, width: nat)
    ensures NonDecreasing([]) && Paced([], max, width)
  {}

  /** In every run in which an attester is metered, every interval of `width`
      ledgers holds at most `max` of its issuances. */
  lemma RunQuota(h: UidHash, trace: seq<Event>, states: seq<World>, a: Address, max: nat, width: nat, from: nat)
    requires width > 0 && Run(h, trace, states) && Metered(trace, a, max, width)
    ensures |set i | 0 <= i < |trace| && trace[i].op.Issue? && trace[i].op.att.attester == a
                     && from <= trace[i].ledger.sequence < from + width| <= max
  {
    hide Run, Metered, IssuanceLedgers, CountIn;
    CountIssued(trace, a, from, from + width);
    assert (set i | 0 <= i < |trace| && trace[i].op.Issue? && trace[i].op.att.attester == a
                    && from <= trace[i].ledger.sequence < from + width) ==
           (set i | 0 <= i < |trace| && IssuesFor(trace[i], a) && from <= trace[i].ledger.sequence < from + width);
    assert trace[..|trace|] == trace;
    RunPaced(h, trace, states, a, max, width, |trace|);
    EveryWindow(IssuanceLedgers(trace, a), max, width, from);
  }

  /** A metered issuance is refused when the window is full, and for the quota's
      sake only then. */
  lemma QuotaRefuses(w: World, trace: seq<Event>, lg: Ledger, h: UidHash, a: Attestation, v: Verdict, max: nat,
      width: nat)
    requires v.underQuota == UnderQuota(trace, lg, a.attester, max, width)
    ensures !UnderQuota(trace, lg, a.attester, max, width) ==> Do(w, lg, h, Issue(a, v)).Err?
    ensures Do(w, lg, h, Issue(a, v)) == Err(RateLimitExceeded) ==> !UnderQuota(trace, lg, a.attester, max, width)
  {
    hide UnderQuota;
  }
}
