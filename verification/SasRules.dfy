/**
 What the attestation service asks of each operation, read off its arguments and
 the records, and what that means for everything a run has stored.
 */
module SasRules {
  import opened Base
  import opened Sas
  import opened SasRuns

  // ----------------------------------------------------- what is refused and why

  /** Issuing is refused for the first of these faults, and only for them. */
  lemma IssueReports(w: World, lg: Ledger, h: UidHash, a: Attestation, v: Verdict)
    ensures ErrorOf(Do(w, lg, h, Issue(a, v))) ==
      Or(When(|a.data| > 10_000, PayloadTooLarge),
      Or(When(a.uid in w.records, DuplicateAttestation),
      Or(When(a.uid != h(Content(a.schema, a.recipient, a.attester, a.data)), InvalidUid),
      Or(When(0 < a.expiration <= lg.timestamp, AlreadyExpired),
      Or(When(0 < a.expiration <= a.validFrom, InvalidTimeRange),
      Or(When(a.recipient == a.attester || ZERO_ACCOUNT in [a.recipient, a.attester]
              || ZERO_CONTRACT in [a.recipient, a.attester], InvalidRecipient),
      Or(When(a.refUid == a.uid || (a.refUid != ZERO_UID && a.refUid !in w.records), InvalidRefUid),
      Or(When(!v.schemaExists, InvalidSchema),
      Or(When(v.quarantined, SchemaQuarantined),
      Or(When(v.maxTtl > 0 && (a.expiration == 0 || a.expiration - lg.timestamp > v.maxTtl), InvalidExpirationTime),
      Or(When(v.standing == Unlisted, UnauthorizedAttester),
      Or(When(v.standing == Stranger, Unauthorized),
      Or(When(!v.underQuota, RateLimitExceeded),
      Or(When(v.policy == RevocableOnly && !a.revocable, InvalidRevocability),
      Or(When(v.policy == IrrevocableOnly && a.revocable, NotRevocable),
      Or(When(!v.resolverAccepts, ResolverRejected),
         When(AnchorKey(a.uid, false) in w.anchors, InvalidTimestamp)))))))))))))))))
  {}

  lemma RevokeReports(w: World, lg: Ledger, h: UidHash, uid: Uid, v: Verdict)
    ensures ErrorOf(Do(w, lg, h, Revoke(uid, v))) ==
      Or(When(uid !in w.records, AttestationNotFound),
      Or(When(uid in w.records && !w.records[uid].revocable, NotRevocable),
      Or(When(uid in w.records && w.records[uid].revocationTime > 0, AlreadyRevoked),
      Or(When(AnchorKey(uid, true) in w.anchors, InvalidTimestamp),
      Or(When(!v.schemaExists, InvalidSchema),
         When(!v.resolverAccepts, ResolverRejected))))))
  {}

  /** An expiration can be moved out or, if it was set, be removed. */
  lemma RenewReports(w: World, lg: Ledger, h: UidHash, uid: Uid, e: u64, maxTtl: u64)
    ensures ErrorOf(Do(w, lg, h, Renew(uid, e, maxTtl))) ==
      if uid !in w.records then Some(AttestationNotFound)
      else
        var a := w.records[uid];
        Or(When(!a.revocable, NotRevocable),
        Or(When(a.revocationTime > 0, AlreadyRevoked),
        Or(When(0 < a.expiration <= lg.timestamp, AlreadyExpired),
        Or(When(e > 0 && (a.expiration == 0 || e < a.expiration), InvalidTtl),
        Or(When(0 < e <= a.validFrom, InvalidTimeRange),
        Or(When(maxTtl > 0 && (e == 0 || e > lg.timestamp + maxTtl), InvalidExpirationTime),
           When(0 < e <= lg.timestamp, AlreadyExpired)))))))
  {}

  /** What each operation on records writes, if it is not refused. */
  lemma Writes(w: World, lg: Ledger, h: UidHash, op: Op)
    requires Do(w, lg, h, op).Ok?
    ensures var w' := Do(w, lg, h, op).value;
            match op {
              case Issue(a, v) =>
                && w'.records == w.records[a.uid := a.(time := lg.timestamp)]
                && w'.anchors == w.anchors[AnchorKey(a.uid, false) := lg]
              case Revoke(u, v) =>
                && u in w.records && w'.records == w.records[u := w.records[u].(revocationTime := lg.timestamp)]
                && w'.anchors == w.anchors[AnchorKey(u, true) := lg]
              case Renew(u, e, maxTtl) =>
                && u in w.records && w'.records == w.records[u := w.records[u].(expiration := e)]
                && w'.anchors == w.anchors
              case Prune(u) =>
                if u in w.records && 0 < w.records[u].expiration <= lg.timestamp
                then w'.records == w.records - {u}
                     && w'.anchors == w.anchors - {AnchorKey(u, false), AnchorKey(u, true)}
                else w' == w
              case _ => w'.records == w.records && w'.anchors == w.anchors
            }
  {}

  /** Verifying is being unrevoked, activated and not expired. */
  lemma LiveMeans(a: Attestation, now: u64)
    ensures Live(a, now) <==>
            a.revocationTime == 0 && a.validFrom <= now && (a.expiration == 0 || now < a.expiration)
  {}

  // ------------------------------------------------------------- over whole runs

  predicate Sets(op: Op, uid: Uid) {
    (op.Issue? && op.att.uid == uid) || (op.Renew? && op.uid == uid)
  }

  predicate RevokesAt(e: Event, uid: Uid) {
    e.op.Revoke? && e.op.uid == uid
  }

  /** What one step does to a record that is stored before and after it. */
  lemma StepOn(w: World, lg: Ledger, h: UidHash, op: Op, uid: Uid)
    requires Do(w, lg, h, op).Ok? && uid in w.records && uid in Do(w, lg, h, op).value.records
    ensures var a, b := w.records[uid], Do(w, lg, h, op).value.records[uid];
            if op.Revoke? && op.uid == uid then a.revocationTime == 0 && b == a.(revocationTime := lg.timestamp)
            else if op.Renew? && op.uid == uid then b == a.(expiration := op.expiration)
            else b == a && !Sets(op, uid)
  {}

  /** No revocation of the record between the two steps has taken effect. */
  ghost predicate NoneRevoked(trace: seq<Event>, i: nat, j: nat, uid: Uid)
    requires j <= |trace|
  {
    forall m :: i < m < j && RevokesAt(trace[m], uid) ==> trace[m].ledger.timestamp == 0
  }

  lemma NoneRevokedSnoc(trace: seq<Event>, i: nat, j: nat, uid: Uid)
    requires i < j < |trace|
    ensures NoneRevoked(trace, i, j + 1, uid) <==>
            NoneRevoked(trace, i, j, uid) && (RevokesAt(trace[j], uid) ==> trace[j].ledger.timestamp == 0)
  {}

  /** From its issuance at step `i` on, a stored record keeps its activation time
      and is unrevoked as long as no revocation at a positive close time has come. */
  lemma {:induction false} StandingAt(h: UidHash, trace: seq<Event>, states: seq<World>, i: nat, j: nat, uid: Uid)
    requires Run(h, trace, states) && i < j <= |trace| && Kept(states, i + 1, j, uid)
    requires trace[i].op.Issue? && trace[i].op.att.uid == uid
    ensures states[j].records[uid].validFrom == trace[i].op.att.validFrom
    ensures states[j].records[uid].revocationTime == 0 <==>
            trace[i].op.att.revocationTime == 0 && NoneRevoked(trace, i, j, uid)
    decreases j
  {
    var e := trace[j - 1];
    assert Do(states[j - 1], e.ledger, h, e.op) == Ok(states[j]);
    if i < j - 1 {
      hide Do, NoneRevoked;
      StandingAt(h, trace, states, i, j - 1, uid);
      StepOn(states[j - 1], e.ledger, h, e.op, uid);
      NoneRevokedSnoc(trace, i, j - 1, uid);
    }
  }

  /** Its expiration is the one set last, at step `r`. */
  lemma {:induction false} ExpirationAt(h: UidHash, trace: seq<Event>, states: seq<World>, r: nat, j: nat, uid: Uid)
    requires Run(h, trace, states) && r < j <= |trace| && Kept(states, r + 1, j, uid) && Sets(trace[r].op, uid)
    requires forall m :: r < m < j ==> !Sets(trace[m].op, uid)
    ensures states[j].records[uid].expiration ==
            if trace[r].op.Issue? then trace[r].op.att.expiration else trace[r].op.expiration
    decreases j
  {
    var e := trace[j - 1];
    assert Do(states[j - 1], e.ledger, h, e.op) == Ok(states[j]);
    if r < j - 1 {
      hide Do;
      ExpirationAt(h, trace, states, r, j - 1, uid);
      StepOn(states[j - 1], e.ledger, h, e.op, uid);
    }
  }

  /** When a stored record verifies, from the calls alone: it was issued at step `i`,
      its expiration was set last at step `r`, and it verifies at exactly the times
      from its activation until that expiration, unless it was issued as revoked or
      a revocation at a positive close time has come since. */
  lemma VerifiesExactly(h: UidHash, trace: seq<Event>, states: seq<World>, i: nat, r: nat, j: nat, uid: Uid, now: u64)
    requires Run(h, trace, states) && i <= r < j <= |trace| && Kept(states, i + 1, j, uid)
    requires trace[i].op.Issue? && trace[i].op.att.uid == uid
    requires r == i || (trace[r].op.Renew? && trace[r].op.uid == uid)
    requires forall m :: r < m < j ==> !(trace[m].op.Renew? && trace[m].op.uid == uid)
    ensures var expiration := if r == i then trace[i].op.att.expiration else trace[r].op.expiration;
            Live(states[j].records[uid], now) <==>
            && trace[i].op.att.validFrom <= now && (expiration == 0 || now < expiration)
            && trace[i].op.att.revocationTime == 0
            && forall m :: i < m < j && trace[m].op.Revoke? && trace[m].op.uid == uid ==> trace[m].ledger.timestamp == 0
  {
    forall m | r < m < j ensures !Sets(trace[m].op, uid) {
      assert Do(states[m], trace[m].ledger, h, trace[m].op) == Ok(states[m + 1]);
      hide Do;
      StepOn(states[m], trace[m].ledger, h, trace[m].op, uid);
    }
    hide Run, Do;
    StandingAt(h, trace, states, i, j, uid);
    ExpirationAt(h, trace, states, r, j, uid);
    assert NoneRevoked(trace, i, j, uid) <==>
      forall m :: i < m < j && trace[m].op.Revoke? && trace[m].op.uid == uid ==> trace[m].ledger.timestamp == 0;
  }

  /** Only issuing adds a record. */
  lemma Adds(w: World, lg: Ledger, h: UidHash, op: Op, uid: Uid)
    requires Do(w, lg, h, op).Ok? && uid !in w.records && uid in Do(w, lg, h, op).value.records
    ensures op.Issue? && op.att.uid == uid
  {}

  /** What it takes to issue. */
  lemma IssuedRightly(w: World, lg: Ledger, h: UidHash, a: Attestation, v: Verdict)
    requires Do(w, lg, h, Issue(a, v)).Ok?
    ensures |a.data| <= 10_000 && a.uid == h(Content(a.schema, a.recipient, a.attester, a.data))
    ensures a.expiration == 0 || (lg.timestamp < a.expiration && a.validFrom < a.expiration)
    ensures a.recipient != a.attester && a.refUid != a.uid && (a.refUid == ZERO_UID || a.refUid in w.records)
    ensures a.recipient !in {ZERO_ACCOUNT, ZERO_CONTRACT} && a.attester !in {ZERO_ACCOUNT, ZERO_CONTRACT}
    ensures v.schemaExists && !v.quarantined && v.standing == Recognised && v.underQuota && v.resolverAccepts
    ensures v.maxTtl == 0 || (a.expiration > 0 && a.expiration - lg.timestamp <= v.maxTtl)
    ensures (a.revocable ==> v.policy != IrrevocableOnly) && (!a.revocable ==> v.policy != RevocableOnly)
  {
    IssueReports(w, lg, h, a, v);
    hide Do;
  }

  /** Where a stored record comes from: a step that issued it, under the hash of its
      content, between two different parties, before its expiration and with a
      reference that was stored then, after the registry, the quota and the resolver
      had agreed. Nothing but its expiration and revocation has changed since. */
  lemma {:induction false} Provenance(h: UidHash, trace: seq<Event>, states: seq<World>, n: nat, uid: Uid)
    returns (i: nat)
    requires Run(h, trace, states) && states[0] == GENESIS && n <= |trace| && uid in states[n].records
    ensures i < n && trace[i].op.Issue? && trace[i].op.att.uid == uid && Kept(states, i + 1, n, uid)
    ensures var a, v, lg, now := trace[i].op.att, trace[i].op.verdict, trace[i].ledger, states[n].records[uid];
            && now == a.(time := lg.timestamp, expiration := now.expiration, revocationTime := now.revocationTime)
            && |a.data| <= 10_000 && uid == h(Content(a.schema, a.recipient, a.attester, a.data))
            && (a.expiration == 0 || (lg.timestamp < a.expiration && a.validFrom < a.expiration))
            && a.recipient != a.attester && a.refUid != uid && (a.refUid == ZERO_UID || a.refUid in states[i].records)
            && a.recipient !in {ZERO_ACCOUNT, ZERO_CONTRACT} && a.attester !in {ZERO_ACCOUNT, ZERO_CONTRACT}
            && v.schemaExists && !v.quarantined && v.standing == Recognised && v.underQuota && v.resolverAccepts
            && (v.maxTtl == 0 || (a.expiration > 0 && a.expiration - lg.timestamp <= v.maxTtl))
            && (a.revocable ==> v.policy != IrrevocableOnly) && (!a.revocable ==> v.policy != RevocableOnly)
    decreases n
  {
    assert n > 0;
    var e := trace[n - 1];
    assert Do(states[n - 1], e.ledger, h, e.op) == Ok(states[n]);
    hide Do;
    if uid in states[n - 1].records {
      i := Provenance(h, trace, states, n - 1, uid);
      StepOn(states[n - 1], e.ledger, h, e.op, uid);
    } else {
      i := n - 1;
      Adds(states[i], e.ledger, h, e.op, uid);
      IssuedRightly(states[i], e.ledger, h, e.op.att, e.op.verdict);
      Writes(states[i], e.ledger, h, e.op);
    }
  }
}
