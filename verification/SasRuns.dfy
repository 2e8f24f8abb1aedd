/**
 What every run of the attestation service keeps: the life of a record, its
 ledger anchors, the reference graph, and the nonce watermarks.
 */
module SasRuns {
  import opened Base
  import opened Sas

  /** The record is stored in every state from `i` to `j`: no pruning between. */
  ghost predicate Kept(states: seq<World>, i: nat, j: nat, uid: Uid)
    requires i <= j < |states|
  {
    forall m :: i <= m <= j ==> uid in states[m].records
  }

  /** The recorded run ends in state `w`. */
  ghost predicate Reaches(h: UidHash, trace: seq<Event>, states: seq<World>, w: World) {
    Run(h, trace, states) && states[|trace|] == w
  }

  /** A call that commits extends a run by its operations, all in its ledger. So
      whatever holds of runs holds of every sequence of calls. */
  lemma {:induction false} CallExtendsRun(h: UidHash, trace: seq<Event>, states: seq<World>, w: World,
                                          lg: Ledger, ops: seq<Op>, after: World)
    returns (more: seq<World>)
    requires Reaches(h, trace, states, w) && NotAfter(LedgerAt(trace, |trace|), lg)
    requires DoAll(w, lg, h, ops) == Ok(after)
    ensures Reaches(h, trace + Events(lg, ops), states + more, after) && |more| == |ops|
    ensures NotAfter(LedgerAt(trace + Events(lg, ops), |trace + Events(lg, ops)|), lg)
    decreases |ops|
  {
    hide Do;
    if ops == [] {
      assert trace + Events(lg, ops) == trace && states + [] == states;
      return [];
    }
    var init, op := ops[..|ops| - 1], ops[|ops| - 1];
    var mid := DoAll(w, lg, h, init).value;
    more := CallExtendsRun(h, trace, states, w, lg, init, mid);
    RunSnoc(h, trace + Events(lg, init), states + more, mid, lg, op, after);
    assert trace + Events(lg, ops) == trace + Events(lg, init) + [Event(lg, op)];
    assert states + (more + [after]) == states + more + [after];
    more := more + [after];
  }

  lemma RunSnoc(h: UidHash, trace: seq<Event>, states: seq<World>, w: World, lg: Ledger, op: Op, after: World)
    requires Reaches(h, trace, states, w) && NotAfter(LedgerAt(trace, |trace|), lg) && Do(w, lg, h, op) == Ok(after)
    ensures Reaches(h, trace + [Event(lg, op)], states + [after], after)
  {
    hide Do;
    forall i | 0 <= i < |trace| + 1
      ensures Do((states + [after])[i], (trace + [Event(lg, op)])[i].ledger, h, (trace + [Event(lg, op)])[i].op)
              == Ok((states + [after])[i + 1])
    {
      if i < |trace| { assert Do(states[i], trace[i].ledger, h, trace[i].op) == Ok(states[i + 1]); }
    }
  }

  // ------------------------------------------------------------ life of a record

  /** Expirations compared with 0 as infinity. */
  predicate NotLater(e: u64, f: u64) {
    f == 0 || (e != 0 && e <= f)
  }

  /** From `a` at time `t0` to `b` at time `t1`: the content is frozen, a
      revocation happens at most once and at its close time, the expiration only
      rises, and not any more once it has passed. */
  predicate Evolves(a: Attestation, b: Attestation, t0: u64, t1: u64) {
    && b == a.(expiration := b.expiration, revocationTime := b.revocationTime)
    && (b.revocationTime == a.revocationTime || (a.revocationTime == 0 && a.revocable && t0 <= b.revocationTime <= t1))
    && NotLater(a.expiration, b.expiration)
    && (Expired(a.expiration, t0) ==> b.expiration == a.expiration)
  }

  lemma DoEvolves(w: World, lg: Ledger, h: UidHash, op: Op, uid: Uid)
    requires Do(w, lg, h, op).Ok? && uid in w.records && uid in Do(w, lg, h, op).value.records
    ensures Evolves(w.records[uid], Do(w, lg, h, op).value.records[uid], lg.timestamp, lg.timestamp)
  {}

  lemma EvolvesSame(a: Attestation, t: u64)
    ensures Evolves(a, a, t, t)
  {}

  lemma EvolvesOn(a: Attestation, b: Attestation, c: Attestation, t0: u64, t1: u64, t2: u64)
    requires Evolves(a, b, t0, t1) && Evolves(b, c, t2, t2) && t0 <= t1 <= t2
    ensures Evolves(a, c, t0, t2)
  {}

  lemma RunTimes(h: UidHash, trace: seq<Event>, states: seq<World>, i: nat, j: nat)
    requires Run(h, trace, states) && i <= j <= |trace|
    ensures TimeAt(trace, i) <= TimeAt(trace, j)
  {
    if 0 < i < j { assert NotAfter(trace[i - 1].ledger, trace[j - 1].ledger); }
  }

  lemma {:induction false} RecordEvolves(h: UidHash, trace: seq<Event>, states: seq<World>, i: nat, j: nat, uid: Uid)
    requires Run(h, trace, states) && i <= j <= |trace| && Kept(states, i, j, uid)
    ensures Evolves(states[i].records[uid], states[j].records[uid], TimeAt(trace, i), TimeAt(trace, j))
    decreases j
  {
    hide Do, Evolves;
    if i == j {
      EvolvesSame(states[i].records[uid], TimeAt(trace, i));
    } else {
      var lg := trace[j - 1].ledger;
      RecordEvolves(h, trace, states, i, j - 1, uid);
      assert Do(states[j - 1], lg, h, trace[j - 1].op) == Ok(states[j]);
      DoEvolves(states[j - 1], lg, h, trace[j - 1].op, uid);
      RunTimes(h, trace, states, i, j - 1);
      RunTimes(h, trace, states, j - 1, j);
      EvolvesOn(states[i].records[uid], states[j - 1].records[uid], states[j].records[uid],
                TimeAt(trace, i), TimeAt(trace, j - 1), TimeAt(trace, j));
    }
  }

  /** The times at which a stored record verifies form one interval: once it
      has stopped verifying it never starts again. */
  lemma NeverReopens(h: UidHash, trace: seq<Event>, states: seq<World>, i: nat, j: nat, k: nat, uid: Uid)
    requires Run(h, trace, states) && i <= j <= k <= |trace| && Kept(states, i, k, uid)
    requires Live(states[i].records[uid], TimeAt(trace, i)) && Live(states[k].records[uid], TimeAt(trace, k))
    ensures Live(states[j].records[uid], TimeAt(trace, j))
  {
    RecordEvolves(h, trace, states, i, j, uid);
    RecordEvolves(h, trace, states, j, k, uid);
    RunTimes(h, trace, states, i, j);
    RunTimes(h, trace, states, j, k);
  }

  /** A record revoked at a positive close time never verifies again. */
  lemma RevocationSticks(h: UidHash, trace: seq<Event>, states: seq<World>, i: nat, j: nat, uid: Uid, now: u64)
    requires Run(h, trace, states) && i < j <= |trace| && Kept(states, i, j, uid)
    requires trace[i].op.Revoke? && trace[i].op.uid == uid && trace[i].ledger.timestamp > 0
    ensures !Live(states[j].records[uid], now)
  {
    assert Do(states[i], trace[i].ledger, h, trace[i].op) == Ok(states[i + 1]);
    RecordEvolves(h, trace, states, i + 1, j, uid);
  }

  /** A revocation leaves a verifying record verifying exactly at close time 0. */
  lemma RevokeTakesEffect(w: World, lg: Ledger, h: UidHash, uid: Uid, v: Verdict)
    requires Do(w, lg, h, Revoke(uid, v)).Ok?
    ensures uid in w.records && uid in Do(w, lg, h, Revoke(uid, v)).value.records
    ensures Live(w.records[uid], lg.timestamp) ==>
              (Live(Do(w, lg, h, Revoke(uid, v)).value.records[uid], lg.timestamp) <==> lg.timestamp == 0)
  {}

  /** A run at close time 0: the record is issued and revoked, verifies ever
      after, and can never be revoked again, because its anchor is there. */
  lemma RevokedAtZero(h: UidHash, c: Content, v: Verdict, now: u64, later: Ledger)
    requires Permits(v) && IssuableContent(c) && h(c) != ZERO_UID
    ensures var trace := [Event(Ledger(1, 0), Issue(Made(h, c, 0, ZERO_UID), v)), Event(Ledger(2, 0), Revoke(h(c), v))];
            exists states: seq<World> ::
              && Run(h, trace, states) && states[0] == GENESIS && h(c) in states[2].records
              && Live(states[2].records[h(c)], now) && Do(states[2], later, h, Revoke(h(c), v)) == Err(InvalidTimestamp)
  {
    var trace := [Event(Ledger(1, 0), Issue(Made(h, c, 0, ZERO_UID), v)), Event(Ledger(2, 0), Revoke(h(c), v))];
    var issued := Issued(GENESIS, trace[0].ledger, trace[0].op.att);
    var states := [GENESIS, issued, Revoked(issued, trace[1].ledger, h(c))];
    assert Do(states[0], trace[0].ledger, h, trace[0].op) == Ok(states[1]);
    assert Do(states[1], trace[1].ledger, h, trace[1].op) == Ok(states[2]);
    assert Run(h, trace, states);
  }

  // ------------------------------------------------------- what every state keeps

  /** Stored records are filed under the hash of their content, and each has an
      issuance anchor that carries its issuance time. A revocation anchor comes
      no earlier and carries the revocation time. */
  ghost predicate Anchored(w: World, h: UidHash, now: Ledger) {
    && (forall u :: u in w.records ==> w.records[u].uid == u == h(ContentOf(w.records[u])))
    && (forall u :: u in w.records <==> AnchorKey(u, false) in w.anchors)
    && (forall u :: u in w.records ==> w.anchors[AnchorKey(u, false)].timestamp == w.records[u].time)
    && (forall u :: AnchorKey(u, true) in w.anchors ==>
          && u in w.records && w.anchors[AnchorKey(u, true)].timestamp == w.records[u].revocationTime
          && NotAfter(w.anchors[AnchorKey(u, false)], w.anchors[AnchorKey(u, true)]))
    && (forall k :: k in w.anchors ==> NotAfter(w.anchors[k], now))
  }

  lemma IssueAnchored(w: World, h: UidHash, lg: Ledger, a: Attestation)
    requires Anchored(w, h, lg) && a.uid !in w.records && a.uid == h(ContentOf(a))
    ensures Anchored(Issued(w, lg, a), h, lg)
  {
    var w' := Issued(w, lg, a);
    assert AnchorKey(a.uid, true) !in w.anchors;
  }

  /** The revoked record was not revoked before, so no other anchor says so. */
  lemma RevokeAnchored(w: World, h: UidHash, lg: Ledger, uid: Uid)
    requires Anchored(w, h, lg) && uid in w.records
    ensures Anchored(Revoked(w, lg, uid), h, lg)
  {
    assert NotAfter(w.anchors[AnchorKey(uid, false)], lg);
  }

  lemma PruneAnchored(w: World, h: UidHash, lg: Ledger, uid: Uid)
    requires Anchored(w, h, lg)
    ensures Anchored(Pruned(w, uid), h, lg)
  {}

  /** Expirations, nonces and links play no part. */
  lemma FieldsAnchored(w: World, w': World, h: UidHash, lg: Ledger)
    requires Anchored(w, h, lg) && w'.anchors == w.anchors && w'.records.Keys == w.records.Keys
    requires forall u :: u in w.records ==> w'.records[u] == w.records[u].(expiration := w'.records[u].expiration)
    ensures Anchored(w', h, lg)
  {
    assert forall u :: u in w'.records <==> u in w'.records.Keys;
  }

  lemma Later(w: World, h: UidHash, before: Ledger, lg: Ledger)
    requires Anchored(w, h, before) && NotAfter(before, lg)
    ensures Anchored(w, h, lg)
  {}

  lemma DoAnchored(w: World, h: UidHash, lg: Ledger, op: Op)
    requires Anchored(w, h, lg) && Do(w, lg, h, op).Ok?
    ensures Anchored(Do(w, lg, h, op).value, h, lg)
  {
    hide Anchored;
    match op
    case Issue(a, v) => IssueAnchored(w, h, lg, a);
    case Revoke(uid, v) => RevokeAnchored(w, h, lg, uid);
    case Prune(uid) => PruneAnchored(w, h, lg, uid);
    case Renew(uid, e, m) => FieldsAnchored(w, Do(w, lg, h, op).value, h, lg);
    case _ => FieldsAnchored(w, Do(w, lg, h, op).value, h, lg);
  }

  /** Every state reached from the empty contract is anchored. */
  lemma {:induction false} RunAnchored(h: UidHash, trace: seq<Event>, states: seq<World>, i: nat)
    requires Run(h, trace, states) && states[0] == GENESIS && i <= |trace|
    ensures Anchored(states[i], h, LedgerAt(trace, i))
  {
    hide Do;
    if i > 0 {
      hide Anchored;
      RunAnchored(h, trace, states, i - 1);
      if i > 1 { assert NotAfter(trace[i - 2].ledger, trace[i - 1].ledger); }
      Later(states[i - 1], h, LedgerAt(trace, i - 1), trace[i - 1].ledger);
      assert Do(states[i - 1], trace[i - 1].ledger, h, trace[i - 1].op) == Ok(states[i]);
      DoAnchored(states[i - 1], h, trace[i - 1].ledger, trace[i - 1].op);
    }
  }

  /** `check_claim`: read both anchors, then look for an exact match. */
  method CheckClaim(anchors: map<AnchorKey, Anchor>, now: Ledger, uid: Uid, claim: Anchor)
    returns (r: Result<(), Error>)
    ensures var issuance, revocation := Get(anchors, AnchorKey(uid, false)), Get(anchors, AnchorKey(uid, true));
            && (r.Ok? <==> (issuance == Some(claim) || revocation == Some(claim)) && NotAfter(claim, now)
                           && (issuance.Some? && revocation.Some? ==> NotAfter(issuance.value, revocation.value)))
            && (r == Err(TimestampAnchorNotFound) <==> issuance.None? && revocation.None?)
            && (r.Err? ==> r.error == TimestampAnchorNotFound || r.error == InvalidTimestamp)
  {
    var issuance, revocation := Get(anchors, AnchorKey(uid, false)), Get(anchors, AnchorKey(uid, true));
    if issuance.None? && revocation.None? { return Err(TimestampAnchorNotFound); }
    if issuance.Some? && revocation.Some?
      && !NotAfter(issuance.value, revocation.value) { return Err(InvalidTimestamp); }
    if !NotAfter(claim, now) { return Err(InvalidTimestamp); }
    var both := [issuance, revocation];
    for i := 0 to 2
      invariant forall m :: 0 <= m < i ==> both[m] != Some(claim)
    {
      if both[i] == Some(claim) { return Ok(()); }
    }
    assert both[0] != Some(claim) && both[1] != Some(claim);
    r := Err(InvalidTimestamp);
  }

  /** In an anchored state exactly the recorded anchors can be claimed. */
  lemma AnchorsAreClaims(w: World, h: UidHash, now: Ledger, uid: Uid, claim: Anchor)
    requires Anchored(w, h, now)
    ensures var issuance, revocation := Get(w.anchors, AnchorKey(uid, false)), Get(w.anchors, AnchorKey(uid, true));
            issuance == Some(claim) || revocation == Some(claim) ==>
              NotAfter(claim, now) && (issuance.Some? && revocation.Some? ==>
                NotAfter(issuance.value, revocation.value))
  {}

  // ----------------------------------------------------------- reference graph

  /** Every reference names a stored record. */
  ghost predicate Closed(w: World) {
    forall u :: u in w.records && w.records[u].refUid != ZERO_UID ==> w.records[u].refUid in w.records
  }

  ghost predicate Unreferenced(w: World, uid: Uid) {
    forall u :: u in w.records && u != uid ==> w.records[u].refUid != uid
  }

  /** Pruning keeps the graph closed exactly when nothing else refers to the
      pruned record. */
  lemma PruneClosedExact(w: World, uid: Uid)
    requires Closed(w) && uid != ZERO_UID
    ensures Closed(Pruned(w, uid)) <==> Unreferenced(w, uid)
  {
    var w' := Pruned(w, uid);
    assert forall u :: u in w'.records <==> u in w.records && u != uid;
  }

  /** References point to earlier issuances. */
  ghost predicate RefsRanked(records: map<Uid, Attestation>, rank: map<Uid, nat>, clock: nat) {
    && (forall u :: u in records ==> u in rank && rank[u] < clock)
    && (forall u :: u in records && records[u].refUid != ZERO_UID ==>
          records[u].refUid in records && rank[records[u].refUid] < rank[u])
  }

  ghost predicate SameParties(w: World, n: Uid, o: Uid) {
    && n in w.records && o in w.records && w.records[n].refUid == o && AnchorKey(o, true) in w.anchors
    && w.records[n].attester == w.records[o].attester && w.records[n].recipient == w.records[o].recipient
  }

  /** Links mirror references between records of the same parties. */
  ghost predicate LinksHold(w: World) {
    forall n :: n in w.supersedes ==> SameParties(w, n, w.supersedes[n])
  }

  /** The same records as far as references and parties go. */
  ghost predicate SameShape(a: map<Uid, Attestation>, b: map<Uid, Attestation>) {
    && (forall u :: u in a <==> u in b)
    && (forall u :: u in a ==>
          a[u].refUid == b[u].refUid && a[u].attester == b[u].attester && a[u].recipient == b[u].recipient)
  }

  lemma ShapeRanked(a: map<Uid, Attestation>, b: map<Uid, Attestation>, rank: map<Uid, nat>, clock: nat)
    requires RefsRanked(a, rank, clock) && SameShape(a, b)
    ensures RefsRanked(b, rank, clock + 1)
  {}

  lemma ShapeLinks(w: World, w': World)
    requires LinksHold(w) && SameShape(w.records, w'.records) && w'.supersedes == w.supersedes
    requires forall k :: k in w.anchors ==> k in w'.anchors
    ensures LinksHold(w')
  {
    forall n | n in w'.supersedes ensures SameParties(w', n, w'.supersedes[n]) {
      assert SameParties(w, n, w.supersedes[n]);
    }
  }

  /** All operations but issuing, pruning and linking keep the shape. */
  lemma DoShape(w: World, lg: Ledger, h: UidHash, op: Op)
    requires Do(w, lg, h, op).Ok? && !op.Issue? && !op.Prune?
    ensures var w' := Do(w, lg, h, op).value;
            && SameShape(w.records, w'.records) && (forall k :: k in w.anchors ==> k in w'.anchors)
            && (!op.Link? ==> w'.supersedes == w.supersedes)
            && (op.Link? ==> w' == w.(supersedes := w.supersedes[op.newUid := op.oldUid]))
  {}

  lemma IssueRanked(records: map<Uid, Attestation>, a: Attestation, rank: map<Uid, nat>, clock: nat)
    requires RefsRanked(records, rank, clock) && a.uid !in records && (a.refUid != ZERO_UID ==> a.refUid in records)
    ensures RefsRanked(records[a.uid := a], rank[a.uid := clock], clock + 1)
  {}

  lemma IssueLinks(w: World, lg: Ledger, a: Attestation)
    requires LinksHold(w) && a.uid !in w.records
    ensures LinksHold(Issued(w, lg, a))
  {
    var w' := Issued(w, lg, a);
    forall n | n in w'.supersedes ensures SameParties(w', n, w'.supersedes[n]) {
      assert SameParties(w, n, w.supersedes[n]);
    }
  }

  lemma PruneRanked(records: map<Uid, Attestation>, rank: map<Uid, nat>, clock: nat, uid: Uid)
    requires RefsRanked(records, rank, clock) && forall u :: u in records && u != uid ==> records[u].refUid != uid
    ensures RefsRanked(records - {uid}, rank, clock + 1)
  {}

  lemma PruneLinks(w: World, uid: Uid)
    requires LinksHold(w) && Unreferenced(w, uid)
    ensures LinksHold(Pruned(w, uid))
  {
    var w' := Pruned(w, uid);
    forall n | n in w'.supersedes ensures SameParties(w', n, w'.supersedes[n]) {
      assert SameParties(w, n, w.supersedes[n]);
    }
  }

  lemma LinkLinks(w: World, n: Uid, o: Uid)
    requires LinksHold(w) && LinkOk(w, n, o)
    ensures LinksHold(w.(supersedes := w.supersedes[n := o]))
  {
    var w' := w.(supersedes := w.supersedes[n := o]);
    forall m | m in w'.supersedes ensures SameParties(w', m, w'.supersedes[m]) {
      assert m != n ==> SameParties(w, m, w.supersedes[m]);
    }
  }

  /** The operation removes a record. */
  predicate Removes(w: World, e: Event) {
    e.op.Prune? && e.op.uid in w.records && Expired(w.records[e.op.uid].expiration, e.ledger.timestamp)
  }

  /** Issuing takes the next rank. */
  function Ranked(rank: map<Uid, nat>, op: Op, clock: nat): map<Uid, nat> {
    if op.Issue? then rank[op.att.uid := clock] else rank
  }

  lemma DoRanked(w: World, lg: Ledger, h: UidHash, op: Op, rank: map<Uid, nat>, clock: nat)
    requires RefsRanked(w.records, rank, clock) && LinksHold(w) && Do(w, lg, h, op).Ok?
    requires Removes(w, Event(lg, op)) ==> Unreferenced(w, op.uid)
    ensures RefsRanked(Do(w, lg, h, op).value.records, Ranked(rank, op, clock), clock + 1)
    ensures LinksHold(Do(w, lg, h, op).value)
  {
    hide RefsRanked, LinksHold, SameShape;
    var w' := Do(w, lg, h, op).value;
    match op
    case Issue(a, v) =>
      IssueRanked(w.records, a.(time := lg.timestamp), rank, clock);
      IssueLinks(w, lg, a);
    case Prune(uid) =>
      if Removes(w, Event(lg, op)) {
        PruneRanked(w.records, rank, clock, uid);
        PruneLinks(w, uid);
      } else {
        SameShapeSelf(w.records);
        ShapeRanked(w.records, w.records, rank, clock);
      }
    case _ => DoShapeRanked(w, lg, h, op, rank, clock);
  }

  lemma SameShapeSelf(a: map<Uid, Attestation>)
    ensures SameShape(a, a)
  {}

  lemma DoShapeRanked(w: World, lg: Ledger, h: UidHash, op: Op, rank: map<Uid, nat>, clock: nat)
    requires RefsRanked(w.records, rank, clock) && LinksHold(w) && Do(w, lg, h, op).Ok? && !op.Issue? && !op.Prune?
    ensures RefsRanked(Do(w, lg, h, op).value.records, rank, clock + 1) && LinksHold(Do(w, lg, h, op).value)
  {
    hide RefsRanked, LinksHold, SameShape;
    DoShape(w, lg, h, op);
    ShapeRanked(w.records, Do(w, lg, h, op).value.records, rank, clock);
    if op.Link? {
      LinkLinks(w, op.newUid, op.oldUid);
    } else {
      hide Do;
      ShapeLinks(w, Do(w, lg, h, op).value);
    }
  }

  /** No prune of the run removed a record another one refers to. */
  ghost predicate TidyPrunes(trace: seq<Event>, states: seq<World>)
    requires |states| == |trace| + 1
  {
    forall i :: 0 <= i < |trace| && Removes(states[i], trace[i]) ==> Unreferenced(states[i], trace[i].op.uid)
  }

  lemma {:induction false} RunRanked(h: UidHash, trace: seq<Event>, states: seq<World>, i: nat)
    returns (rank: map<Uid, nat>)
    requires Run(h, trace, states) && states[0] == GENESIS && TidyPrunes(trace, states) && i <= |trace|
    ensures RefsRanked(states[i].records, rank, i) && LinksHold(states[i])
  {
    hide Do, Unreferenced;
    if i == 0 {
      rank := map[];
    } else {
      hide RefsRanked, LinksHold;
      rank := RunRanked(h, trace, states, i - 1);
      var e := trace[i - 1];
      assert Do(states[i - 1], e.ledger, h, e.op) == Ok(states[i]);
      assert e == Event(e.ledger, e.op);
      DoRanked(states[i - 1], e.ledger, h, e.op, rank, i - 1);
      rank := Ranked(rank, e.op, i - 1);
    }
  }

  /** A walk along references. */
  ghost predicate RefPath(w: World, p: seq<Uid>) {
    && (forall i :: 0 <= i < |p| ==> p[i] in w.records)
    && (forall i :: 0 < i < |p| ==> w.records[p[i - 1]].refUid == p[i] && p[i] != ZERO_UID)
  }

  lemma {:induction false} RanksFall(w: World, rank: map<Uid, nat>, clock: nat, p: seq<Uid>, i: nat, j: nat)
    requires RefsRanked(w.records, rank, clock) && RefPath(w, p) && i < j < |p|
    ensures rank[p[j]] < rank[p[i]]
  {
    assert w.records[p[j - 1]].refUid == p[j];
    if i + 1 < j { RanksFall(w, rank, clock, p, i, j - 1); }
  }

  /** Without untidy pruning, references are closed, and no walk along them ever
      meets the same record twice: the graph has no cycle. */
  lemma RefsAcyclic(h: UidHash, trace: seq<Event>, states: seq<World>, n: nat, p: seq<Uid>)
    requires Run(h, trace, states) && states[0] == GENESIS && TidyPrunes(trace, states) && n <= |trace|
    requires RefPath(states[n], p)
    ensures Closed(states[n]) && Distinct(p)
  {
    assert |states| == |trace| + 1;
    hide Run, Do;
    var rank := RunRanked(h, trace, states, n);
    forall i, j | 0 <= i < j < |p|
      ensures p[i] != p[j]
    {
      RanksFall(states[n], rank, n, p, i, j);
    }
  }

  /** A chain of replacements, newest first. */
  ghost predicate ReplacementChain(w: World, p: seq<Uid>) {
    forall i :: 0 <= i < |p| - 1 ==> p[i] in w.supersedes && w.supersedes[p[i]] == p[i + 1]
  }

  /** A replacement chain has no repeats, keeps one attester and one recipient,
      and every member but the newest has a revocation anchor with the time of its
      revocation; so it is revoked, unless that ledger closed at time 0. */
  lemma ReplacementChains(h: UidHash, trace: seq<Event>, states: seq<World>, n: nat, p: seq<Uid>)
    requires Run(h, trace, states) && states[0] == GENESIS && TidyPrunes(trace, states) && n <= |trace|
    requires ReplacementChain(states[n], p) && |p| > 1 && ZERO_UID !in p
    ensures Distinct(p) && forall i :: 0 <= i < |p| ==> p[i] in states[n].records
    ensures forall i :: 0 <= i < |p| ==>
              && states[n].records[p[i]].attester == states[n].records[p[0]].attester
              && states[n].records[p[i]].recipient == states[n].records[p[0]].recipient
    ensures forall i :: 0 < i < |p| ==>
              && AnchorKey(p[i], true) in states[n].anchors
              && states[n].anchors[AnchorKey(p[i], true)].timestamp == states[n].records[p[i]].revocationTime
    ensures (forall i :: 0 <= i < |trace| ==> trace[i].ledger.timestamp > 0) ==>
              forall i :: 0 < i < |p| ==> states[n].records[p[i]].revocationTime != 0
  {
    var w := states[n];
    var rank := RunRanked(h, trace, states, n);
    RunAnchored(h, trace, states, n);
    ChainMember(w, p, |p| - 1);
    assert RefPath(w, p);
    RefsAcyclic(h, trace, states, n, p);
    if forall i :: 0 <= i < |trace| ==> trace[i].ledger.timestamp > 0 {
      forall i | 0 < i < |p| ensures w.records[p[i]].revocationTime != 0 {
        AnchorsArePositive(h, trace, states, n, AnchorKey(p[i], true));
      }
    }
  }

  /** Anchors never change, and a new one is the current ledger. */
  lemma DoAnchors(w: World, lg: Ledger, h: UidHash, op: Op, k: AnchorKey)
    requires Do(w, lg, h, op).Ok? && k in Do(w, lg, h, op).value.anchors
    ensures Do(w, lg, h, op).value.anchors[k] == if k in w.anchors then w.anchors[k] else lg
  {}

  lemma {:induction false} AnchorsArePositive(h: UidHash, trace: seq<Event>, states: seq<World>, n: nat, k: AnchorKey)
    requires Run(h, trace, states) && states[0] == GENESIS && n <= |trace| && k in states[n].anchors
    requires forall i :: 0 <= i < |trace| ==> trace[i].ledger.timestamp > 0
    ensures states[n].anchors[k].timestamp > 0
  {
    hide Do;
    assert n > 0;
    assert Do(states[n - 1], trace[n - 1].ledger, h, trace[n - 1].op) == Ok(states[n]);
    DoAnchors(states[n - 1], trace[n - 1].ledger, h, trace[n - 1].op, k);
    if k in states[n - 1].anchors { AnchorsArePositive(h, trace, states, n - 1, k); }
  }

  lemma {:induction false} ChainMember(w: World, p: seq<Uid>, k: nat)
    requires LinksHold(w) && ReplacementChain(w, p) && 0 < k < |p|
    ensures forall i :: 0 <= i <= k ==> p[i] in w.records
    ensures forall i :: 0 <= i <= k ==> w.records[p[i]].attester == w.records[p[0]].attester
                                        && w.records[p[i]].recipient == w.records[p[0]].recipient
    ensures forall i :: 0 < i <= k ==> w.records[p[i - 1]].refUid == p[i] && AnchorKey(p[i], true) in w.anchors
  {
    if k > 1 { ChainMember(w, p, k - 1); }
    assert p[k - 1] in w.supersedes && SameParties(w, p[k - 1], p[k]);
  }

  /** Issue `first`, issue `second` referring to it, prune the first once it has
      expired, and issue its content again, now referring to the second. */
  function CycleTrace(h: UidHash, first: Content, second: Content, v: Verdict): seq<Event> {
    [Event(Ledger(1, 1), Issue(Made(h, first, 10, ZERO_UID), v)),
     Event(Ledger(2, 2), Issue(Made(h, second, 0, h(first)), v)),
     Event(Ledger(3, 10), Prune(h(first))),
     Event(Ledger(4, 11), Issue(Made(h, first, 0, h(second)), v))]
  }

  /** Pruning a referenced record can close a cycle: the reference is not part
      of what a UID hashes, so the same UID comes back pointing elsewhere. */
  lemma PruneCanCloseCycle(h: UidHash, first: Content, second: Content, v: Verdict)
    requires h(first) != h(second) && h(first) != ZERO_UID && h(second) != ZERO_UID
    requires Permits(v) && IssuableContent(first) && IssuableContent(second)
    ensures exists states :: Run(h, CycleTrace(h, first, second, v), states) && states[0] == GENESIS
                             && RefPath(states[4], [h(first), h(second), h(first)])
  {
    var trace := CycleTrace(h, first, second, v);
    var w1 := Issued(GENESIS, trace[0].ledger, trace[0].op.att);
    var w2 := Issued(w1, trace[1].ledger, trace[1].op.att);
    var w3 := Pruned(w2, h(first));
    var w4 := Issued(w3, trace[3].ledger, trace[3].op.att);
    var states := [GENESIS, w1, w2, w3, w4];
    assert Do(states[0], trace[0].ledger, h, trace[0].op) == Ok(states[1]);
    assert Do(states[1], trace[1].ledger, h, trace[1].op) == Ok(states[2]);
    assert Do(states[2], trace[2].ledger, h, trace[2].op) == Ok(states[3]);
    assert Do(states[3], trace[3].ledger, h, trace[3].op) == Ok(states[4]);
    assert Run(h, trace, states);
    assert RefPath(states[4], [h(first), h(second), h(first)]);
  }

  predicate Permits(v: Verdict) {
    && v.schemaExists && !v.quarantined && v.maxTtl == 0 && v.standing == Recognised
    && v.underQuota && v.policy == Permissive && v.resolverAccepts
  }

  predicate IssuableContent(c: Content) {
    && |c.data| <= MAX_ATTESTATION_DATA_BYTES && c.recipient != c.attester
    && c.recipient !in {ZERO_ACCOUNT, ZERO_CONTRACT} && c.attester !in {ZERO_ACCOUNT, ZERO_CONTRACT}
  }

  function Made(h: UidHash, c: Content, expiration: u64, refUid: Uid): Attestation {
    Attestation(h(c), c.schema, 0, expiration, 0, refUid, c.recipient, c.attester, true, c.data, 0)
  }

  // ------------------------------------------------------------------- nonces

  /** The nonces of an attester, and those of a recipient's consents. */
  datatype Series = Delegation(attester: Address) | Consent(recipient: Address)

  function Mark(w: World, s: Series): Option<u64> {
    match s
    case Delegation(a) => Get(w.nonces, a)
    case Consent(r) => Get(w.consents, r)
  }

  /** The nonce an operation takes from a series: it uses it, or invalidates it
      together with all below it. */
  function Takes(op: Op, s: Series): Option<u64> {
    match op
    case UseNonce(a, n) => if s == Delegation(a) then Some(n) else None
    case Invalidate(a, max) => if s == Delegation(a) then Some(max) else None
    case UseConsent(r, n) => if s == Consent(r) then Some(n) else None
    case _ => None
  }

  /** Taking a nonce moves the mark strictly up, to that nonce; nothing else
      moves it. */
  lemma DoMark(w: World, lg: Ledger, h: UidHash, op: Op, s: Series)
    requires Do(w, lg, h, op).Ok?
    ensures var before, after := Mark(w, s), Mark(Do(w, lg, h, op).value, s);
            if Takes(op, s).None? then after == before
            else after == Takes(op, s) && (before.Some? ==> before.value < after.value)
  {}

  /** The watermark of a series never falls. */
  lemma {:induction false} WatermarkRises(h: UidHash, trace: seq<Event>, states: seq<World>, i: nat, j: nat, s: Series)
    requires Run(h, trace, states) && i <= j <= |trace| && Mark(states[i], s).Some?
    ensures Mark(states[j], s).Some? && Mark(states[i], s).value <= Mark(states[j], s).value
    decreases j
  {
    hide Do, Mark;
    if i < j {
      WatermarkRises(h, trace, states, i, j - 1, s);
      assert Do(states[j - 1], trace[j - 1].ledger, h, trace[j - 1].op) == Ok(states[j]);
      DoMark(states[j - 1], trace[j - 1].ledger, h, trace[j - 1].op, s);
    }
  }

  /** The nonces taken from a series strictly increase over any interleaving of
      uses and invalidations. */
  lemma NoncesIncrease(h: UidHash, trace: seq<Event>, states: seq<World>, i: nat, j: nat, s: Series)
    requires Run(h, trace, states) && i < j < |trace| && Takes(trace[i].op, s).Some? && Takes(trace[j].op, s).Some?
    ensures Takes(trace[i].op, s).value < Takes(trace[j].op, s).value
  {
    hide Do, Mark;
    assert Do(states[i], trace[i].ledger, h, trace[i].op) == Ok(states[i + 1]);
    assert Do(states[j], trace[j].ledger, h, trace[j].op) == Ok(states[j + 1]);
    DoMark(states[i], trace[i].ledger, h, trace[i].op, s);
    DoMark(states[j], trace[j].ledger, h, trace[j].op, s);
    WatermarkRises(h, trace, states, i + 1, j, s);
  }

  /** Once a nonce was taken, every later operation that would take it or one
      below it is refused, at any ledger. */
  lemma SpentForever(h: UidHash, trace: seq<Event>, states: seq<World>, i: nat, j: nat, s: Series, op: Op, lg: Ledger)
    requires Run(h, trace, states) && i < j <= |trace| && Takes(trace[i].op, s).Some? && Takes(op, s).Some?
    requires Takes(op, s).value <= Takes(trace[i].op, s).value
    ensures Do(states[j], lg, h, op) == Err(if op.Invalidate? then InvalidValue else DelegationReplay)
  {
    assert Do(states[i], trace[i].ledger, h, trace[i].op) == Ok(states[i + 1]);
    DoMark(states[i], trace[i].ledger, h, trace[i].op, s);
    WatermarkRises(h, trace, states, i + 1, j, s);
    hide Run;
  }

  /** The mark of a series that started without one is the nonce taken last. */
  lemma {:induction false} MarkWasTaken(h: UidHash, trace: seq<Event>, states: seq<World>, j: nat, s: Series)
    returns (i: nat)
    requires Run(h, trace, states) && j <= |trace| && Mark(states[0], s).None? && Mark(states[j], s).Some?
    ensures i < j && Takes(trace[i].op, s) == Mark(states[j], s)
  {
    hide Do, Mark;
    assert j > 0;
    assert Do(states[j - 1], trace[j - 1].ledger, h, trace[j - 1].op) == Ok(states[j]);
    DoMark(states[j - 1], trace[j - 1].ledger, h, trace[j - 1].op, s);
    i := j - 1;
    if Takes(trace[j - 1].op, s).None? {
      i := MarkWasTaken(h, trace, states, j - 1, s);
    }
  }

  /** A use of a nonce is accepted exactly when it is above everything the run
      has taken from its series; first of all, even 0 is accepted. */
  lemma NonceAccepted(h: UidHash, trace: seq<Event>, states: seq<World>, j: nat, s: Series, op: Op, lg: Ledger)
    requires Run(h, trace, states) && j <= |trace| && Mark(states[0], s).None?
    requires Takes(op, s).Some? && !op.Invalidate?
    ensures Do(states[j], lg, h, op).Ok? <==>
            forall i :: 0 <= i < j && Takes(trace[i].op, s).Some? ==> Takes(trace[i].op, s).value < Takes(op, s).value
  {
    assert |states| == |trace| + 1;
    hide Run;
    if Do(states[j], lg, h, op).Ok? {
      forall i | 0 <= i < j && Takes(trace[i].op, s).Some?
        ensures Takes(trace[i].op, s).value < Takes(op, s).value
      {
        if Takes(op, s).value <= Takes(trace[i].op, s).value { SpentForever(h, trace, states, i, j, s, op, lg); }
      }
    } else {
      var i := MarkWasTaken(h, trace, states, j, s);
    }
  }
}
