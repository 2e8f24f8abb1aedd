/**
 The attestation service as an abstract machine: one map of records, the
 ledger anchors, and the delegation nonce watermarks, changed by the
 operations every entry point is made of.

 A panic is an `Err`, which leaves the state alone. What other contracts and
 signature checks answer is an input: a `Verdict`, or the choice of operation.
 */
module Sas {
  import opened Base

  datatype Attestation = Attestation(
    uid: Uid, schema: Uid, time: u64, expiration: u64, revocationTime: u64, refUid: Uid,
    recipient: Address, attester: Address, revocable: bool, data: seq<byte>, validFrom: u64)

  /** The fields an attestation's UID is the hash of. */
  datatype Content = Content(schema: Uid, recipient: Address, attester: Address, data: seq<byte>)

  type UidHash = Content -> Uid

  function ContentOf(a: Attestation): Content {
    Content(a.schema, a.recipient, a.attester, a.data)
  }

  datatype Ledger = Ledger(sequence: nat, timestamp: u64)

  /** The ledger a timestamp came from. */
  type Anchor = Ledger

  datatype AnchorKey = AnchorKey(uid: Uid, revocation: bool)

  datatype Policy = RevocableOnly | IrrevocableOnly | Permissive

  /** How the registry sees an issuer: the owner, a delegate or a listed
      attester; a stranger; or one that the schema's attester list leaves out. */
  datatype Standing = Recognised | Stranger | Unlisted

  /** What the schema registry, the quota and the resolver answer to one call. */
  datatype Verdict = Verdict(schemaExists: bool, quarantined: bool, maxTtl: u64, standing: Standing,
                             underQuota: bool, policy: Policy, resolverAccepts: bool)

  datatype Error = PayloadTooLarge | DuplicateAttestation | InvalidUid | AlreadyExpired | InvalidTimeRange
                 | InvalidRecipient | InvalidRefUid | InvalidSchema | SchemaQuarantined | InvalidExpirationTime
                 | Unauthorized | UnauthorizedAttester | RateLimitExceeded | InvalidRevocability
                 | ResolverRejected | InvalidTimestamp
                 | AttestationNotFound | NotRevocable | AlreadyRevoked | InvalidTtl | DelegationReplay | InvalidValue
                 | DelegationScopeDenied | BatchTooLarge | AutoPruneDisabled | TimestampAnchorNotFound

  const MAX_ATTESTATION_DATA_BYTES := 10_000
  const ZERO_ACCOUNT := Address(0)
  const ZERO_CONTRACT := Address(1)

  /** `supersedes` records which record each replacement took over from; it is
      history, not contract storage. */
  datatype World = World(
    records: map<Uid, Attestation>, anchors: map<AnchorKey, Anchor>,
    nonces: map<Address, u64>, consents: map<Address, u64>, supersedes: map<Uid, Uid>)

  const GENESIS := World(map[], map[], map[], map[], map[])

  /** Set and passed; 0 means never. */
  predicate Expired(expiration: u64, now: u64) {
    expiration != 0 && expiration <= now
  }

  /** `verify_attestation_record` on a stored record. */
  predicate Live(a: Attestation, now: u64) {
    a.revocationTime == 0 && (a.validFrom == 0 || a.validFrom <= now) && !Expired(a.expiration, now)
  }

  datatype Op =
    | Issue(att: Attestation, verdict: Verdict)
    | Revoke(uid: Uid, verdict: Verdict)
    | Renew(uid: Uid, expiration: u64, maxTtl: u64)
    | Prune(uid: Uid)
    | UseNonce(attester: Address, nonce: u64)
    | UseConsent(recipient: Address, nonce: u64)
    | Invalidate(attester: Address, max: u64)
    | Link(newUid: Uid, oldUid: Uid)
    | Observe

  // --------------------------------------------------------------- operations

  predicate ExceedsTtl(expiration: u64, maxTtl: u64, now: u64) {
    maxTtl > 0 && (expiration == 0 || (expiration > now && expiration - now > maxTtl))
  }

  /** `check_policy` */
  function PolicyError(policy: Policy, revocable: bool): Option<Error> {
    if policy == RevocableOnly && !revocable then Some(InvalidRevocability)
    else if policy == IrrevocableOnly && revocable then Some(NotRevocable)
    else None
  }

  /** The checks of `attest_internal`, in order. */
  function IssueChecks(w: World, now: u64, h: UidHash, a: Attestation, v: Verdict): Option<Error> {
    if |a.data| > MAX_ATTESTATION_DATA_BYTES then Some(PayloadTooLarge)
    else if a.uid in w.records then Some(DuplicateAttestation)
    else if a.uid != h(ContentOf(a)) then Some(InvalidUid)
    else if Expired(a.expiration, now) then Some(AlreadyExpired)
    else if a.expiration > 0 && a.validFrom >= a.expiration then Some(InvalidTimeRange)
    else if a.recipient in {ZERO_ACCOUNT, ZERO_CONTRACT} || a.attester in {ZERO_ACCOUNT, ZERO_CONTRACT}
            || a.recipient == a.attester then Some(InvalidRecipient)
    else if a.refUid == a.uid then Some(InvalidRefUid)
    else if a.refUid != ZERO_UID && a.refUid !in w.records then Some(InvalidRefUid)
    else if !v.schemaExists then Some(InvalidSchema)
    else if v.quarantined then Some(SchemaQuarantined)
    else if ExceedsTtl(a.expiration, v.maxTtl, now) then Some(InvalidExpirationTime)
    else if v.standing == Unlisted then Some(UnauthorizedAttester)
    else if v.standing == Stranger then Some(Unauthorized)
    else if !v.underQuota then Some(RateLimitExceeded)
    else if PolicyError(v.policy, a.revocable).Some? then PolicyError(v.policy, a.revocable)
    else if !v.resolverAccepts then Some(ResolverRejected)
    else None
  }

  function IssueError(w: World, now: u64, h: UidHash, a: Attestation, v: Verdict): Option<Error> {
    match IssueChecks(w, now, h, a, v)
    case Some(e) => Some(e)
    case None => if AnchorKey(a.uid, false) in w.anchors then Some(InvalidTimestamp) else None
  }

  function Issued(w: World, lg: Ledger, a: Attestation): World {
    w.(records := w.records[a.uid := a.(time := lg.timestamp)], anchors := w.anchors[AnchorKey(a.uid, false) := lg])
  }

  /** The checks of `revoke_internal`. */
  function RevokeError(w: World, uid: Uid, v: Verdict): Option<Error> {
    if uid !in w.records then Some(AttestationNotFound)
    else if !w.records[uid].revocable then Some(NotRevocable)
    else if w.records[uid].revocationTime != 0 then Some(AlreadyRevoked)
    else if AnchorKey(uid, true) in w.anchors then Some(InvalidTimestamp)
    else if !v.schemaExists then Some(InvalidSchema)
    else if !v.resolverAccepts then Some(ResolverRejected)
    else None
  }

  function Revoked(w: World, lg: Ledger, uid: Uid): World
    requires uid in w.records
  {
    w.(records := w.records[uid := w.records[uid].(revocationTime := lg.timestamp)],
       anchors := w.anchors[AnchorKey(uid, true) := lg])
  }

  /** The checks of `renew_attestation`, after authorization. */
  function RenewError(w: World, now: u64, uid: Uid, expiration: u64, maxTtl: u64): Option<Error> {
    if uid !in w.records then Some(AttestationNotFound)
    else
      var a := w.records[uid];
      if !a.revocable then Some(NotRevocable)
      else if a.revocationTime != 0 then Some(AlreadyRevoked)
      else if Expired(a.expiration, now) then Some(AlreadyExpired)
      else if a.expiration != 0 && expiration != 0 && expiration < a.expiration then Some(InvalidTtl)
      else if a.expiration == 0 && expiration != 0 then Some(InvalidTtl)
      else if expiration > 0 && a.validFrom >= expiration then Some(InvalidTimeRange)
      else if ExceedsTtl(expiration, maxTtl, now) then Some(InvalidExpirationTime)
      else if Expired(expiration, now) then Some(AlreadyExpired)
      else None
  }

  function Pruned(w: World, uid: Uid): World {
    w.(records := w.records - {uid}, anchors := w.anchors - {AnchorKey(uid, false), AnchorKey(uid, true)},
       supersedes := w.supersedes - {uid})
  }

  /** One operation at one ledger. */
  function Do(w: World, lg: Ledger, h: UidHash, op: Op): Result<World, Error> {
    match op
    case Issue(a, v) =>
      (match IssueError(w, lg.timestamp, h, a, v) case Some(e) => Err(e) case None => Ok(Issued(w, lg, a)))
    case Revoke(uid, v) =>
      (match RevokeError(w, uid, v) case Some(e) => Err(e) case None => Ok(Revoked(w, lg, uid)))
    case Renew(uid, expiration, maxTtl) =>
      (match RenewError(w, lg.timestamp, uid, expiration, maxTtl)
       case Some(e) => Err(e)
       case None => Ok(w.(records := w.records[uid := w.records[uid].(expiration := expiration)])))
    case Prune(uid) =>
      Ok(if uid in w.records && Expired(w.records[uid].expiration, lg.timestamp) then Pruned(w, uid) else w)
    case UseNonce(a, n) =>
      if a in w.nonces && n <= w.nonces[a] then Err(DelegationReplay) else Ok(w.(nonces := w.nonces[a := n]))
    case UseConsent(r, n) =>
      if r in w.consents && n <= w.consents[r] then Err(DelegationReplay) else Ok(w.(consents := w.consents[r := n]))
    case Invalidate(a, max) =>
      if max <= Get(w.nonces, a).GetOr(0) then Err(InvalidValue) else Ok(w.(nonces := w.nonces[a := max]))
    case Link(newUid, oldUid) =>
      if LinkOk(w, newUid, oldUid) then Ok(w.(supersedes := w.supersedes[newUid := oldUid])) else Err(InvalidRefUid)
    case Observe => Ok(w)
  }

  /** What holds at the end of a replacement, where its link is recorded. */
  predicate LinkOk(w: World, newUid: Uid, oldUid: Uid) {
    && newUid in w.records && oldUid in w.records
    && w.records[newUid].refUid == oldUid && w.records[newUid].attester == w.records[oldUid].attester
    && w.records[newUid].recipient == w.records[oldUid].recipient && AnchorKey(oldUid, true) in w.anchors
  }

  /** A call is a list of operations that commits as a whole or not at all. */
  function DoAll(w: World, lg: Ledger, h: UidHash, ops: seq<Op>): Result<World, Error> {
    if ops == [] then Ok(w)
    else match DoAll(w, lg, h, ops[..|ops| - 1])
         case Err(e) => Err(e)
         case Ok(w') => Do(w', lg, h, ops[|ops| - 1])
  }

  lemma DoAllNone(w: World, lg: Ledger, h: UidHash)
    ensures DoAll(w, lg, h, []) == Ok(w)
  {}

  lemma DoAllOne(w: World, lg: Ledger, h: UidHash, a: Op)
    ensures DoAll(w, lg, h, [a]) == Do(w, lg, h, a)
  {
    assert [a][..0] == [];
  }

  lemma DoAllSnoc(w: World, lg: Ledger, h: UidHash, ops: seq<Op>, a: Op)
    ensures DoAll(w, lg, h, ops + [a]) ==
            match DoAll(w, lg, h, ops) case Err(e) => Err(e) case Ok(w') => Do(w', lg, h, a)
  {
    assert (ops + [a])[..|ops|] == ops;
  }

  lemma DoAllTwo(w: World, lg: Ledger, h: UidHash, a: Op, b: Op)
    ensures DoAll(w, lg, h, [a, b]) == match Do(w, lg, h, a) case Err(e) => Err(e) case Ok(w') => Do(w', lg, h, b)
  {
    assert [a, b] == [a] + [b];
    DoAllOne(w, lg, h, a);
    DoAllSnoc(w, lg, h, [a], b);
  }

  lemma {:induction false} DoAllConcat(w: World, lg: Ledger, h: UidHash, a: seq<Op>, b: seq<Op>)
    ensures DoAll(w, lg, h, a + b) ==
            match DoAll(w, lg, h, a) case Err(e) => Err(e) case Ok(w') => DoAll(w', lg, h, b)
  {
    hide Do;
    if b == [] {
      assert a + b == a;
    } else {
      DoAllConcat(w, lg, h, a, b[..|b| - 1]);
      assert (a + b)[..|a + b| - 1] == a + b[..|b| - 1];
    }
  }

  // --------------------------------------------------------------------- runs

  datatype Event = Event(ledger: Ledger, op: Op)

  predicate NotAfter(a: Ledger, b: Ledger) {
    a.sequence <= b.sequence && a.timestamp <= b.timestamp
  }

  /** The committed operations of a run and the states around them, from any
      starting state. Ledger sequence and close time never go back. */
  ghost predicate Run(h: UidHash, trace: seq<Event>, states: seq<World>) {
    && |states| == |trace| + 1
    && (forall i, j :: 0 <= i < j < |trace| ==> NotAfter(trace[i].ledger, trace[j].ledger))
    && (forall i :: 0 <= i < |trace| ==> Do(states[i], trace[i].ledger, h, trace[i].op) == Ok(states[i + 1]))
  }

  /** The ledger a state was reached in. */
  function LedgerAt(trace: seq<Event>, i: nat): Ledger
    requires i <= |trace|
  {
    if i == 0 then Ledger(0, 0) else trace[i - 1].ledger
  }

  function TimeAt(trace: seq<Event>, i: nat): u64
    requires i <= |trace|
  {
    LedgerAt(trace, i).timestamp
  }

  function Events(lg: Ledger, ops: seq<Op>): (events: seq<Event>)
    ensures |events| == |ops| && forall i :: 0 <= i < |ops| ==> events[i] == Event(lg, ops[i])
  {
    seq(|ops|, i requires 0 <= i < |ops| => Event(lg, ops[i]))
  }
}
