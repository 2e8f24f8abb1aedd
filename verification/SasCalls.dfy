/**
 The entry points of the attestation service as functions of the state: what each
 checks before it commits its operations, and what it means when it goes through.
 */
module SasCalls {
  import opened Base
  import opened Sas
  import opened SasBatch
  import opened SasRules

  const MAX_PRUNE_BATCH := 100
  const MAX_MULTI_ATTEST := 100

  /** A call that is refused, or commits its operations. */
  function Attempt(w: World, lg: Ledger, h: UidHash, refusal: Option<Error>, ops: seq<Op>): Result<World, Error> {
    if refusal.Some? then Err(refusal.value) else DoAll(w, lg, h, ops)
  }

  // -------------------------------------------------------------- replacement

  /** The checks of `replace_internal` before anything is written. */
  function ReplaceChecks(current: Attestation, a: Attestation, now: u64): Option<Error> {
    if !current.revocable then Some(NotRevocable)
    else if current.revocationTime != 0 then Some(AlreadyRevoked)
    else if Expired(current.expiration, now) then Some(InvalidTtl)
    else if a.attester != current.attester || a.recipient != current.recipient then Some(Unauthorized)
    else if current.expiration != 0 && a.expiration != 0 && a.expiration < current.expiration then Some(InvalidTtl)
    else None
  }

  /** A replacement revokes the old record and issues a new one that refers to
      it, whatever reference the caller asked for. */
  function ReplaceOps(oldUid: Uid, a: Attestation, onRevoke: Verdict, onIssue: Verdict): seq<Op> {
    [Revoke(oldUid, onRevoke), Issue(a.(refUid := oldUid), onIssue), Link(a.uid, oldUid)]
  }

  /** `replace_internal` of the record read before, in the current state. */
  function Replaced(w: World, lg: Ledger, h: UidHash, current: Attestation, oldUid: Uid, a: Attestation,
                    onRevoke: Verdict, onIssue: Verdict): Result<World, Error> {
    Attempt(w, lg, h, ReplaceChecks(current, a, lg.timestamp), ReplaceOps(oldUid, a, onRevoke, onIssue))
  }

  /** Once both halves are through, the link between them always holds. */
  lemma ReplaceLinks(w: World, lg: Ledger, h: UidHash, oldUid: Uid, a: Attestation, onRevoke: Verdict, onIssue: Verdict)
    requires oldUid in w.records && ReplaceChecks(w.records[oldUid], a, lg.timestamp).None?
    ensures var revoked := Do(w, lg, h, Revoke(oldUid, onRevoke));
            DoAll(w, lg, h, ReplaceOps(oldUid, a, onRevoke, onIssue)) ==
            if revoked.Err? then revoked
            else match Do(revoked.value, lg, h, Issue(a.(refUid := oldUid), onIssue))
                 case Err(e) => Err(e)
                 case Ok(w') => Ok(w'.(supersedes := w'.supersedes[a.uid := oldUid]))
  {
    var ops := ReplaceOps(oldUid, a, onRevoke, onIssue);
    assert ops == [ops[0]] + [ops[1]] + [ops[2]];
    DoAllOne(w, lg, h, ops[0]);
    DoAllSnoc(w, lg, h, [ops[0]], ops[1]);
    DoAllSnoc(w, lg, h, [ops[0]] + [ops[1]], ops[2]);
    hide DoAll, IssueChecks;
  }

  /** `replace_attestation` */
  function ReplacedBy(w: World, lg: Ledger, h: UidHash, oldUid: Uid, a: Attestation,
                      onRevoke: Verdict, onIssue: Verdict, auth: set<Address>): Result<World, Error> {
    if oldUid !in w.records then Err(AttestationNotFound)
    else if w.records[oldUid].attester !in auth then Err(Unauthorized)
    else Replaced(w, lg, h, w.records[oldUid], oldUid, a, onRevoke, onIssue)
  }

  /** What both parties of a replacement by consent have signed: a nonce each,
      and the error of a key or signature check, if there is one. */
  datatype Consents = Consents(attesterNonce: u64, recipientNonce: u64, refusal: Option<Error>)

  function ConsentOps(a: Attestation, c: Consents): seq<Op> {
    [UseNonce(a.attester, c.attesterNonce), UseConsent(a.recipient, c.recipientNonce)]
  }

  /** `replace_by_delegation_consent` */
  function ReplacedByConsent(w: World, lg: Ledger, h: UidHash, oldUid: Uid, a: Attestation,
                             onRevoke: Verdict, onIssue: Verdict, c: Consents): Result<World, Error> {
    if oldUid !in w.records then Err(AttestationNotFound)
    else
      var current := w.records[oldUid];
      if a.attester != current.attester || a.recipient != current.recipient then Err(Unauthorized)
      else if c.refusal.Some? then Err(c.refusal.value)
      else ChargedAndReplaced(w, lg, h, current, oldUid, a, onRevoke, onIssue, c)
  }

  function ChargedAndReplaced(w: World, lg: Ledger, h: UidHash, current: Attestation, oldUid: Uid, a: Attestation,
                              onRevoke: Verdict, onIssue: Verdict, c: Consents): Result<World, Error> {
    match DoAll(w, lg, h, ConsentOps(a, c))
    case Err(e) => Err(e)
    case Ok(charged) => Replaced(charged, lg, h, current, oldUid, a, onRevoke, onIssue)
  }

  /** A replacement by consent that goes through is its operations in order. */
  lemma ConsentIsDoAll(w: World, lg: Ledger, h: UidHash, oldUid: Uid, a: Attestation,
                       onRevoke: Verdict, onIssue: Verdict, c: Consents)
    ensures var outcome := ReplacedByConsent(w, lg, h, oldUid, a, onRevoke, onIssue, c);
            outcome.Ok? ==> outcome == DoAll(w, lg, h, ConsentOps(a, c) + ReplaceOps(oldUid, a, onRevoke, onIssue))
  {
    hide DoAll, ReplaceOps, ReplaceChecks, ConsentOps;
    DoAllConcat(w, lg, h, ConsentOps(a, c), ReplaceOps(oldUid, a, onRevoke, onIssue));
  }

  // -------------------------------------------------------- delegated issuance

  /** A signed attestation, with the error of the delegation policy and that of
      the key binding or signature check, if there are any. */
  datatype Delegated = Delegated(att: Attestation, nonce: u64, policy: Option<Error>, refusal: Option<Error>,
      verdict: Verdict)

  /** The checks of `attest_by_delegation`, in order. */
  function DelegatedError(w: World, item: Delegated): Option<Error> {
    if item.att.revocationTime != 0 then Some(AlreadyRevoked)
    else if item.policy.Some? then item.policy
    else if Replayed(w, item.att.attester, item.nonce) then Some(DelegationReplay)
    else item.refusal
  }

  /** What a scoped delegation allows: issuing at all, until when, and for which
      schema. */
  datatype Scope = Scope(mayIssue: bool, validUntil: u64, only: Option<Uid>)

  predicate InScope(scope: Scope, now: u64, schema: Uid) {
    && scope.mayIssue && (scope.validUntil == 0 || now <= scope.validUntil)
    && (scope.only.Some? ==> scope.only.value == schema)
  }

  /** The checks of `attest_by_scoped_delegation`, in order; a replay is found only
      when the nonce is used. */
  function ScopedError(item: Delegated, scope: Scope, now: u64): Option<Error> {
    if item.att.revocationTime != 0 then Some(AlreadyRevoked)
    else if item.policy.Some? then item.policy
    else if !InScope(scope, now, item.att.schema) then Some(DelegationScopeDenied)
    else item.refusal
  }

  function DelegatedOp(item: Delegated): seq<Op> {
    [UseNonce(item.att.attester, item.nonce), Issue(item.att, item.verdict)]
  }

  function IssuedOne(w: World, lg: Ledger, h: UidHash, item: Delegated): Result<World, Error> {
    Attempt(w, lg, h, DelegatedError(w, item), DelegatedOp(item))
  }

  /** One after the other, all or nothing. */
  function IssuedEach(w: World, lg: Ledger, h: UidHash, items: seq<Delegated>): Result<World, Error> {
    if items == [] then Ok(w)
    else match IssuedEach(w, lg, h, items[..|items| - 1])
         case Err(e) => Err(e)
         case Ok(w') => IssuedOne(w', lg, h, items[|items| - 1])
  }

  function DelegatedOps(items: seq<Delegated>): seq<Op> {
    if items == [] then [] else DelegatedOps(items[..|items| - 1]) + DelegatedOp(items[|items| - 1])
  }

  lemma IssuedPrefix(w: World, lg: Ledger, h: UidHash, items: seq<Delegated>, i: nat)
    requires i < |items|
    ensures IssuedEach(w, lg, h, items[..i + 1]) ==
            match IssuedEach(w, lg, h, items[..i]) case Err(e) => Err(e) case Ok(w') => IssuedOne(w', lg, h, items[i])
  {
    assert items[..i + 1][..i] == items[..i];
  }

  /** What fails early fails the batch, with the same error. */
  lemma {:induction false} IssuedFails(w: World, lg: Ledger, h: UidHash, items: seq<Delegated>, i: nat)
    requires i <= |items| && IssuedEach(w, lg, h, items[..i]).Err?
    ensures IssuedEach(w, lg, h, items) == IssuedEach(w, lg, h, items[..i])
    decreases |items| - i
  {
    if i < |items| {
      IssuedPrefix(w, lg, h, items, i);
      IssuedFails(w, lg, h, items, i + 1);
    } else {
      assert items[..i] == items;
    }
  }

  lemma {:induction false} IssuedIsDoAll(w: World, lg: Ledger, h: UidHash, items: seq<Delegated>)
    requires IssuedEach(w, lg, h, items).Ok?
    ensures IssuedEach(w, lg, h, items) == DoAll(w, lg, h, DelegatedOps(items))
  {
    if items == [] {
      DoAllNone(w, lg, h);
    } else {
      hide DoAll, DelegatedOp, DelegatedError;
      var init := items[..|items| - 1];
      IssuedIsDoAll(w, lg, h, init);
      DoAllConcat(w, lg, h, DelegatedOps(init), DelegatedOp(items[|items| - 1]));
    }
  }

  function PruneOps(uids: seq<Uid>): (ops: seq<Op>)
    ensures |ops| == |uids| && forall i :: 0 <= i < |uids| ==> ops[i] == Prune(uids[i])
  {
    seq(|uids|, i requires 0 <= i < |uids| => Prune(uids[i]))
  }

  lemma CommitPrefix(w: World, lg: Ledger, h: UidHash, items: seq<Item>, i: nat)
    requires i < |items|
    ensures Commit(w, lg, h, items[..i + 1]) ==
            match Commit(w, lg, h, items[..i]) case Err(e) => Err(e) case Ok(w') => CommitOne(w', lg, h, items[i])
  {
    assert items[..i + 1][..i] == items[..i];
  }

  lemma {:induction false} CommitFails(w: World, lg: Ledger, h: UidHash, items: seq<Item>, i: nat)
    requires i <= |items| && Commit(w, lg, h, items[..i]).Err?
    ensures Commit(w, lg, h, items) == Commit(w, lg, h, items[..i])
    decreases |items| - i
  {
    if i < |items| {
      CommitPrefix(w, lg, h, items, i);
      CommitFails(w, lg, h, items, i + 1);
    } else {
      assert items[..i] == items;
    }
  }

  /** The attester has authorised the call. */
  function By(auth: set<Address>): Attestation -> bool {
    (a: Attestation) => a.attester in auth
  }

  /** A batch of revocations: the cap, the first pass, the second pass. */
  function BatchRevoked(w: World, lg: Ledger, h: UidHash, items: seq<Item>, allowed: Attestation -> bool)
    : Result<World, Error>
  {
    if |items| > MAX_MULTI_REVOKE then Err(BatchTooLarge)
    else match BatchProblem(w, items, allowed)
         case Some(e) => Err(e)
         case None => Commit(w, lg, h, items)
  }

  /** It succeeds exactly when, within the cap, revoking one by one does, with
      the same state, and then commits the operations of the batch. */
  lemma BatchRevokedExact(w: World, lg: Ledger, h: UidHash, items: seq<Item>, allowed: Attestation -> bool)
    ensures var each := RevokeEach(w, lg, h, items, allowed);
            && (BatchRevoked(w, lg, h, items, allowed).Ok? <==> |items| <= MAX_MULTI_REVOKE && each.Ok?)
            && (BatchRevoked(w, lg, h, items, allowed).Ok? ==>
                  BatchRevoked(w, lg, h, items, allowed) == each == DoAll(w, lg, h, BatchOps(w, items)))
  {
    ProblemExact(w, items, allowed);
    BatchExact(w, lg, h, items, allowed);
    hide RevokeEach, BatchProblem, Commit, BatchOps, DoAll, AuthError;
    if Passes(w, items, allowed) {
      CommitIsDoAll(w, lg, h, items);
    }
  }

  /** The first pass stops at the first problem. */
  lemma {:induction false} ProblemPrefix(w: World, items: seq<Item>, i: nat)
    requires i < |items| && FirstProblem(w, items[..i]).None?
    ensures FirstProblem(w, items[..i + 1]) == ItemProblem(w, items[..i], items[i])
    ensures ItemProblem(w, items[..i], items[i]).Some? ==>
            FirstProblem(w, items) == ItemProblem(w, items[..i], items[i])
    decreases |items|
  {
    hide ItemProblem;
    assert items[..i + 1][..i] == items[..i];
    if i + 1 < |items| {
      var init := items[..|items| - 1];
      assert init[..i] == items[..i];
      ProblemPrefix(w, init, i);
    } else {
      assert items[..i + 1] == items;
    }
  }

  lemma NamesNone(items: seq<Item>)
    ensures forall u :: !Names(items[..0], u)
  {}

  lemma Revokes(w: World, lg: Ledger, h: UidHash, uid: Uid, v: Verdict)
    ensures Do(w, lg, h, Revoke(uid, v)) ==
            if RevokeError(w, uid, v).Some? then Err(RevokeError(w, uid, v).value) else Ok(Revoked(w, lg, uid))
  {}

  lemma Renews(w: World, lg: Ledger, h: UidHash, uid: Uid, expiration: u64, maxTtl: u64)
    ensures Do(w, lg, h, Renew(uid, expiration, maxTtl)) ==
            match RenewError(w, lg.timestamp, uid, expiration, maxTtl)
            case Some(e) => Err(e)
            case None => Ok(w.(records := w.records[uid := w.records[uid].(expiration := expiration)]))
  {}

  lemma UsesNonce(w: World, lg: Ledger, h: UidHash, a: Address, n: u64)
    ensures Do(w, lg, h, UseNonce(a, n)) ==
            if Replayed(w, a, n) then Err(DelegationReplay) else Ok(w.(nonces := w.nonces[a := n]))
  {}

  lemma UsesBoth(w: World, lg: Ledger, h: UidHash, a: Attestation, c: Consents)
    ensures DoAll(w, lg, h, ConsentOps(a, c)) ==
            if Replayed(w, a.attester, c.attesterNonce) then Err(DelegationReplay)
            else if a.recipient in w.consents && c.recipientNonce <= w.consents[a.recipient] then Err(DelegationReplay)
            else Ok(w.(nonces := w.nonces[a.attester := c.attesterNonce],
                       consents := w.consents[a.recipient := c.recipientNonce]))
  {
    DoAllTwo(w, lg, h, ConsentOps(a, c)[0], ConsentOps(a, c)[1]);
    hide DoAll;
  }

  function RenewRefusal(w: World, uid: Uid, auth: set<Address>): Option<Error> {
    if uid !in w.records then Some(AttestationNotFound)
    else if w.records[uid].attester !in auth then Some(Unauthorized)
    else None
  }

  lemma Observes(w: World, lg: Ledger, h: UidHash)
    ensures Do(w, lg, h, Observe) == Ok(w)
  {}

  /** A range that is invalidated after a use reaches beyond the nonce used. */
  lemma RangeReaches(w: World, lg: Ledger, h: UidHash, a: Address, n: u64, max: u64)
    requires !Replayed(w, a, n)
    ensures Do(w.(nonces := w.nonces[a := n]), lg, h, Invalidate(a, max)).Ok? ==> n < max
  {}

  // ----------------------------------------------- what is refused, and what is done

  /** What a replacement asks of the record and of its successor. */
  lemma ReplaceReports(current: Attestation, a: Attestation, now: u64)
    ensures ReplaceChecks(current, a, now) ==
      Or(When(!current.revocable, NotRevocable),
      Or(When(current.revocationTime > 0, AlreadyRevoked),
      Or(When(0 < current.expiration <= now, InvalidTtl),
      Or(When(a.attester != current.attester || a.recipient != current.recipient, Unauthorized),
         When(0 < a.expiration < current.expiration, InvalidTtl)))))
  {}

  lemma DelegatedReports(w: World, item: Delegated)
    ensures DelegatedError(w, item) ==
      Or(When(item.att.revocationTime > 0, AlreadyRevoked),
      Or(item.policy,
      Or(When(item.att.attester in w.nonces && item.nonce <= w.nonces[item.att.attester], DelegationReplay),
         item.refusal)))
  {}

  lemma ScopedReports(item: Delegated, scope: Scope, now: u64)
    ensures ScopedError(item, scope, now) ==
      Or(When(item.att.revocationTime > 0, AlreadyRevoked),
      Or(item.policy,
      Or(When(!scope.mayIssue || 0 < scope.validUntil < now || scope.only !in {None, Some(item.att.schema)},
           DelegationScopeDenied),
         item.refusal)))
  {}

  lemma ItemReports(w: World, before: seq<Item>, item: Item)
    ensures ItemProblem(w, before, item) ==
      Or(When(exists i :: 0 <= i < |before| && before[i].uid == item.uid, DuplicateAttestation),
      if item.uid !in w.records then Some(AttestationNotFound)
      else
        var a := w.records[item.uid];
        Or(When(!a.revocable, NotRevocable),
        Or(When(a.revocationTime > 0, AlreadyRevoked),
           if item.signed.None? then None
           else Or(When(a.attester in w.nonces && item.signed.value.nonce <= w.nonces[a.attester], DelegationReplay),
                   item.signed.value.refusal))))
  {}

  /** Nonce and record of a delegated issuance come together. */
  lemma DelegatedWrites(w: World, lg: Ledger, h: UidHash, item: Delegated)
    requires DoAll(w, lg, h, DelegatedOp(item)).Ok?
    ensures var a, w' := item.att, DoAll(w, lg, h, DelegatedOp(item)).value;
            && (a.attester in w.nonces ==> w.nonces[a.attester] < item.nonce)
            && w'.nonces == w.nonces[a.attester := item.nonce] && a.uid !in w.records
            && w'.records == w.records[a.uid := a.(time := lg.timestamp)]
  {
    var use, issue := UseNonce(item.att.attester, item.nonce), Issue(item.att, item.verdict);
    DoAllTwo(w, lg, h, use, issue);
    UsesNonce(w, lg, h, item.att.attester, item.nonce);
    var charged := Do(w, lg, h, use).value;
    Writes(charged, lg, h, issue);
    IssueReports(charged, lg, h, item.att, item.verdict);
    KeepsNonces(charged, lg, h, issue);
    hide DoAll, Do;
  }

  lemma KeepsNonces(w: World, lg: Ledger, h: UidHash, op: Op)
    requires Do(w, lg, h, op).Ok? && (op.Issue? || op.Revoke? || op.Renew? || op.Prune? || op.Link?)
    ensures Do(w, lg, h, op).value.nonces == w.nonces && Do(w, lg, h, op).value.consents == w.consents
  {}

  /** One delegated issuance in a batch. */
  lemma IssuedOneWrites(w: World, lg: Ledger, h: UidHash, item: Delegated)
    requires IssuedOne(w, lg, h, item).Ok?
    ensures item.policy.None? && item.refusal.None? && item.att.revocationTime == 0 && item.att.uid !in w.records
    ensures IssuedOne(w, lg, h, item).value.records == w.records[item.att.uid := item.att.(time := lg.timestamp)]
  {
    DelegatedReports(w, item);
    DelegatedWrites(w, lg, h, item);
    hide DoAll, DelegatedError, DelegatedOp;
  }

  /** A batch of delegated issuances that goes through leaves stored records alone
      and adds only its own. */
  lemma {:induction false} IssuedKeeps(w: World, lg: Ledger, h: UidHash, items: seq<Delegated>, u: Uid)
    requires IssuedEach(w, lg, h, items).Ok?
    ensures u in w.records ==> Get(IssuedEach(w, lg, h, items).value.records, u) == Some(w.records[u])
    ensures u in IssuedEach(w, lg, h, items).value.records && u !in w.records ==>
              exists i :: 0 <= i < |items| && items[i].att.uid == u
  {
    if items != [] {
      var init, last := items[..|items| - 1], items[|items| - 1];
      IssuedKeeps(w, lg, h, init, u);
      IssuedOneWrites(IssuedEach(w, lg, h, init).value, lg, h, last);
      hide IssuedOne;
      if i :| 0 <= i < |init| && init[i].att.uid == u { assert items[i].att.uid == u; }
      assert items[|items| - 1] == last;
    }
  }

  /** It stores each of them, and none was there before. */
  lemma {:induction false} IssuedStores(w: World, lg: Ledger, h: UidHash, items: seq<Delegated>, i: nat)
    requires IssuedEach(w, lg, h, items).Ok? && i < |items|
    ensures items[i].policy.None? && items[i].refusal.None? && items[i].att.revocationTime == 0
    ensures items[i].att.uid !in w.records
    ensures Get(IssuedEach(w, lg, h, items).value.records, items[i].att.uid) ==
            Some(items[i].att.(time := lg.timestamp))
  {
    var init, last := items[..|items| - 1], items[|items| - 1];
    IssuedOneWrites(IssuedEach(w, lg, h, init).value, lg, h, last);
    if i < |init| {
      IssuedStores(w, lg, h, init, i);
    } else {
      IssuedKeeps(w, lg, h, init, last.att.uid);
    }
    hide IssuedOne;
  }

  /** A replacement that goes through was asked for the same two parties; it revokes
      the old record and stores the new one, which refers to it. */
  lemma ReplaceWrites(w: World, lg: Ledger, h: UidHash, oldUid: Uid, a: Attestation, onRevoke: Verdict,
                      onIssue: Verdict)
    requires oldUid in w.records && Replaced(w, lg, h, w.records[oldUid], oldUid, a, onRevoke, onIssue).Ok?
    ensures var current, w' := w.records[oldUid],
                Replaced(w, lg, h, w.records[oldUid], oldUid, a, onRevoke, onIssue).value;
            && current.revocable && current.revocationTime == 0 && a.uid !in w.records
            && (current.expiration == 0 || lg.timestamp < current.expiration)
            && a.attester == current.attester && a.recipient == current.recipient
            && (a.expiration == 0 || current.expiration <= a.expiration)
            && w'.records == w.records[oldUid := current.(revocationTime := lg.timestamp)]
                                      [a.uid := a.(refUid := oldUid, time := lg.timestamp)]
            && w'.nonces == w.nonces && w'.consents == w.consents && w'.supersedes == w.supersedes[a.uid := oldUid]
  {
    var revoke, issue := Revoke(oldUid, onRevoke), Issue(a.(refUid := oldUid), onIssue);
    ReplaceReports(w.records[oldUid], a, lg.timestamp);
    ReplaceLinks(w, lg, h, oldUid, a, onRevoke, onIssue);
    Writes(w, lg, h, revoke);
    KeepsNonces(w, lg, h, revoke);
    KeepsLinks(w, lg, h, revoke);
    var revoked := Do(w, lg, h, revoke).value;
    Writes(revoked, lg, h, issue);
    KeepsNonces(revoked, lg, h, issue);
    KeepsLinks(revoked, lg, h, issue);
    IssueReports(revoked, lg, h, a.(refUid := oldUid), onIssue);
    hide DoAll, Do, ReplaceChecks;
  }

  lemma ReplacedIsDoAll(w: World, lg: Ledger, h: UidHash, current: Attestation, oldUid: Uid, a: Attestation,
                        onRevoke: Verdict, onIssue: Verdict)
    ensures var outcome := Replaced(w, lg, h, current, oldUid, a, onRevoke, onIssue);
            outcome.Ok? ==> outcome == DoAll(w, lg, h, ReplaceOps(oldUid, a, onRevoke, onIssue))
  {
    hide DoAll, ReplaceChecks, ReplaceOps;
  }

  /** With consent, both nonces are used as well. */
  lemma ConsentWrites(w: World, lg: Ledger, h: UidHash, oldUid: Uid, a: Attestation, onRevoke: Verdict,
                      onIssue: Verdict, c: Consents)
    requires ReplacedByConsent(w, lg, h, oldUid, a, onRevoke, onIssue, c).Ok?
    ensures var w' := ReplacedByConsent(w, lg, h, oldUid, a, onRevoke, onIssue, c).value;
            && c.refusal.None? && oldUid in w.records && a.uid !in w.records
            && (a.attester in w.nonces ==> w.nonces[a.attester] < c.attesterNonce)
            && (a.recipient in w.consents ==> w.consents[a.recipient] < c.recipientNonce)
            && w'.nonces == w.nonces[a.attester := c.attesterNonce]
            && w'.consents == w.consents[a.recipient := c.recipientNonce]
            && var current := w.records[oldUid];
               && a.attester == current.attester && a.recipient == current.recipient
               && w'.records == w.records[oldUid := current.(revocationTime := lg.timestamp)]
                                         [a.uid := a.(refUid := oldUid, time := lg.timestamp)]
  {
    UsesBoth(w, lg, h, a, c);
    ReplaceWrites(DoAll(w, lg, h, ConsentOps(a, c)).value, lg, h, oldUid, a, onRevoke, onIssue);
    hide DoAll, Replaced, ConsentOps;
  }

  lemma KeepsLinks(w: World, lg: Ledger, h: UidHash, op: Op)
    requires Do(w, lg, h, op).Ok? && (op.Issue? || op.Revoke?)
    ensures Do(w, lg, h, op).value.supersedes == w.supersedes
  {}

  /** An unsigned revocation is the authorisation and the operation. */
  lemma RevokesUnsigned(w: World, lg: Ledger, h: UidHash, uid: Uid, v: Verdict, allowed: Attestation -> bool)
    ensures RevokeOne(w, lg, h, Item(uid, v, None), allowed) ==
            if uid !in w.records then Err(AttestationNotFound)
            else if !allowed(w.records[uid]) then Err(Unauthorized)
            else Do(w, lg, h, Revoke(uid, v))
  {
    hide Do;
  }

  /** One committed revocation. */
  lemma CommitOneWrites(w: World, lg: Ledger, h: UidHash, item: Item)
    requires CommitOne(w, lg, h, item).Ok?
    ensures item.uid in w.records
    ensures var a, w' := w.records[item.uid], CommitOne(w, lg, h, item).value;
            && a.revocable && a.revocationTime == 0
            && w'.records == w.records[item.uid := a.(revocationTime := lg.timestamp)]
            && (item.signed.None? ==> w'.nonces == w.nonces)
            && (item.signed.Some? ==>
                  && w'.nonces == w.nonces[a.attester := item.signed.value.nonce]
                  && (a.attester in w.nonces ==> w.nonces[a.attester] < item.signed.value.nonce))
  {}

  ghost predicate RevokedIn(w: World, w': World, lg: Ledger, items: seq<Item>) {
    && w'.records.Keys == w.records.Keys
    && forall u :: u in w.records ==>
         w'.records[u] == if Names(items, u) then w.records[u].(revocationTime := lg.timestamp) else w.records[u]
  }

  /** The second pass revokes exactly the records of the batch, now. */
  lemma {:induction false} CommitWrites(w: World, lg: Ledger, h: UidHash, items: seq<Item>)
    requires Commit(w, lg, h, items).Ok?
    ensures RevokedIn(w, Commit(w, lg, h, items).value, lg, items)
  {
    if items != [] {
      var init, last := items[..|items| - 1], items[|items| - 1];
      hide CommitOne, Names;
      CommitWrites(w, lg, h, init);
      CommitOneWrites(Commit(w, lg, h, init).value, lg, h, last);
      forall u ensures Names(items, u) <==> Names(init, u) || last.uid == u { NamesSnoc(items, u); }
    }
  }

  /** A batch that goes through revokes exactly its records, now. */
  lemma BatchWrites(w: World, lg: Ledger, h: UidHash, items: seq<Item>, allowed: Attestation -> bool)
    requires BatchRevoked(w, lg, h, items, allowed).Ok?
    ensures var w' := BatchRevoked(w, lg, h, items, allowed).value;
            && (forall u :: u in w'.records <==> u in w.records)
            && forall u :: u in w.records ==>
                 w'.records[u] == (
                   if exists i :: 0 <= i < |items| && items[i].uid == u
                   then w.records[u].(revocationTime := lg.timestamp) else w.records[u])
  {
    hide BatchProblem, Commit;
    CommitWrites(w, lg, h, items);
    var w' := BatchRevoked(w, lg, h, items, allowed).value;
    assert forall u :: u in w'.records.Keys <==> u in w.records.Keys;
    forall u ensures Names(items, u) <==> exists i :: 0 <= i < |items| && items[i].uid == u {}
  }

  /** A signed batch that goes through had valid signatures, and nonces above the
      watermarks it started from. */
  lemma SignedBatch(w: World, lg: Ledger, h: UidHash, items: seq<Item>, allowed: Attestation -> bool)
    requires BatchRevoked(w, lg, h, items, allowed).Ok? && forall i :: 0 <= i < |items| ==> items[i].signed.Some?
    ensures var w' := BatchRevoked(w, lg, h, items, allowed).value;
            forall i :: 0 <= i < |items| ==>
              && items[i].uid in w.records && items[i].signed.value.refusal.None?
              && var attester := w.records[items[i].uid].attester;
                 && (attester in w.nonces ==> w.nonces[attester] < items[i].signed.value.nonce)
                 && attester in w'.nonces && items[i].signed.value.nonce <= w'.nonces[attester]
  {
    ProblemExact(w, items, allowed);
    hide BatchProblem, Commit;
    forall i | 0 <= i < |items|
      ensures items[i].uid in w.records && items[i].signed.value.refusal.None?
      ensures var attester, w' := w.records[items[i].uid].attester, BatchRevoked(w, lg, h, items, allowed).value;
              && (attester in w.nonces ==> w.nonces[attester] < items[i].signed.value.nonce)
              && attester in w'.nonces && items[i].signed.value.nonce <= w'.nonces[attester]
    {
      assert ItemPasses(w, items[i], allowed);
      BatchNonces(w, lg, h, items, i, w.records[items[i].uid].attester);
    }
  }

  /** The second pass never reports a missing authorisation. */
  lemma {:induction false} CommitFaults(w: World, lg: Ledger, h: UidHash, items: seq<Item>)
    ensures Commit(w, lg, h, items) != Err(Unauthorized)
  {
    if items != [] {
      CommitFaults(w, lg, h, items[..|items| - 1]);
      if Commit(w, lg, h, items[..|items| - 1]).Ok? {
        CommitOneFaults(Commit(w, lg, h, items[..|items| - 1]).value, lg, h, items[|items| - 1]);
      }
      hide CommitOne;
    }
  }

  lemma CommitOneFaults(w: World, lg: Ledger, h: UidHash, item: Item)
    ensures CommitOne(w, lg, h, item) != Err(Unauthorized)
  {}

  /** An unsigned batch is refused for want of authorisation exactly when its first
      pass has no fault to find and some record's attester has not authorised; when
      it goes through, all have. */
  lemma BatchAsksAttesters(w: World, lg: Ledger, h: UidHash, items: seq<Item>, auth: set<Address>)
    requires forall i :: 0 <= i < |items| ==> items[i].signed.None?
    ensures var r := BatchRevoked(w, lg, h, items, By(auth));
            && (r.Ok? ==> forall i :: 0 <= i < |items| ==>
                  items[i].uid in w.records && w.records[items[i].uid].attester in auth)
            && (|items| <= 100 && FirstProblem(w, items).None? ==>
                  (r == Err(Unauthorized) <==>
                   exists i :: 0 <= i < |items| && items[i].uid in w.records
                               && w.records[items[i].uid].attester !in auth))
  {
    ProblemExact(w, items, By(auth));
    CommitFaults(w, lg, h, items);
    hide FirstProblem, Commit;
  }

  /** When the first pass of an unsigned batch has nothing to report. */
  lemma {:induction false} NothingToReport(w: World, items: seq<Item>)
    requires forall i :: 0 <= i < |items| ==> items[i].signed.None?
    ensures FirstProblem(w, items).None? <==>
            && (forall i, j :: 0 <= i < j < |items| ==> items[i].uid != items[j].uid)
            && (forall i :: 0 <= i < |items| ==>
                  && items[i].uid in w.records && w.records[items[i].uid].revocable
                  && w.records[items[i].uid].revocationTime == 0)
  {
    ProblemExact(w, items, _ => true);
  }

  /** What the nonces of a signed batch are: each above the watermark the batch
      started from, and those of one attester increasing. */
  lemma {:induction false} BatchNonces(w: World, lg: Ledger, h: UidHash, items: seq<Item>, i: nat, attester: Address)
    requires Commit(w, lg, h, items).Ok? && i < |items| && items[i].signed.Some?
    requires items[i].uid in w.records && w.records[items[i].uid].attester == attester
    ensures attester in w.nonces ==> w.nonces[attester] < items[i].signed.value.nonce
    ensures attester in Commit(w, lg, h, items).value.nonces
    ensures items[i].signed.value.nonce <= Commit(w, lg, h, items).value.nonces[attester]
  {
    hide CommitOne, Names;
    var init, last := items[..|items| - 1], items[|items| - 1];
    var mid := Commit(w, lg, h, init).value;
    CommitTouches(w, lg, h, init, items[i].uid, attester);
    if i < |init| {
      BatchNonces(w, lg, h, init, i, attester);
      CommitOneTouches(mid, lg, h, last, items[i].uid, attester);
    } else {
      CommitOneWrites(mid, lg, h, last);
    }
  }

  lemma {:induction false} BatchNoncesIncrease(w: World, lg: Ledger, h: UidHash, items: seq<Item>, i: nat, j: nat)
    requires Commit(w, lg, h, items).Ok? && i < j < |items| && items[i].signed.Some? && items[j].signed.Some?
    requires items[i].uid in w.records && items[j].uid in w.records
    requires w.records[items[i].uid].attester == w.records[items[j].uid].attester
    ensures items[i].signed.value.nonce < items[j].signed.value.nonce
  {
    hide CommitOne, Names;
    var init, last := items[..|items| - 1], items[|items| - 1];
    if j < |init| {
      BatchNoncesIncrease(w, lg, h, init, i, j);
    } else {
      BatchNonces(w, lg, h, init, i, w.records[items[i].uid].attester);
      CommitTouches(w, lg, h, init, last.uid, ZERO_ACCOUNT);
      CommitOneWrites(Commit(w, lg, h, init).value, lg, h, last);
    }
  }

  /** Pruning removes exactly the named records that have expired. */
  lemma {:induction false} PruneWrites(w: World, lg: Ledger, h: UidHash, uids: seq<Uid>, u: Uid)
    requires DoAll(w, lg, h, PruneOps(uids)).Ok?
    ensures Get(DoAll(w, lg, h, PruneOps(uids)).value.records, u) ==
            if u in w.records && u in uids && 0 < w.records[u].expiration <= lg.timestamp then None
            else Get(w.records, u)
  {
    if uids == [] {
      DoAllNone(w, lg, h);
      assert PruneOps(uids) == [];
    } else {
      var init, last := uids[..|uids| - 1], uids[|uids| - 1];
      assert PruneOps(uids) == PruneOps(init) + [Prune(last)];
      DoAllSnoc(w, lg, h, PruneOps(init), Prune(last));
      PruneWrites(w, lg, h, init, u);
      Writes(DoAll(w, lg, h, PruneOps(init)).value, lg, h, Prune(last));
      hide DoAll, Do, PruneOps;
      assert u in uids <==> u in init || u == last;
    }
  }
}
