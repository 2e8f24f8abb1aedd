/**
 The contract itself: storage in its two layouts, and entry points that write
 step by step and are rolled back by the host when they panic. Each commits
 the operations of the abstract machine it is made of, or nothing; the class
 invariant says that the storage is the last state of the run of all of them.
 */
module SasContract {
  import opened Base
  import opened Sas
  import opened SasBatch
  import opened SasCalls
  import opened SasRules
  import opened SasRuns
  import opened SasStore

  /** Everything the host restores when a call panics. */
  datatype Snapshot = Snapshot(store: Storage, anchors: map<AnchorKey, Anchor>,
                               nonces: map<Address, u64>, consents: map<Address, u64>)

  /** The storage together with the recorded history. */
  datatype Image = Image(saved: Snapshot, supersedes: map<Uid, Uid>, trace: seq<Event>, states: seq<World>)

  lemma StartsRun(h: UidHash, w: World)
    ensures Reaches(h, [], [w], w)
  {}

  class Contract {
    const h: UidHash
    var compactRows: map<Uid, Compact>
    var rows: map<Uid, Row>
    var validFrom: map<Uid, u64>
    var anchors: map<AnchorKey, Anchor>
    var nonces: map<Address, u64>
    var consents: map<Address, u64>
    ghost var supersedes: map<Uid, Uid>
    /** All committed operations, and the states around them. */
    ghost var trace: seq<Event>
    ghost var states: seq<World>

    function Store(): Storage
      reads this
    {
      Storage(compactRows, rows, validFrom)
    }

    ghost function View(): World
      reads this
    {
      World(Abs(Store()), anchors, nonces, consents, supersedes)
    }

    function Saved(): Snapshot
      reads this
    {
      Snapshot(Store(), anchors, nonces, consents)
    }

    ghost function Now(): Image
      reads this
    {
      Image(Saved(), supersedes, trace, states)
    }

    /** Every row is filed under its own UID, and what the storage reads as is
        the last state of the recorded run. */
    ghost predicate Valid()
      reads this
    {
      WellFiled(Store()) && Reaches(h, trace, states, View())
    }

    /** The host never goes back in time. */
    ghost predicate Open(lg: Ledger)
      reads this
    {
      NotAfter(LedgerAt(trace, |trace|), lg)
    }

    /** How a call ends: with the outcome it should have, its operations added to
        the run, or with its error and nothing changed. */
    ghost predicate Settled(before: Image, lg: Ledger, outcome: Result<World, Error>, ops: seq<Op>, e: Option<Error>)
      reads this
    {
      match outcome
      case Ok(w) => e == None && View() == w && trace == before.trace + Events(lg, ops) && before.states <= states
      case Err(x) => e == Some(x) && Now() == before
    }

    /** A deployment may start with rows written by an earlier version; a new one
        starts a run from the empty contract. */
    constructor (h: UidHash, store: Storage)
      requires WellFiled(store)
      ensures Valid() && this.h == h && Store() == store && trace == [] && states == [View()]
      ensures View() == GENESIS.(records := Abs(store))
      ensures store == Storage(map[], map[], map[]) ==> View() == GENESIS
    {
      this.h := h;
      compactRows, rows, validFrom := store.compactRows, store.rows, store.validFrom;
      anchors, nonces, consents, supersedes := map[], map[], map[], map[];
      trace, states := [], [GENESIS.(records := Abs(store))];
    }

    method Rollback(s: Snapshot)
      modifies this`compactRows, this`rows, this`validFrom, this`anchors, this`nonces, this`consents
      ensures Saved() == s
    {
      compactRows, rows, validFrom := s.store.compactRows, s.store.rows, s.store.validFrom;
      anchors, nonces, consents := s.anchors, s.nonces, s.consents;
    }

    /** Adds the operations of a call to the run. */
    ghost method Record(w: World, lg: Ledger, ops: seq<Op>)
      requires Reaches(h, trace, states, w) && Open(lg) && DoAll(w, lg, h, ops) == Ok(View())
      modifies this`trace, this`states
      ensures Reaches(h, trace, states, View()) && trace == old(trace) + Events(lg, ops) && old(states) <= states
    {
      var more := CallExtendsRun(h, trace, states, w, lg, ops, View());
      trace, states := trace + Events(lg, ops), states + more;
    }

    // -------------------------------------------------------- storage helpers

    method ReadAttestation(uid: Uid) returns (a: Option<Attestation>)
      ensures a == Get(View().records, uid) == ReadRecord(Store(), uid)
    {
      AbsReads(Store(), uid);
      hide Unpack, Abs;
      var found: Option<Attestation> := None;
      if uid in compactRows {
        found := Some(Unpack(compactRows[uid], uid));
      } else if uid in rows {
        match rows[uid]
        case CompactRow(c) => found := Some(Unpack(c, uid));
        case LegacyRow(full) => found := Some(full);
      }
      if found.Some? && uid in validFrom {
        found := Some(found.value.(validFrom := validFrom[uid]));
      }
      a := found;
    }

    method WriteAttestation(a: Attestation)
      requires WellFiled(Store())
      modifies this`compactRows, this`rows, this`validFrom
      ensures WellFiled(Store()) && View() == old(View()).(records := old(View()).records[a.uid := a])
    {
      WriteIsUpdate(Store(), a);
      hide Pack, Abs;
      if a.uid in compactRows {
        compactRows := compactRows[a.uid := Pack(a)];
      } else {
        rows := rows[a.uid := CompactRow(Pack(a))];
      }
      if a.validFrom != 0 {
        validFrom := validFrom[a.uid := a.validFrom];
      } else if a.uid in validFrom {
        validFrom := validFrom - {a.uid};
      }
      assert Store() == WriteRecord(old(Store()), a);
    }

    /** `write_anchor`: anchors are never replaced. */
    method WriteAnchor(uid: Uid, revocation: bool, lg: Ledger) returns (ok: bool)
      modifies this`anchors
      ensures ok <==> AnchorKey(uid, revocation) !in old(anchors)
      ensures anchors == if ok then old(anchors)[AnchorKey(uid, revocation) := lg] else old(anchors)
    {
      if AnchorKey(uid, revocation) in anchors { return false; }
      anchors := anchors[AnchorKey(uid, revocation) := lg];
      ok := true;
    }

    method RemoveAttestation(uid: Uid)
      requires WellFiled(Store())
      modifies this`compactRows, this`rows, this`validFrom, this`anchors, this`supersedes
      ensures WellFiled(Store()) && View() == Pruned(old(View()), uid)
    {
      RemoveIsDelete(Store(), uid);
      hide Abs;
      compactRows, rows, validFrom := compactRows - {uid}, rows - {uid}, validFrom - {uid};
      anchors := anchors - {AnchorKey(uid, false), AnchorKey(uid, true)};
      supersedes := supersedes - {uid};
      assert Store() == RemoveRecord(old(Store()), uid);
    }

    /** `migrate_attestation`: the view stays, and the run goes on, exactly under
        the stated condition; otherwise the changed view starts a new run. */
    method MigrateAttestation(uid: Uid) returns (migrated: bool)
      requires Valid()
      modifies this`rows, this`validFrom, this`trace, this`states
      ensures Valid() && Store() == MigrateRecord(old(Store()), uid)
      ensures migrated <==> uid in old(rows) && old(rows)[uid].LegacyRow?
      ensures var at := LegacyTime(old(Store()), uid);
              View() == old(View()) <==>
              at == 0 || Get(old(validFrom), uid) == Some(at) || (uid !in old(validFrom) && uid !in compactRows)
      ensures if View() == old(View()) then trace == old(trace) && states == old(states)
              else trace == [] && states == [View()]
    {
      MigrateKeepsMap(Store(), uid);
      hide Abs, MigrateRecord, LegacyTime, Reaches, WellFiled;
      migrated := Repack(uid);
      if View() != old(View()) {
        trace, states := [], [View()];
        StartsRun(h, View());
      }
    }

    method Repack(uid: Uid) returns (migrated: bool)
      modifies this`rows, this`validFrom
      ensures Store() == MigrateRecord(old(Store()), uid)
      ensures migrated <==> uid in old(rows) && old(rows)[uid].LegacyRow?
    {
      if uid !in rows || !rows[uid].LegacyRow? { return false; }
      var legacy := rows[uid].full;
      rows := rows[uid := CompactRow(Pack(legacy))];
      if legacy.validFrom != 0 { validFrom := validFrom[uid := legacy.validFrom]; }
      migrated := true;
    }

    // --------------------------------------------------- issuing and revoking

    /** The checks of `attest_internal`, which only read. */
    method CheckIssue(now: u64, a: Attestation, v: Verdict) returns (e: Option<Error>)
      ensures e == IssueChecks(View(), now, h, a, v)
    {
      AbsReads(Store(), a.uid);
      AbsReads(Store(), a.refUid);
      hide Abs, HasRecord, ExceedsTtl, PolicyError;
      if |a.data| > MAX_ATTESTATION_DATA_BYTES { return Some(PayloadTooLarge); }
      if HasRecord(Store(), a.uid) { return Some(DuplicateAttestation); }
      if a.uid != h(ContentOf(a)) { return Some(InvalidUid); }
      if Expired(a.expiration, now) { return Some(AlreadyExpired); }
      if a.expiration > 0 && a.validFrom >= a.expiration { return Some(InvalidTimeRange); }
      if a.recipient in {ZERO_ACCOUNT, ZERO_CONTRACT} || a.attester in {ZERO_ACCOUNT, ZERO_CONTRACT}
         || a.recipient == a.attester {
        return Some(InvalidRecipient);
      }
      if a.refUid == a.uid { return Some(InvalidRefUid); }
      if a.refUid != ZERO_UID && !HasRecord(Store(), a.refUid) { return Some(InvalidRefUid); }
      if !v.schemaExists { return Some(InvalidSchema); }
      if v.quarantined { return Some(SchemaQuarantined); }
      if ExceedsTtl(a.expiration, v.maxTtl, now) { return Some(InvalidExpirationTime); }
      if v.standing == Unlisted { return Some(UnauthorizedAttester); }
      if v.standing == Stranger { return Some(Unauthorized); }
      if !v.underQuota { return Some(RateLimitExceeded); }
      e := PolicyError(v.policy, a.revocable);
      if e.Some? { return; }
      if !v.resolverAccepts { return Some(ResolverRejected); }
    }

    /** `attest_internal` */
    method AttestInternal(lg: Ledger, a: Attestation, v: Verdict) returns (r: Result<Uid, Error>)
      requires WellFiled(Store())
      modifies this`compactRows, this`rows, this`validFrom, this`anchors, this`nonces, this`consents
      ensures WellFiled(Store())
      ensures match Do(old(View()), lg, h, Issue(a, v)) {
                case Ok(w) => r == Ok(a.uid) && View() == w
                case Err(e) => r == Err(e) && Saved() == old(Saved())
              }
    {
      hide Abs, IssueChecks;
      var e := CheckIssue(lg.timestamp, a, v);
      if e.Some? { return Err(e.value); }
      var saved := Saved();
      WriteAttestation(a.(time := lg.timestamp));
      var anchored := WriteAnchor(a.uid, false, lg);
      if !anchored {
        Rollback(saved);
        return Err(InvalidTimestamp);
      }
      r := Ok(a.uid);
    }

    /** `revoke_internal`: the record and its anchor are written first, and taken
        back if the resolver objects. */
    method RevokeInternal(lg: Ledger, uid: Uid, v: Verdict) returns (r: Result<(), Error>)
      requires WellFiled(Store())
      modifies this`compactRows, this`rows, this`validFrom, this`anchors, this`nonces, this`consents
      ensures WellFiled(Store())
      ensures match Do(old(View()), lg, h, Revoke(uid, v)) {
                case Ok(w) => r == Ok(()) && View() == w
                case Err(e) => r == Err(e) && Saved() == old(Saved())
              }
    {
      WellFiledReads(Store(), uid);
      Revokes(View(), lg, h, uid, v);
      hide Abs, WellFiled, ReadRecord, Do;
      var found := ReadAttestation(uid);
      if found.None? { return Err(AttestationNotFound); }
      var a := found.value;
      if !a.revocable { return Err(NotRevocable); }
      if a.revocationTime != 0 { return Err(AlreadyRevoked); }
      var saved := Saved();
      WriteAttestation(a.(revocationTime := lg.timestamp));
      var anchored := WriteAnchor(uid, true, lg);
      var problem := if !anchored then Some(InvalidTimestamp) else if !v.schemaExists then Some(InvalidSchema)
                     else if !v.resolverAccepts then Some(ResolverRejected) else None;
      if problem.Some? {
        Rollback(saved);
        return Err(problem.value);
      }
      r := Ok(());
    }

    /** `consume_delegation_nonce` */
    method ConsumeNonce(attester: Address, nonce: u64) returns (ok: bool)
      modifies this`nonces
      ensures ok <==> !Replayed(old(View()), attester, nonce)
      ensures nonces == if ok then old(nonces)[attester := nonce] else old(nonces)
    {
      if attester in nonces && nonce <= nonces[attester] { return false; }
      nonces := nonces[attester := nonce];
      ok := true;
    }

    /** `consume_recipient_consent_nonce` */
    method ConsumeConsent(recipient: Address, nonce: u64) returns (ok: bool)
      modifies this`consents
      ensures ok <==> recipient !in old(consents) || old(consents)[recipient] < nonce
      ensures consents == if ok then old(consents)[recipient := nonce] else old(consents)
    {
      if recipient in consents && nonce <= consents[recipient] { return false; }
      consents := consents[recipient := nonce];
      ok := true;
    }

    // ------------------------------------------------------------ entry points

    /** `attest` and the other direct paths. */
    method Attest(lg: Ledger, a: Attestation, v: Verdict, auth: set<Address>) returns (r: Result<Uid, Error>)
      requires Valid() && Open(lg)
      modifies this
      ensures Valid() && (r.Ok? ==> r.value == a.uid)
      ensures var refusal := if a.attester in auth then None else Some(Unauthorized);
              Settled(old(Now()), lg, Attempt(old(View()), lg, h, refusal, [Issue(a, v)]), [Issue(a, v)], ErrorOf(r))
      ensures a.attester !in auth ==> r == Err(Unauthorized)
      ensures r.Ok? ==> View().records == old(View()).records[a.uid := a.(time := lg.timestamp)]
    {
      hide Abs, Do, DoAll, Reaches, WellFiled;
      ghost var w := View();
      DoAllOne(w, lg, h, Issue(a, v));
      if a.attester !in auth { return Err(Unauthorized); }
      r := AttestInternal(lg, a, v);
      if r.Ok? {
        Writes(w, lg, h, Issue(a, v));
        Record(w, lg, [Issue(a, v)]);
      }
    }

    /** One delegated issuance, without its place in the run. */
    method IssueDelegated(lg: Ledger, item: Delegated) returns (r: Result<Uid, Error>)
      requires WellFiled(Store())
      modifies this`compactRows, this`rows, this`validFrom, this`anchors, this`nonces, this`consents
      ensures WellFiled(Store())
      ensures match IssuedOne(old(View()), lg, h, item) {
                case Ok(w) => r == Ok(item.att.uid) && View() == w
                case Err(e) => r == Err(e) && Saved() == old(Saved())
              }
    {
      hide Abs, DoAll, WellFiled;
      if item.att.revocationTime != 0 { return Err(AlreadyRevoked); }
      if item.policy.Some? { return Err(item.policy.value); }
      if item.att.attester in nonces && item.nonce <= nonces[item.att.attester] { return Err(DelegationReplay); }
      if item.refusal.Some? { return Err(item.refusal.value); }
      r := ChargeAndIssue(lg, item);
    }

    /** Use the nonce and issue, or neither. */
    method ChargeAndIssue(lg: Ledger, item: Delegated) returns (r: Result<Uid, Error>)
      requires WellFiled(Store())
      modifies this`compactRows, this`rows, this`validFrom, this`anchors, this`nonces, this`consents
      ensures WellFiled(Store())
      ensures match DoAll(old(View()), lg, h, DelegatedOp(item)) {
                case Ok(w) => r == Ok(item.att.uid) && View() == w
                case Err(e) => r == Err(e) && Saved() == old(Saved())
              }
    {
      DoAllTwo(View(), lg, h, UseNonce(item.att.attester, item.nonce), Issue(item.att, item.verdict));
      UsesNonce(View(), lg, h, item.att.attester, item.nonce);
      hide Abs, Do, DoAll, WellFiled;
      var saved := Saved();
      var consumed := ConsumeNonce(item.att.attester, item.nonce);
      if !consumed { return Err(DelegationReplay); }
      r := AttestInternal(lg, item.att, item.verdict);
      if r.Err? { Rollback(saved); }
    }

    /** `attest_by_scoped_delegation` */
    method AttestByScopedDelegation(lg: Ledger, item: Delegated, scope: Scope) returns (r: Result<Uid, Error>)
      requires Valid() && Open(lg)
      modifies this
      ensures Valid() && (r.Ok? ==> r.value == item.att.uid)
      ensures var refusal := ScopedError(item, scope, lg.timestamp);
              Settled(old(Now()), lg, Attempt(old(View()), lg, h, refusal, DelegatedOp(item)), DelegatedOp(item),
                ErrorOf(r))
      ensures r.Ok? ==>
                && item.policy.None? && item.refusal.None? && item.att.revocationTime == 0
                && (item.att.attester in old(nonces) ==> old(nonces)[item.att.attester] < item.nonce)
                && nonces == old(nonces)[item.att.attester := item.nonce]
                && View().records == old(View()).records[item.att.uid := item.att.(time := lg.timestamp)]
      ensures r.Ok? ==>
                && scope.mayIssue && (scope.validUntil == 0 || lg.timestamp <= scope.validUntil)
                && (scope.only == None || scope.only == Some(item.att.schema))
    {
      ScopedReports(item, scope, lg.timestamp);
      hide Abs, DoAll, Reaches, WellFiled, DelegatedOp;
      ghost var w := View();
      if item.att.revocationTime != 0 { return Err(AlreadyRevoked); }
      if item.policy.Some? { return Err(item.policy.value); }
      if !InScope(scope, lg.timestamp, item.att.schema) { return Err(DelegationScopeDenied); }
      if item.refusal.Some? { return Err(item.refusal.value); }
      r := ChargeAndIssue(lg, item);
      if r.Ok? {
        DelegatedWrites(w, lg, h, item);
        Record(w, lg, DelegatedOp(item));
      }
    }

    /** `attest_by_delegation` */
    method AttestByDelegation(lg: Ledger, item: Delegated) returns (r: Result<Uid, Error>)
      requires Valid() && Open(lg)
      modifies this
      ensures Valid() && (r.Ok? ==> r.value == item.att.uid)
      ensures Settled(old(Now()), lg, IssuedOne(old(View()), lg, h, item), DelegatedOp(item), ErrorOf(r))
      ensures r.Ok? ==>
                && item.policy.None? && item.refusal.None? && item.att.revocationTime == 0
                && (item.att.attester in old(nonces) ==> old(nonces)[item.att.attester] < item.nonce)
                && nonces == old(nonces)[item.att.attester := item.nonce]
                && View().records == old(View()).records[item.att.uid := item.att.(time := lg.timestamp)]
    {
      DelegatedReports(View(), item);
      hide Abs, Do, DoAll, Reaches, WellFiled, DelegatedError, DelegatedOp;
      ghost var w := View();
      r := IssueDelegated(lg, item);
      if r.Ok? {
        DelegatedWrites(w, lg, h, item);
        Record(w, lg, DelegatedOp(item));
      }
    }

    /** `multi_attest_by_delegation`: one nonce an item, all or nothing. */
    method MultiAttestByDelegation(lg: Ledger, items: seq<Delegated>) returns (r: Result<seq<Uid>, Error>)
      requires Valid() && Open(lg)
      modifies this
      ensures Valid() && (|items| > 100 ==> r == Err(BatchTooLarge))
      ensures r.Ok? ==> |r.value| == |items| && forall i :: 0 <= i < |items| ==> r.value[i] == items[i].att.uid
      ensures var outcome := if |items| > MAX_MULTI_ATTEST then Err(BatchTooLarge)
              else IssuedEach(old(View()), lg, h, items);
              Settled(old(Now()), lg, outcome, DelegatedOps(items), ErrorOf(r))
      ensures r.Ok? ==> |items| <= 100 && forall i :: 0 <= i < |items| ==>
                && items[i].policy.None? && items[i].refusal.None? && items[i].att.uid !in old(View()).records
                && Get(View().records, items[i].att.uid) == Some(items[i].att.(time := lg.timestamp))
      ensures r.Ok? ==> forall u :: u in old(View()).records ==> Get(View().records, u) == Some(old(View()).records[u])
    {
      hide Abs, Do, DoAll, Reaches, WellFiled, IssuedOne, DelegatedOps;
      if |items| > MAX_MULTI_ATTEST { return Err(BatchTooLarge); }
      ghost var w := View();
      var saved := Saved();
      var uids := [];
      for i := 0 to |items|
        invariant WellFiled(Store()) && supersedes == old(supersedes) && trace == old(trace) && states == old(states)
        invariant IssuedEach(w, lg, h, items[..i]) == Ok(View())
        invariant |uids| == i && forall m :: 0 <= m < i ==> uids[m] == items[m].att.uid
      {
        IssuedPrefix(w, lg, h, items, i);
        var one := IssueDelegated(lg, items[i]);
        if one.Err? {
          IssuedFails(w, lg, h, items, i + 1);
          Rollback(saved);
          return Err(one.error);
        }
        uids := uids + [one.value];
      }
      assert items[..|items|] == items;
      IssuedIsDoAll(w, lg, h, items);
      forall i | 0 <= i < |items| { IssuedStores(w, lg, h, items, i); }
      forall u { IssuedKeeps(w, lg, h, items, u); }
      Record(w, lg, DelegatedOps(items));
      r := Ok(uids);
    }

    /** `revoke` and `revoke_by_authorizer`: the attester, or an address the
        registry authorises for the record's schema. */
    method RevokeAttestation(lg: Ledger, uid: Uid, v: Verdict, authorizer: Address, auth: set<Address>,
                             registryAuthorizes: bool)
      returns (r: Result<(), Error>)
      requires Valid() && Open(lg)
      modifies this
      ensures Valid()
      ensures var allowed := (a: Attestation) => authorizer in auth && (authorizer == a.attester || registryAuthorizes);
              Settled(old(Now()), lg, RevokeOne(old(View()), lg, h, Item(uid, v, None), allowed), [Revoke(uid, v)],
                ErrorOf(r))
      ensures r.Ok? ==>
                && uid in old(View()).records && authorizer in auth
                && (authorizer == old(View()).records[uid].attester || registryAuthorizes)
                && View().records ==
                   old(View()).records[uid := old(View()).records[uid].(revocationTime := lg.timestamp)]
      ensures uid !in old(View()).records ==> r == Err(AttestationNotFound)
      ensures uid in old(View()).records
              && (authorizer !in auth || (authorizer != old(View()).records[uid].attester && !registryAuthorizes)) ==>
                r == Err(Unauthorized)
    {
      ghost var w := View();
      DoAllOne(w, lg, h, Revoke(uid, v));
      RevokesUnsigned(w, lg, h, uid, v,
        (a: Attestation) => authorizer in auth && (authorizer == a.attester || registryAuthorizes));
      hide Abs, Do, DoAll, Reaches, WellFiled, RevokeOne, CommitOne;
      var found := ReadAttestation(uid);
      if found.None? { return Err(AttestationNotFound); }
      if authorizer !in auth { return Err(Unauthorized); }
      if authorizer != found.value.attester && !registryAuthorizes { return Err(Unauthorized); }
      r := RevokeInternal(lg, uid, v);
      if r.Ok? {
        Writes(w, lg, h, Revoke(uid, v));
        Record(w, lg, [Revoke(uid, v)]);
      }
    }

    /** The second pass of one item: use the nonce of the recorded attester, if
        the item is signed, and revoke. */
    method CommitItem(lg: Ledger, item: Item) returns (r: Result<(), Error>)
      requires WellFiled(Store())
      modifies this`compactRows, this`rows, this`validFrom, this`anchors, this`nonces, this`consents
      ensures WellFiled(Store())
      ensures match CommitOne(old(View()), lg, h, item) {
                case Ok(w) => r == Ok(()) && View() == w
                case Err(e) => r == Err(e) && Saved() == old(Saved())
              }
    {
      hide Abs, Do, WellFiled;
      var found := ReadAttestation(item.uid);
      if found.None? { return Err(AttestationNotFound); }
      var saved := Saved();
      if item.signed.Some? {
        UsesNonce(View(), lg, h, found.value.attester, item.signed.value.nonce);
        var consumed := ConsumeNonce(found.value.attester, item.signed.value.nonce);
        if !consumed { return Err(DelegationReplay); }
      }
      r := RevokeInternal(lg, item.uid, item.verdict);
      if r.Err? { Rollback(saved); }
    }

    /** `revoke_by_delegation`: the nonce is charged to the recorded attester. */
    method RevokeByDelegation(lg: Ledger, uid: Uid, v: Verdict, signed: Signed) returns (r: Result<(), Error>)
      requires Valid() && Open(lg)
      modifies this
      ensures Valid()
      ensures var item := Item(uid, v, Some(signed));
              Settled(old(Now()), lg, RevokeOne(old(View()), lg, h, item, _ => true), BatchOps(old(View()), [item]),
                ErrorOf(r))
      ensures uid !in old(View()).records ==> r == Err(AttestationNotFound)
      ensures r.Ok? ==>
                && uid in old(View()).records && signed.refusal.None?
                && var a := old(View()).records[uid];
                   && (a.attester in old(nonces) ==> old(nonces)[a.attester] < signed.nonce)
                   && nonces == old(nonces)[a.attester := signed.nonce]
                   && View().records == old(View()).records[uid := a.(revocationTime := lg.timestamp)]
    {
      hide Abs, Do, DoAll, Reaches, WellFiled, CommitOne;
      ghost var w := View();
      var item := Item(uid, v, Some(signed));
      var found := ReadAttestation(uid);
      if found.None? { return Err(AttestationNotFound); }
      var attester := found.value.attester;
      if attester in nonces && signed.nonce <= nonces[attester] { return Err(DelegationReplay); }
      if signed.refusal.Some? { return Err(signed.refusal.value); }
      CommitOneIsDoAll(w, lg, h, item);
      r := CommitItem(lg, item);
      if r.Ok? {
        CommitOneWrites(w, lg, h, item);
        assert [item][..0] == [] && BatchOps(w, [item]) == [] + ItemOps(attester, item) == ItemOps(attester, item);
        Record(w, lg, BatchOps(w, [item]));
      }
    }

    /** `replace_internal` */
    method ReplaceInternal(lg: Ledger, current: Attestation, oldUid: Uid, a: Attestation, onRevoke: Verdict,
        onIssue: Verdict)
      returns (r: Result<Uid, Error>)
      requires WellFiled(Store()) && Get(View().records, oldUid) == Some(current)
      modifies this`compactRows, this`rows, this`validFrom, this`anchors, this`nonces, this`consents, this`supersedes
      ensures WellFiled(Store())
      ensures match Replaced(old(View()), lg, h, current, oldUid, a, onRevoke, onIssue) {
                case Ok(w) => r == Ok(a.uid) && View() == w
                case Err(e) => r == Err(e) && Saved() == old(Saved()) && supersedes == old(supersedes)
              }
    {
      hide Abs, WellFiled;
      var problem := ReplaceChecks(current, a, lg.timestamp);
      if problem.Some? { return Err(problem.value); }
      ReplaceLinks(View(), lg, h, oldUid, a, onRevoke, onIssue);
      hide DoAll, RevokeError, IssueError, ReplaceChecks, ReplaceOps;
      var saved := Saved();
      var revoked := RevokeInternal(lg, oldUid, onRevoke);
      if revoked.Err? { return Err(revoked.error); }
      r := AttestInternal(lg, a.(refUid := oldUid), onIssue);
      if r.Err? {
        Rollback(saved);
      } else {
        supersedes := supersedes[a.uid := oldUid];
      }
    }

    /** `replace_attestation` */
    method ReplaceAttestation(lg: Ledger, oldUid: Uid, a: Attestation, onRevoke: Verdict, onIssue: Verdict,
        auth: set<Address>)
      returns (r: Result<Uid, Error>)
      requires Valid() && Open(lg)
      modifies this
      ensures Valid() && (r.Ok? ==> r.value == a.uid)
      ensures Settled(old(Now()), lg, ReplacedBy(old(View()), lg, h, oldUid, a, onRevoke, onIssue, auth),
                      ReplaceOps(oldUid, a, onRevoke, onIssue), ErrorOf(r))
      ensures oldUid !in old(View()).records ==> r == Err(AttestationNotFound)
      ensures oldUid in old(View()).records && old(View()).records[oldUid].attester !in auth ==> r == Err(Unauthorized)
      ensures r.Ok? ==>
                && oldUid in old(View()).records && a.uid !in old(View()).records
                && var current := old(View()).records[oldUid];
                   && a.attester == current.attester && a.recipient == current.recipient
                   && View().records == old(View()).records[oldUid := current.(revocationTime := lg.timestamp)]
                                                           [a.uid := a.(refUid := oldUid, time := lg.timestamp)]
    {
      hide Abs, DoAll, ReplaceChecks, ReplaceOps, Reaches, WellFiled, Replaced;
      ghost var w := View();
      var found := ReadAttestation(oldUid);
      if found.None? { return Err(AttestationNotFound); }
      if found.value.attester !in auth { return Err(Unauthorized); }
      r := ReplaceInternal(lg, found.value, oldUid, a, onRevoke, onIssue);
      if r.Ok? {
        ReplaceWrites(w, lg, h, oldUid, a, onRevoke, onIssue);
        ReplacedIsDoAll(w, lg, h, found.value, oldUid, a, onRevoke, onIssue);
        Record(w, lg, ReplaceOps(oldUid, a, onRevoke, onIssue));
      }
    }

    /** Both nonces, or none. */
    method ConsumeBoth(lg: Ledger, a: Attestation, c: Consents) returns (ok: bool)
      modifies this`nonces, this`consents
      ensures match DoAll(old(View()), lg, h, ConsentOps(a, c)) {
                case Ok(w) => ok && View() == w
                case Err(e) => !ok && e == DelegationReplay && Saved() == old(Saved())
              }
    {
      UsesBoth(View(), lg, h, a, c);
      hide Abs, DoAll, ConsentOps;
      var before := nonces;
      ok := ConsumeNonce(a.attester, c.attesterNonce);
      if ok {
        ok := ConsumeConsent(a.recipient, c.recipientNonce);
        if !ok { nonces := before; }
      }
    }

    /** Charge both parties and replace, without a place in the run. */
    method ReplaceCharged(lg: Ledger, current: Attestation, oldUid: Uid, a: Attestation, onRevoke: Verdict,
                          onIssue: Verdict, c: Consents)
      returns (r: Result<Uid, Error>)
      requires WellFiled(Store()) && Get(View().records, oldUid) == Some(current)
      modifies this`compactRows, this`rows, this`validFrom, this`anchors, this`nonces, this`consents, this`supersedes
      ensures WellFiled(Store())
      ensures match ChargedAndReplaced(old(View()), lg, h, current, oldUid, a, onRevoke, onIssue, c) {
                case Ok(w) => r == Ok(a.uid) && View() == w
                case Err(e) => r == Err(e) && Saved() == old(Saved()) && supersedes == old(supersedes)
              }
    {
      UsesBoth(View(), lg, h, a, c);
      hide Abs, DoAll, Replaced, ConsentOps, WellFiled;
      var saved := Saved();
      var consumed := ConsumeBoth(lg, a, c);
      if !consumed { return Err(DelegationReplay); }
      r := ReplaceInternal(lg, current, oldUid, a, onRevoke, onIssue);
      if r.Err? { Rollback(saved); }
    }

    /** `replace_by_delegation_consent`: both parties sign, each with a nonce of
        its own, and both nonces are given back if the replacement fails. */
    method ReplaceByConsent(lg: Ledger, oldUid: Uid, a: Attestation, onRevoke: Verdict, onIssue: Verdict, c: Consents)
      returns (r: Result<Uid, Error>)
      requires Valid() && Open(lg)
      modifies this
      ensures Valid() && (r.Ok? ==> r.value == a.uid)
      ensures Settled(old(Now()), lg, ReplacedByConsent(old(View()), lg, h, oldUid, a, onRevoke, onIssue, c),
                      ConsentOps(a, c) + ReplaceOps(oldUid, a, onRevoke, onIssue), ErrorOf(r))
      ensures oldUid !in old(View()).records ==> r == Err(AttestationNotFound)
      ensures oldUid in old(View()).records
              && (a.attester, a.recipient) !=
                 (old(View()).records[oldUid].attester, old(View()).records[oldUid].recipient) ==>
                r == Err(Unauthorized)
      ensures r.Ok? ==>
                && c.refusal.None?
                && (a.attester in old(nonces) ==> old(nonces)[a.attester] < c.attesterNonce)
                && (a.recipient in old(consents) ==> old(consents)[a.recipient] < c.recipientNonce)
                && nonces == old(nonces)[a.attester := c.attesterNonce]
                && consents == old(consents)[a.recipient := c.recipientNonce]
      ensures r.Ok? ==>
                && oldUid in old(View()).records && a.uid !in old(View()).records
                && var current := old(View()).records[oldUid];
                   && a.attester == current.attester && a.recipient == current.recipient
                   && View().records == old(View()).records[oldUid := current.(revocationTime := lg.timestamp)]
                                                           [a.uid := a.(refUid := oldUid, time := lg.timestamp)]
    {
      ghost var w := View();
      ConsentIsDoAll(w, lg, h, oldUid, a, onRevoke, onIssue, c);
      hide Abs, DoAll, ChargedAndReplaced, ReplaceOps, ConsentOps, Reaches, WellFiled;
      var found := ReadAttestation(oldUid);
      if found.None? { return Err(AttestationNotFound); }
      if a.attester != found.value.attester || a.recipient != found.value.recipient { return Err(Unauthorized); }
      if c.refusal.Some? { return Err(c.refusal.value); }
      r := ReplaceCharged(lg, found.value, oldUid, a, onRevoke, onIssue, c);
      if r.Ok? {
        ConsentWrites(w, lg, h, oldUid, a, onRevoke, onIssue, c);
        Record(w, lg, ConsentOps(a, c) + ReplaceOps(oldUid, a, onRevoke, onIssue));
      }
    }

    /** The first pass of a batch revocation. */
    method ValidateItems(items: seq<Item>) returns (e: Option<Error>)
      ensures e == FirstProblem(View(), items)
    {
      NamesNone(items);
      hide Abs, Names;
      var seen: set<Uid> := {};
      for i := 0 to |items|
        invariant forall u :: u in seen <==> Names(items[..i], u)
        invariant FirstProblem(View(), items[..i]).None?
      {
        ProblemPrefix(View(), items, i);
        if items[i].uid in seen { return Some(DuplicateAttestation); }
        forall u ensures u in seen + {items[i].uid} <==> Names(items[..i + 1], u) {
          NamesSnoc(items[..i + 1], u);
          assert items[..i + 1][..i] == items[..i];
        }
        seen := seen + {items[i].uid};
        var found := ReadAttestation(items[i].uid);
        if found.None? { return Some(AttestationNotFound); }
        if !found.value.revocable { return Some(NotRevocable); }
        if found.value.revocationTime != 0 { return Some(AlreadyRevoked); }
        if items[i].signed.Some? {
          var s, attester := items[i].signed.value, found.value.attester;
          if attester in nonces && s.nonce <= nonces[attester] { return Some(DelegationReplay); }
          if s.refusal.Some? { return s.refusal; }
        }
      }
      assert items[..|items|] == items;
      e := None;
    }

    /** The second pass, all or nothing. */
    method CommitItems(lg: Ledger, items: seq<Item>) returns (r: Result<(), Error>)
      requires WellFiled(Store())
      modifies this`compactRows, this`rows, this`validFrom, this`anchors, this`nonces, this`consents
      ensures WellFiled(Store())
      ensures match Commit(old(View()), lg, h, items) {
                case Ok(w) => r == Ok(()) && View() == w
                case Err(e) => r == Err(e) && Saved() == old(Saved())
              }
    {
      hide Abs, CommitOne, WellFiled;
      ghost var w := View();
      var saved := Saved();
      for i := 0 to |items|
        invariant WellFiled(Store()) && supersedes == old(supersedes) && Commit(w, lg, h, items[..i]) == Ok(View())
      {
        CommitPrefix(w, lg, h, items, i);
        var one := CommitItem(lg, items[i]);
        if one.Err? {
          CommitFails(w, lg, h, items, i + 1);
          Rollback(saved);
          return Err(one.error);
        }
      }
      assert items[..|items|] == items;
      r := Ok(());
    }

    /** The attesters of unsigned items, each of whom must have authorised. */
    method Authorised(items: seq<Item>, auth: set<Address>) returns (ok: bool)
      ensures ok <==> AllAllowed(View(), items, By(auth))
    {
      hide Abs;
      for i := 0 to |items|
        invariant AllAllowed(View(), items[..i], By(auth))
      {
        if items[i].signed.None? {
          var found := ReadAttestation(items[i].uid);
          if found.Some? && found.value.attester !in auth { return false; }
        }
      }
      assert items[..|items|] == items;
      ok := true;
    }

    method RevokeBatch(lg: Ledger, items: seq<Item>, auth: set<Address>) returns (r: Result<(), Error>)
      requires Valid() && Open(lg)
      modifies this
      ensures Valid() && (|items| > 100 ==> r == Err(BatchTooLarge))
      ensures var allowed := By(auth);
              Settled(old(Now()), lg, BatchRevoked(old(View()), lg, h, items, allowed), BatchOps(old(View()), items),
                ErrorOf(r))
    {
      ghost var w := View();
      BatchRevokedExact(w, lg, h, items, By(auth));
      hide Abs, DoAll, Reaches, WellFiled, Commit, FirstProblem, AllAllowed, RevokeEach, BatchOps;
      if |items| > MAX_MULTI_REVOKE { return Err(BatchTooLarge); }
      var e := ValidateItems(items);
      if e.Some? { return Err(e.value); }
      var authorised := Authorised(items, auth);
      if !authorised { return Err(Unauthorized); }
      r := CommitItems(lg, items);
      if r.Ok? { Record(w, lg, BatchOps(w, items)); }
    }

    /** `multi_revoke`: it succeeds exactly when revoking the same records one by
        one does, with the same result. */
    method MultiRevoke(lg: Ledger, items: seq<Item>, auth: set<Address>) returns (r: Result<(), Error>)
      requires Valid() && Open(lg) && forall i :: 0 <= i < |items| ==> items[i].signed.None?
      modifies this
      ensures Valid() && (|items| > 100 ==> r == Err(BatchTooLarge))
      ensures var allowed := By(auth);
              var each := RevokeEach(old(View()), lg, h, items, allowed);
              && Settled(old(Now()), lg, BatchRevoked(old(View()), lg, h, items, allowed),
                BatchOps(old(View()), items), ErrorOf(r))
              && (r.Ok? <==> |items| <= MAX_MULTI_REVOKE && each.Ok?) && (r.Ok? ==> each == Ok(View()))
      ensures r.Ok? ==> forall i :: 0 <= i < |items| ==>
                items[i].uid in old(View()).records && old(View()).records[items[i].uid].attester in auth
      ensures |items| <= 100
              && (forall i, j :: 0 <= i < j < |items| ==> items[i].uid != items[j].uid)
              && (forall i :: 0 <= i < |items| ==>
                    && items[i].uid in old(View()).records && old(View()).records[items[i].uid].revocable
                    && old(View()).records[items[i].uid].revocationTime == 0) ==>
                (r == Err(Unauthorized) <==>
                 exists i :: 0 <= i < |items| && old(View()).records[items[i].uid].attester !in auth)
      ensures r.Ok? ==>
                && (forall u :: u in View().records <==> u in old(View()).records)
                && forall u :: u in old(View()).records ==>
                     View().records[u] == (
                       if exists i :: 0 <= i < |items| && items[i].uid == u
                       then old(View()).records[u].(revocationTime := lg.timestamp) else old(View()).records[u])
    {
      ghost var w := View();
      BatchRevokedExact(w, lg, h, items, By(auth));
      BatchAsksAttesters(w, lg, h, items, auth);
      NothingToReport(w, items);
      hide BatchRevoked, RevokeEach, Reaches, WellFiled, DoAll, BatchOps, Abs, FirstProblem;
      r := RevokeBatch(lg, items, auth);
      if r.Ok? { BatchWrites(w, lg, h, items, By(auth)); }
    }

    /** `multi_revoke_by_delegation`: it succeeds exactly when revoking by the same
        delegations one by one does, with the same records, nonces and anchors. */
    method MultiRevokeByDelegation(lg: Ledger, items: seq<Item>) returns (r: Result<(), Error>)
      requires Valid() && Open(lg) && forall i :: 0 <= i < |items| ==> items[i].signed.Some?
      modifies this
      ensures Valid() && (|items| > 100 ==> r == Err(BatchTooLarge))
      ensures var allowed := By({});
              var each := RevokeEach(old(View()), lg, h, items, allowed);
              && Settled(old(Now()), lg, BatchRevoked(old(View()), lg, h, items, allowed),
                BatchOps(old(View()), items), ErrorOf(r))
              && (r.Ok? <==> |items| <= MAX_MULTI_REVOKE && each.Ok?) && (r.Ok? ==> each == Ok(View()))
      ensures r.Ok? ==> forall i :: 0 <= i < |items| ==>
                && items[i].uid in old(View()).records && items[i].signed.value.refusal.None?
                && var attester := old(View()).records[items[i].uid].attester;
                   && (attester in old(nonces) ==> old(nonces)[attester] < items[i].signed.value.nonce)
                   && attester in nonces && items[i].signed.value.nonce <= nonces[attester]
      ensures r.Ok? ==>
                && (forall u :: u in View().records <==> u in old(View()).records)
                && forall u :: u in old(View()).records ==>
                     View().records[u] == (
                       if exists i :: 0 <= i < |items| && items[i].uid == u
                       then old(View()).records[u].(revocationTime := lg.timestamp) else old(View()).records[u])
    {
      ghost var w := View();
      BatchRevokedExact(w, lg, h, items, By({}));
      hide BatchRevoked, RevokeEach, Reaches, WellFiled, DoAll, BatchOps, Abs;
      r := RevokeBatch(lg, items, {});
      if r.Ok? {
        BatchWrites(w, lg, h, items, By({}));
        SignedBatch(w, lg, h, items, By({}));
      }
    }

    /** `prune_expired`; `enabled` is the administrator's switch. */
    method PruneExpired(lg: Ledger, uids: seq<Uid>, enabled: bool) returns (r: Result<nat, Error>)
      requires Valid() && Open(lg)
      modifies this
      ensures Valid() && (r.Ok? ==> r.value == |old(View()).records| - |View().records|)
      ensures var refusal := if !enabled then Some(AutoPruneDisabled)
                             else if |uids| > MAX_PRUNE_BATCH then Some(BatchTooLarge) else None;
              Settled(old(Now()), lg, Attempt(old(View()), lg, h, refusal, PruneOps(uids)), PruneOps(uids), ErrorOf(r))
      ensures !enabled ==> r == Err(AutoPruneDisabled)
      ensures enabled && |uids| > 100 ==> r == Err(BatchTooLarge)
      ensures r.Ok? ==>
                forall u :: Get(View().records, u) == (
                  if u in old(View()).records && u in uids && 0 < old(View()).records[u].expiration <= lg.timestamp
                  then None else Get(old(View()).records, u))
    {
      hide Abs, Do, DoAll, Reaches, WellFiled;
      if !enabled { return Err(AutoPruneDisabled); }
      if |uids| > MAX_PRUNE_BATCH { return Err(BatchTooLarge); }
      ghost var w := View();
      var pruned := PruneAll(lg, uids);
      forall u { PruneWrites(w, lg, h, uids, u); }
      Record(w, lg, PruneOps(uids));
      r := Ok(pruned);
    }

    method PruneAll(lg: Ledger, uids: seq<Uid>) returns (pruned: nat)
      requires WellFiled(Store())
      modifies this`compactRows, this`rows, this`validFrom, this`anchors, this`supersedes
      ensures WellFiled(Store()) && DoAll(old(View()), lg, h, PruneOps(uids)) == Ok(View())
      ensures pruned == |old(View()).records| - |View().records|
    {
      hide Abs, DoAll, WellFiled;
      ghost var w := View();
      pruned := 0;
      DoAllNone(w, lg, h);
      for i := 0 to |uids|
        invariant WellFiled(Store()) && DoAll(w, lg, h, PruneOps(uids)[..i]) == Ok(View())
        invariant pruned + |View().records| == |w.records|
      {
        ghost var ops := PruneOps(uids);
        DoAllSnoc(w, lg, h, ops[..i], ops[i]);
        assert ops[..i + 1] == ops[..i] + [ops[i]];
        var found := ReadAttestation(uids[i]);
        if found.Some? && Expired(found.value.expiration, lg.timestamp) {
          RemoveAttestation(uids[i]);
          pruned := pruned + 1;
        }
      }
      assert PruneOps(uids)[..|uids|] == PruneOps(uids);
    }

    /** `invalidate_nonces_internal` */
    method RaiseWatermark(lg: Ledger, attester: Address, max: u64) returns (ok: bool)
      modifies this`nonces
      ensures match Do(old(View()), lg, h, Invalidate(attester, max)) {
                case Ok(w) => ok && View() == w
                case Err(e) => !ok && e == InvalidValue && nonces == old(nonces)
              }
      ensures ok <==> max > (if attester in old(nonces) then old(nonces)[attester] else 0)
      ensures ok ==> nonces == old(nonces)[attester := max]
    {
      hide Abs;
      var current := if attester in nonces then nonces[attester] else 0;
      if max <= current { return false; }
      nonces := nonces[attester := max];
      ok := true;
    }

    /** `set_nonce_highwater_mark` */
    method SetHighwaterMark(lg: Ledger, attester: Address, mark: u64, auth: set<Address>) returns (r: Result<(), Error>)
      requires Valid() && Open(lg)
      modifies this
      ensures Valid()
      ensures var refusal := if attester in auth then None else Some(Unauthorized);
              var ops := [Invalidate(attester, mark)];
              Settled(old(Now()), lg, Attempt(old(View()), lg, h, refusal, ops), ops, ErrorOf(r))
      ensures r.Ok? ==>
                && attester in auth && (attester in old(nonces) ==> old(nonces)[attester] < mark)
                && nonces == old(nonces)[attester := mark]
      ensures attester !in auth ==> r == Err(Unauthorized)
    {
      hide Abs, Do, DoAll, Reaches, WellFiled;
      ghost var w := View();
      DoAllOne(w, lg, h, Invalidate(attester, mark));
      if attester !in auth { return Err(Unauthorized); }
      var raised := RaiseWatermark(lg, attester, mark);
      if !raised { return Err(InvalidValue); }
      Record(w, lg, [Invalidate(attester, mark)]);
      r := Ok(());
    }

    /** `invalidate_nonces` */
    method InvalidateNonces(lg: Ledger, attester: Address, min: u64, max: u64, auth: set<Address>)
      returns (r: Result<(), Error>)
      requires Valid() && Open(lg)
      modifies this
      ensures Valid()
      ensures var refusal := if min > max then Some(InvalidValue) else if attester !in auth then Some(Unauthorized)
              else None;
              var ops := [Invalidate(attester, max)];
              Settled(old(Now()), lg, Attempt(old(View()), lg, h, refusal, ops), ops, ErrorOf(r))
      ensures r.Ok? ==>
                && attester in auth && (attester in old(nonces) ==> old(nonces)[attester] < max)
                && nonces == old(nonces)[attester := max]
      ensures attester !in auth && min <= max ==> r == Err(Unauthorized)
      ensures min > max ==> r == Err(InvalidValue)
    {
      hide Abs, Do, DoAll, Reaches, WellFiled;
      ghost var w := View();
      DoAllOne(w, lg, h, Invalidate(attester, max));
      if min > max { return Err(InvalidValue); }
      if attester !in auth { return Err(Unauthorized); }
      var raised := RaiseWatermark(lg, attester, max);
      if !raised { return Err(InvalidValue); }
      Record(w, lg, [Invalidate(attester, max)]);
      r := Ok(());
    }

    /** `invalidate_nonces_by_delegation`: the message spends a nonce too, and
        the range must reach beyond it. */
    method InvalidateByDelegation(lg: Ledger, attester: Address, min: u64, max: u64, signed: Signed)
      returns (r: Result<(), Error>)
      requires Valid() && Open(lg)
      modifies this
      ensures Valid() && (r.Ok? ==> signed.nonce < max)
      ensures r.Ok? ==>
                && min <= max && signed.refusal.None?
                && (attester in old(nonces) ==> old(nonces)[attester] < signed.nonce)
                && nonces == old(nonces)[attester := max]
      ensures var refusal := if min > max then Some(InvalidValue) else signed.refusal;
              var ops := [UseNonce(attester, signed.nonce), Invalidate(attester, max)];
              Settled(old(Now()), lg, Attempt(old(View()), lg, h, refusal, ops), ops, ErrorOf(r))
    {
      hide Abs, Do, DoAll, Reaches, WellFiled;
      ghost var w := View();
      ghost var ops := [UseNonce(attester, signed.nonce), Invalidate(attester, max)];
      if min > max { return Err(InvalidValue); }
      if signed.refusal.Some? { return Err(signed.refusal.value); }
      var e := UseAndRaise(lg, attester, signed.nonce, max);
      if e.Some? { return Err(e.value); }
      Record(w, lg, ops);
      r := Ok(());
    }

    /** Both changes of the watermark, or none. */
    method UseAndRaise(lg: Ledger, attester: Address, nonce: u64, max: u64) returns (e: Option<Error>)
      modifies this`nonces
      ensures match DoAll(old(View()), lg, h, [UseNonce(attester, nonce), Invalidate(attester, max)]) {
                case Ok(w) => e == None && View() == w && nonce < max
                case Err(x) => e == Some(x) && nonces == old(nonces)
              }
      ensures e == None ==>
                && (attester in old(nonces) ==> old(nonces)[attester] < nonce)
                && nonces == old(nonces)[attester := max]
    {
      ghost var w := View();
      DoAllTwo(w, lg, h, UseNonce(attester, nonce), Invalidate(attester, max));
      UsesNonce(w, lg, h, attester, nonce);
      if !Replayed(w, attester, nonce) { RangeReaches(w, lg, h, attester, nonce, max); }
      hide Abs, Do, DoAll;
      var before := nonces;
      var consumed := ConsumeNonce(attester, nonce);
      if !consumed { return Some(DelegationReplay); }
      var raised := RaiseWatermark(lg, attester, max);
      if !raised {
        nonces := before;
        return Some(InvalidValue);
      }
      e := None;
    }

    /** `renew_attestation` */
    method RenewAttestation(lg: Ledger, uid: Uid, expiration: u64, maxTtl: u64, auth: set<Address>)
      returns (r: Result<Uid, Error>)
      requires Valid() && Open(lg)
      modifies this
      ensures Valid() && (r.Ok? ==> r.value == uid)
      ensures var ops := [Renew(uid, expiration, maxTtl)];
              Settled(old(Now()), lg, Attempt(old(View()), lg, h, RenewRefusal(old(View()), uid, auth), ops), ops,
                ErrorOf(r))
      ensures uid !in old(View()).records ==> r == Err(AttestationNotFound)
      ensures uid in old(View()).records && old(View()).records[uid].attester !in auth ==> r == Err(Unauthorized)
      ensures r.Ok? ==>
                && uid in old(View()).records
                && View().records == old(View()).records[uid := old(View()).records[uid].(expiration := expiration)]
    {
      hide Abs, Do, DoAll, Reaches, WellFiled;
      ghost var w := View();
      DoAllOne(w, lg, h, Renew(uid, expiration, maxTtl));
      var found := ReadAttestation(uid);
      if found.None? { return Err(AttestationNotFound); }
      if found.value.attester !in auth { return Err(Unauthorized); }
      var e := RenewRecord(lg, uid, found.value, expiration, maxTtl);
      if e.Some? { return Err(e.value); }
      Writes(w, lg, h, Renew(uid, expiration, maxTtl));
      Record(w, lg, [Renew(uid, expiration, maxTtl)]);
      r := Ok(uid);
    }

    /** The rest of `renew_attestation`, once the record is read. */
    method RenewRecord(lg: Ledger, uid: Uid, a: Attestation, expiration: u64, maxTtl: u64) returns (e: Option<Error>)
      requires WellFiled(Store()) && Get(View().records, uid) == Some(a)
      modifies this`compactRows, this`rows, this`validFrom
      ensures WellFiled(Store())
      ensures match Do(old(View()), lg, h, Renew(uid, expiration, maxTtl)) {
                case Ok(w) => e == None && View() == w
                case Err(x) => e == Some(x) && Saved() == old(Saved())
              }
    {
      AbsReads(Store(), uid);
      WellFiledReads(Store(), uid);
      Renews(View(), lg, h, uid, expiration, maxTtl);
      hide Abs, ExceedsTtl, WellFiled, ReadRecord, Do;
      var now := lg.timestamp;
      if !a.revocable { return Some(NotRevocable); }
      if a.revocationTime != 0 { return Some(AlreadyRevoked); }
      if Expired(a.expiration, now) { return Some(AlreadyExpired); }
      if a.expiration != 0 && expiration != 0 && expiration < a.expiration { return Some(InvalidTtl); }
      if a.expiration == 0 && expiration != 0 { return Some(InvalidTtl); }
      if expiration > 0 && a.validFrom >= expiration { return Some(InvalidTimeRange); }
      if ExceedsTtl(expiration, maxTtl, now) { return Some(InvalidExpirationTime); }
      if Expired(expiration, now) { return Some(AlreadyExpired); }
      WriteAttestation(a.(expiration := expiration));
      e := None;
    }

    // ----------------------------------------------------------------- readers

    /** `verify_attestation`, noted in the run: a record that verifies now has
        verified at every step since it was first seen to. */
    method VerifyAttestation(lg: Ledger, uid: Uid) returns (ok: bool)
      requires Valid() && Open(lg)
      modifies this`trace, this`states
      ensures Valid() && trace == old(trace) + [Event(lg, Observe)] && |states| == |trace| + 1
      ensures ok <==>
                && uid in View().records && View().records[uid].revocationTime == 0
                && View().records[uid].validFrom <= lg.timestamp
                && (View().records[uid].expiration == 0 || lg.timestamp < View().records[uid].expiration)
      ensures ok ==> forall i, j :: 0 <= i <= j <= |trace| && Kept(states, i, |trace|, uid) ==>
                Live(states[i].records[uid], TimeAt(trace, i)) ==> Live(states[j].records[uid], TimeAt(trace, j))
    {
      hide Abs, Do, DoAll, WellFiled, Live;
      ghost var w := View();
      DoAllOne(w, lg, h, Observe);
      Observes(w, lg, h);
      ok := IsLive(lg.timestamp, uid);
      if ok { LiveMeans(View().records[uid], lg.timestamp); }
      Record(w, lg, [Observe]);
      assert Events(lg, [Observe]) == [Event(lg, Observe)];
      if ok {
        forall i, j | 0 <= i <= j <= |trace| && Kept(states, i, |trace|, uid)
          && Live(states[i].records[uid], TimeAt(trace, i))
          ensures Live(states[j].records[uid], TimeAt(trace, j))
        {
          NeverReopens(h, trace, states, i, j, |trace|, uid);
        }
      }
    }

    /** `verify_attestation_record` */
    method IsLive(now: u64, uid: Uid) returns (ok: bool)
      ensures ok <==>
                && uid in View().records && View().records[uid].revocationTime == 0
                && View().records[uid].validFrom <= now
                && (View().records[uid].expiration == 0 || now < View().records[uid].expiration)
    {
      hide Abs;
      var found := ReadAttestation(uid);
      if found.None? { return false; }
      var a := found.value;
      if a.revocationTime != 0 { return false; }
      if a.validFrom != 0 && now < a.validFrom { return false; }
      ok := !Expired(a.expiration, now);
    }

    /** `verify_timestamp`: in every run from the empty contract exactly the
        recorded anchors are accepted. */
    method VerifyTimestamp(lg: Ledger, uid: Uid, claim: Anchor) returns (ok: bool)
      requires Valid() && Open(lg)
      ensures var issuance, revocation := Get(anchors, AnchorKey(uid, false)), Get(anchors, AnchorKey(uid, true));
              states != [] && (states[0] == GENESIS ==> (ok <==> issuance == Some(claim) || revocation == Some(claim)))
    {
      var r := CheckClaim(anchors, lg, uid, claim);
      ok := r.Ok?;
      hide Abs, Do;
      if states[0] == GENESIS {
        RunAnchored(h, trace, states, |trace|);
        Later(View(), h, LedgerAt(trace, |trace|), lg);
        AnchorsAreClaims(View(), h, lg, uid, claim);
      }
    }
  }
}
