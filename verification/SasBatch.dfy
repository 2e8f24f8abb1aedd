/**
 Batch revocation: validating everything against the starting state and
 committing afterwards is the same as revoking one by one. An item may carry a
 signed delegation, with a nonce of the recorded attester; the first pass checks
 all nonces against the same starting watermarks, the second uses them in order.
 */
module SasBatch {
  import opened Base
  import opened Sas

  /** A delegation by signature, with the error of the key binding or of the
      signature check, if there is one. */
  datatype Signed = Signed(nonce: u64, refusal: Option<Error>)

  datatype Item = Item(uid: Uid, verdict: Verdict, signed: Option<Signed>)

  const MAX_MULTI_REVOKE := 100

  predicate Replayed(w: World, attester: Address, nonce: u64) {
    attester in w.nonces && nonce <= w.nonces[attester]
  }

  /** Whether the caller may revoke record `a`: by authorisation, or by a fresh
      and valid signature. */
  function AuthError(w: World, a: Attestation, signed: Option<Signed>, allowed: Attestation -> bool): Option<Error> {
    match signed
    case None => if allowed(a) then None else Some(Unauthorized)
    case Some(s) =>
      if Replayed(w, a.attester, s.nonce) then Some(DelegationReplay) else s.refusal
  }

  /** Use the nonce, if there is one, and revoke. */
  function CommitOne(w: World, lg: Ledger, h: UidHash, item: Item): Result<World, Error> {
    if item.uid !in w.records then Err(AttestationNotFound)
    else match Charged(w, lg, h, w.records[item.uid].attester, item.signed)
         case Err(e) => Err(e)
         case Ok(charged) => Do(charged, lg, h, Revoke(item.uid, item.verdict))
  }

  function Charged(w: World, lg: Ledger, h: UidHash, attester: Address, signed: Option<Signed>): Result<World, Error> {
    if signed.None? then Ok(w) else Do(w, lg, h, UseNonce(attester, signed.value.nonce))
  }

  /** `revoke`, `revoke_by_authorizer` or `revoke_by_delegation` of one record. */
  function RevokeOne(w: World, lg: Ledger, h: UidHash, item: Item, allowed: Attestation -> bool): Result<World, Error> {
    if item.uid !in w.records then Err(AttestationNotFound)
    else match AuthError(w, w.records[item.uid], item.signed, allowed)
         case Some(e) => Err(e)
         case None => CommitOne(w, lg, h, item)
  }

  /** One by one, all or nothing. */
  function RevokeEach(w: World, lg: Ledger, h: UidHash, items: seq<Item>, allowed: Attestation -> bool)
    : Result<World, Error>
  {
    if items == [] then Ok(w)
    else match RevokeEach(w, lg, h, items[..|items| - 1], allowed)
         case Err(e) => Err(e)
         case Ok(w') => RevokeOne(w', lg, h, items[|items| - 1], allowed)
  }

  predicate ItemPasses(w: World, item: Item, allowed: Attestation -> bool) {
    && item.uid in w.records && w.records[item.uid].revocable && w.records[item.uid].revocationTime == 0
    && AuthError(w, w.records[item.uid], item.signed, allowed).None?
  }

  /** What the first pass of a batch checks, all against the starting state. */
  predicate Passes(w: World, items: seq<Item>, allowed: Attestation -> bool) {
    && (forall i, j :: 0 <= i < j < |items| ==> items[i].uid != items[j].uid)
    && (forall i :: 0 <= i < |items| ==> ItemPasses(w, items[i], allowed))
  }

  /** The second pass. */
  function Commit(w: World, lg: Ledger, h: UidHash, items: seq<Item>): Result<World, Error> {
    if items == [] then Ok(w)
    else match Commit(w, lg, h, items[..|items| - 1])
         case Err(e) => Err(e)
         case Ok(w') => CommitOne(w', lg, h, items[|items| - 1])
  }

  predicate Names(items: seq<Item>, uid: Uid) {
    exists i :: 0 <= i < |items| && items[i].uid == uid
  }

  /** What one commit does to a record and to the watermark of an address. */
  lemma CommitOneTouches(w: World, lg: Ledger, h: UidHash, item: Item, uid: Uid, a: Address)
    requires CommitOne(w, lg, h, item).Ok?
    ensures var w' := CommitOne(w, lg, h, item).value;
            && (uid in w'.records <==> uid in w.records)
            && (uid in w.records ==> w'.records[uid].attester == w.records[uid].attester)
            && (item.uid != uid && uid in w.records ==> w'.records[uid] == w.records[uid])
            && (item.uid == uid || AnchorKey(uid, true) in w.anchors ==> AnchorKey(uid, true) in w'.anchors)
            && (a in w.nonces ==> a in w'.nonces && w.nonces[a] <= w'.nonces[a])
  {}

  /** A commit touches only its own records, keeps their attesters, leaves each
      with an anchor, and lowers no watermark. */
  lemma {:induction false} CommitTouches(w: World, lg: Ledger, h: UidHash, items: seq<Item>, uid: Uid, a: Address)
    requires Commit(w, lg, h, items).Ok?
    ensures var w' := Commit(w, lg, h, items).value;
            && (uid in w'.records <==> uid in w.records)
            && (uid in w.records ==> w'.records[uid].attester == w.records[uid].attester)
            && (Names(items, uid) ==> AnchorKey(uid, true) in w'.anchors)
            && (!Names(items, uid) && uid in w.records ==> w'.records[uid] == w.records[uid])
            && (a in w.nonces ==> a in w'.nonces && w.nonces[a] <= w'.nonces[a])
  {
    if items != [] {
      hide CommitOne, Names;
      var init, last := items[..|items| - 1], items[|items| - 1];
      CommitTouches(w, lg, h, init, uid, a);
      CommitOneTouches(Commit(w, lg, h, init).value, lg, h, last, uid, a);
      NamesSnoc(items, uid);
    }
  }

  lemma NamesSnoc(items: seq<Item>, uid: Uid)
    requires items != []
    ensures Names(items, uid) <==> Names(items[..|items| - 1], uid) || items[|items| - 1].uid == uid
  {
    var init := items[..|items| - 1];
    assert forall i :: 0 <= i < |init| ==> init[i] == items[i];
    if Names(init, uid) {
      var i :| 0 <= i < |init| && init[i].uid == uid;
      assert items[i].uid == uid;
    }
    if Names(items, uid) && items[|items| - 1].uid != uid {
      var i :| 0 <= i < |items| && items[i].uid == uid;
      assert init[i].uid == uid;
    }
  }

  lemma PassesSnoc(w: World, items: seq<Item>, allowed: Attestation -> bool)
    requires items != []
    ensures var init, last := items[..|items| - 1], items[|items| - 1];
            Passes(w, items, allowed) <==>
            Passes(w, init, allowed) && !Names(init, last.uid) && ItemPasses(w, last, allowed)
  {
    hide ItemPasses;
    var init, last := items[..|items| - 1], items[|items| - 1];
    assert forall i :: 0 <= i < |init| ==> init[i] == items[i];
    assert items[|items| - 1] == last;
    if Passes(w, init, allowed) && !Names(init, last.uid) && ItemPasses(w, last, allowed) {
      forall i, j | 0 <= i < j < |items| ensures items[i].uid != items[j].uid {
        assert init[i].uid == items[i].uid;
      }
    }
  }

  /** A commit succeeds only on a record that is revocable and unrevoked, without
      a revocation anchor, and with a fresh nonce. */
  lemma CommitOneNeeds(w: World, lg: Ledger, h: UidHash, item: Item)
    requires CommitOne(w, lg, h, item).Ok?
    ensures item.uid in w.records && w.records[item.uid].revocable && w.records[item.uid].revocationTime == 0
    ensures AnchorKey(item.uid, true) !in w.anchors
    ensures item.signed.Some? ==> !Replayed(w, w.records[item.uid].attester, item.signed.value.nonce)
  {}

  /** Validate-then-commit succeeds exactly when revoking one by one does, and
      then reaches the same state, signed or not. Duplicates fail both ways, and
      so do nonces of one attester that do not increase. */
  lemma {:induction false} BatchExact(w: World, lg: Ledger, h: UidHash, items: seq<Item>, allowed: Attestation -> bool)
    ensures Passes(w, items, allowed) && Commit(w, lg, h, items).Ok? <==> RevokeEach(w, lg, h, items, allowed).Ok?
    ensures RevokeEach(w, lg, h, items, allowed).Ok? ==>
              Commit(w, lg, h, items) == RevokeEach(w, lg, h, items, allowed)
  {
    if items != [] {
      hide CommitOne, RevokeOne, Passes, ItemPasses, Names;
      var init, last := items[..|items| - 1], items[|items| - 1];
      BatchExact(w, lg, h, init, allowed);
      PassesSnoc(w, items, allowed);
      if Commit(w, lg, h, init).Ok? {
        LastExact(w, lg, h, init, last, allowed);
      }
    }
  }

  /** The last item, after the others have been committed. */
  lemma LastExact(w: World, lg: Ledger, h: UidHash, init: seq<Item>, last: Item, allowed: Attestation -> bool)
    requires Commit(w, lg, h, init).Ok?
    ensures var w' := Commit(w, lg, h, init).value;
            && (!Names(init, last.uid) && ItemPasses(w, last, allowed) && CommitOne(w', lg, h, last).Ok?
                <==> RevokeOne(w', lg, h, last, allowed).Ok?)
            && (RevokeOne(w', lg, h, last, allowed).Ok? ==>
                  RevokeOne(w', lg, h, last, allowed) == CommitOne(w', lg, h, last))
  {
    hide Commit, CommitOne, Names;
    var w' := Commit(w, lg, h, init).value;
    var attester := if last.uid in w.records then w.records[last.uid].attester else ZERO_ACCOUNT;
    CommitTouches(w, lg, h, init, last.uid, attester);
    if CommitOne(w', lg, h, last).Ok? { CommitOneNeeds(w', lg, h, last); }
  }

  // ------------------------------------------------------------- what is reported

  /** Why the first pass stops at an item. */
  function ItemProblem(w: World, before: seq<Item>, item: Item): Option<Error> {
    if Names(before, item.uid) then Some(DuplicateAttestation)
    else if item.uid !in w.records then Some(AttestationNotFound)
    else if !w.records[item.uid].revocable then Some(NotRevocable)
    else if w.records[item.uid].revocationTime != 0 then Some(AlreadyRevoked)
    else if item.signed.Some? then AuthError(w, w.records[item.uid], item.signed, _ => true)
    else None
  }

  function FirstProblem(w: World, items: seq<Item>): Option<Error> {
    if items == [] then None
    else match FirstProblem(w, items[..|items| - 1])
         case Some(e) => Some(e)
         case None => ItemProblem(w, items[..|items| - 1], items[|items| - 1])
  }

  /** Unsigned items need their attester's authorisation, asked for after all
      items have been looked at. */
  predicate AllAllowed(w: World, items: seq<Item>, allowed: Attestation -> bool) {
    forall i :: 0 <= i < |items| && items[i].signed.None? && items[i].uid in w.records ==>
      allowed(w.records[items[i].uid])
  }

  function BatchProblem(w: World, items: seq<Item>, allowed: Attestation -> bool): Option<Error> {
    match FirstProblem(w, items)
    case Some(e) => Some(e)
    case None => if AllAllowed(w, items, allowed) then None else Some(Unauthorized)
  }

  /** The first pass reports no problem exactly when the batch passes. */
  lemma {:induction false} ProblemExact(w: World, items: seq<Item>, allowed: Attestation -> bool)
    ensures BatchProblem(w, items, allowed).None? <==> Passes(w, items, allowed)
  {
    if items != [] {
      var init, last := items[..|items| - 1], items[|items| - 1];
      ProblemExact(w, init, allowed);
      PassesSnoc(w, items, allowed);
      assert AllAllowed(w, items, allowed) <==>
             AllAllowed(w, init, allowed)
               && (last.signed.None? && last.uid in w.records ==> allowed(w.records[last.uid])) by {
        assert forall i :: 0 <= i < |init| ==> init[i] == items[i];
        assert items[|items| - 1] == last;
      }
      hide Passes, Names, AllAllowed;
    }
  }

  // ------------------------------------------------------------ as operations

  function ItemOps(attester: Address, item: Item): seq<Op> {
    if item.signed.None? then [Revoke(item.uid, item.verdict)]
    else [UseNonce(attester, item.signed.value.nonce), Revoke(item.uid, item.verdict)]
  }

  function BatchOps(w: World, items: seq<Item>): seq<Op> {
    if items == [] then []
    else
      var last := items[|items| - 1];
      var attester := if last.uid in w.records then w.records[last.uid].attester else ZERO_ACCOUNT;
      BatchOps(w, items[..|items| - 1]) + ItemOps(attester, last)
  }

  lemma CommitOneIsDoAll(w: World, lg: Ledger, h: UidHash, item: Item)
    requires item.uid in w.records
    ensures CommitOne(w, lg, h, item) == DoAll(w, lg, h, ItemOps(w.records[item.uid].attester, item))
  {
    hide Do;
    var ops := ItemOps(w.records[item.uid].attester, item);
    if item.signed.None? {
      DoAllOne(w, lg, h, ops[0]);
    } else {
      DoAllTwo(w, lg, h, ops[0], ops[1]);
    }
  }

  /** The second pass commits exactly the operations of the batch, with nonces
      charged to the attesters recorded at the start. */
  lemma {:induction false} CommitIsDoAll(w: World, lg: Ledger, h: UidHash, items: seq<Item>)
    requires forall i :: 0 <= i < |items| ==> items[i].uid in w.records
    ensures Commit(w, lg, h, items) == DoAll(w, lg, h, BatchOps(w, items))
  {
    if items != [] {
      hide CommitOne, DoAll, ItemOps, Do;
      var init, last := items[..|items| - 1], items[|items| - 1];
      assert forall i :: 0 <= i < |init| ==> init[i] == items[i];
      CommitIsDoAll(w, lg, h, init);
      DoAllConcat(w, lg, h, BatchOps(w, init), ItemOps(w.records[last.uid].attester, last));
      if Commit(w, lg, h, init).Ok? {
        CommitTouches(w, lg, h, init, last.uid, ZERO_ACCOUNT);
        CommitOneIsDoAll(Commit(w, lg, h, init).value, lg, h, last);
      }
    } else {
      DoAllNone(w, lg, h);
    }
  }
}
