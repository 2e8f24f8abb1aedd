/**
 Schema ownership: threshold approval by a versioned owner set, beside the
 single-signature and the two-step transfers.
 */
module Ownership {
  import opened Base

  const MAX_OWNER_SET := 10

  datatype OwnerSet = OwnerSet(owners: seq<Address>, threshold: nat, version: nat)

  datatype Pending = Pending(version: nat, newOwner: Address, approvals: seq<Address>)

  datatype Error =
    | SchemaNotFound | InvalidSchema | Unauthorized | InvalidValue | LimitExceeded
    | SchemaAlreadyExists | InvalidSchemaDefinition

  /** What the registry stores about who owns one schema. */
  datatype Title = Title(creator: Address, owners: Option<OwnerSet>, pending: Option<Pending>,
                         offer: Option<Address>, deprecated: bool)

  /** The calls that bear on ownership. Each names the address that authorises
      it; `Transfer`, `Offer` and `WithdrawOffer` are the creator's, `Claim` is
      that of the address the creator made the offer to. */
  datatype Step =
    | Configure(authorizer: Address, owners: seq<Address>, threshold: nat)
    | Propose(proposer: Address, newOwner: Address)
    | Approve(approver: Address)
    | Cancel(canceller: Address)
    | Transfer(newOwner: Address)
    | TransferBy(sender: Address, newOwner: Address)
    | Offer(newOwner: Address)
    | Claim
    | WithdrawOffer
    | Deprecate(authorizer: Address)

  function Threshold(t: Title): nat {
    match t.owners
    case Some(current) => current.threshold
    case None => 1
  }

  function Version(t: Title): nat {
    match t.owners
    case Some(current) => current.version
    case None => 0
  }

  /** `is_owner_address` */
  predicate IsOwner(t: Title, admin: Address, who: Address) {
    (t.owners.Some? && who in t.owners.value.owners) || who == t.creator || who == admin
  }

  function OwnerSetError(owners: seq<Address>, threshold: nat): Option<Error> {
    if owners == [] || |owners| > MAX_OWNER_SET then Some(LimitExceeded)
    else if threshold == 0 || threshold > |owners| || !Distinct(owners) then Some(InvalidValue)
    else None
  }

  /** `record_approval`: the pending transfer with one more approval. */
  function Approved(t: Title, admin: Address, approver: Address): Result<Pending, Error> {
    match t.pending
    case None => Err(SchemaNotFound)
    case Some(p) =>
      if p.version != Version(t) then Err(Unauthorized)
      else if !IsOwner(t, admin, approver) then Err(Unauthorized)
      else if approver in p.approvals then Err(InvalidValue)
      else Ok(p.(approvals := p.approvals + [approver]))
  }

  function Apply(t: Title, admin: Address, s: Step): Result<Title, Error> {
    match s
    case Deprecate(who) => if who == admin || who == t.creator then Ok(t.(deprecated := true)) else Err(Unauthorized)
    case TransferBy(who, newOwner) =>
      if t.deprecated then Err(SchemaNotFound)
      else if Threshold(t) > 1 || (who != t.creator && who != admin) then Err(Unauthorized)
      else Ok(t.(creator := newOwner))
    case _ => if t.deprecated then Err(InvalidSchema) else ApplyLive(t, admin, s)
  }

  function ApplyLive(t: Title, admin: Address, s: Step): Result<Title, Error>
    requires !s.Deprecate? && !s.TransferBy?
  {
    match s
    case Configure(who, owners, threshold) =>
      if !IsOwner(t, admin, who) then Err(Unauthorized)
      else (match OwnerSetError(owners, threshold)
            case Some(e) => Err(e)
            case None =>
              var version := match t.owners case Some(current) => SatAdd(current.version, 1, U32_MAX) case None => 1;
              Ok(t.(owners := Some(OwnerSet(owners, threshold, version)), pending := None)))
    case Propose(who, newOwner) =>
      if !IsOwner(t, admin, who) then Err(Unauthorized)
      else if t.creator == newOwner then Err(InvalidValue)
      else if Threshold(t) <= 1 then Ok(t.(creator := newOwner, pending := None))
      else Ok(t.(pending := Some(Pending(Version(t), newOwner, [who]))))
    case Approve(who) =>
      (match Approved(t, admin, who)
       case Err(e) => Err(e)
       case Ok(p) =>
         if |p.approvals| < Threshold(t) then Ok(t.(pending := Some(p)))
         else Ok(t.(creator := p.newOwner, pending := None)))
    case Cancel(who) =>
      if !IsOwner(t, admin, who) then Err(Unauthorized)
      else if t.pending.None? then Err(SchemaNotFound)
      else Ok(t.(pending := None))
    case Transfer(newOwner) => if Threshold(t) > 1 then Err(Unauthorized) else Ok(t.(creator := newOwner))
    case Offer(newOwner) => if t.creator == newOwner then Err(InvalidValue) else Ok(t.(offer := Some(newOwner)))
    case Claim => if t.offer.None? then Err(Unauthorized) else Ok(t.(creator := t.offer.value, offer := None))
    case WithdrawOffer => if t.offer.None? then Err(SchemaNotFound) else Ok(t.(offer := None))
  }

  /** The calls of the owner set: who can make them, what else is asked, and which
      fault is reported. An owner is the administrator, the creator, or listed. */
  lemma OwnerCallReports(t: Title, admin: Address, s: Step)
    requires s.Configure? || s.Propose? || s.Approve? || s.Cancel?
    ensures var who := match s { case Configure(a, _, _) => a case Propose(a, _) => a case Approve(a) => a
                                 case Cancel(a) => a case _ => admin };
            var isOwner := who == admin || who == t.creator || (t.owners.Some? && who in t.owners.value.owners);
            var version := if t.owners.Some? then t.owners.value.version else 0;
            var stale := t.pending.Some? && t.pending.value.version != version;
            var repeated := t.pending.Some? && who in t.pending.value.approvals;
            ErrorOf(Apply(t, admin, s)) == Or(When(t.deprecated, InvalidSchema),
              match s {
                case Configure(_, owners, threshold) =>
                  Or(When(!isOwner, Unauthorized),
                  Or(When(|owners| == 0 || |owners| > 10, LimitExceeded),
                     When(threshold == 0 || threshold > |owners| || !Distinct(owners), InvalidValue)))
                case Propose(_, newOwner) => Or(When(!isOwner, Unauthorized), When(newOwner == t.creator, InvalidValue))
                case Approve(_) =>
                  Or(When(t.pending.None?, SchemaNotFound),
                  Or(When(stale || !isOwner, Unauthorized), When(repeated, InvalidValue)))
                case Cancel(_) => Or(When(!isOwner, Unauthorized), When(t.pending.None?, SchemaNotFound))
                case _ => None
              })
  {}

  /** The other calls. Those of one signature are refused above threshold 1. */
  lemma SoloCallReports(t: Title, admin: Address, s: Step)
    requires !s.Configure? && !s.Propose? && !s.Approve? && !s.Cancel?
    ensures var several := t.owners.Some? && t.owners.value.threshold > 1;
            ErrorOf(Apply(t, admin, s)) ==
              match s {
                case Deprecate(who) => When(who != admin && who != t.creator, Unauthorized)
                case TransferBy(who, _) =>
                  Or(When(t.deprecated, SchemaNotFound),
                     When(several || (who != t.creator && who != admin), Unauthorized))
                case Transfer(_) => Or(When(t.deprecated, InvalidSchema), When(several, Unauthorized))
                case Offer(newOwner) => Or(When(t.deprecated, InvalidSchema), When(newOwner == t.creator, InvalidValue))
                case Claim => Or(When(t.deprecated, InvalidSchema), When(t.offer.None?, Unauthorized))
                case WithdrawOffer => Or(When(t.deprecated, InvalidSchema), When(t.offer.None?, SchemaNotFound))
                case _ => None
              }
  {}

  /** Who owns the schema after a call that is not refused. */
  lemma CreatorAfter(t: Title, admin: Address, s: Step)
    requires Apply(t, admin, s).Ok?
    ensures var several := t.owners.Some? && t.owners.value.threshold > 1;
            Apply(t, admin, s).value.creator ==
              match s {
                case Propose(_, newOwner) => if several then t.creator else newOwner
                case Approve(_) =>
                  if |t.pending.value.approvals| + 1 < (if t.owners.Some? then t.owners.value.threshold else 1)
                  then t.creator else t.pending.value.newOwner
                case Transfer(newOwner) => newOwner
                case TransferBy(_, newOwner) => newOwner
                case Claim => t.offer.value
                case _ => t.creator
              }
  {}

  // --------------------------------------------------------------------- runs

  function Registered(creator: Address): Title {
    Title(creator, None, None, None, false)
  }

  /** The committed calls on one schema since its registration. */
  ghost predicate Run(admin: Address, trace: seq<Step>, states: seq<Title>) {
    && |states| == |trace| + 1 && states[0] == Registered(states[0].creator)
    && forall i :: 0 <= i < |trace| ==> Apply(states[i], admin, trace[i]) == Ok(states[i + 1])
  }

  /** A stored transfer has distinct approvals, at least one and fewer than the
      threshold, collected under the owner set in force. */
  predicate PendingOk(t: Title) {
    && (t.owners.Some? ==> OwnerSetError(t.owners.value.owners, t.owners.value.threshold).None?)
    && (t.pending.Some? ==>
          && Distinct(t.pending.value.approvals) && 1 <= |t.pending.value.approvals| < Threshold(t)
          && t.pending.value.version == Version(t))
  }

  lemma ApplyPendingOk(t: Title, admin: Address, s: Step)
    requires PendingOk(t) && Apply(t, admin, s).Ok?
    ensures PendingOk(Apply(t, admin, s).value)
  {}

  lemma {:induction false} RunPendingOk(admin: Address, trace: seq<Step>, states: seq<Title>, n: nat)
    requires Run(admin, trace, states) && n <= |trace|
    ensures PendingOk(states[n])
  {
    hide Apply;
    if n > 0 {
      RunPendingOk(admin, trace, states, n - 1);
      assert Apply(states[n - 1], admin, trace[n - 1]) == Ok(states[n]);
      ApplyPendingOk(states[n - 1], admin, trace[n - 1]);
    }
  }

  predicate CastBy(s: Step, who: Address) {
    match s
    case Propose(p, _) => p == who
    case Approve(a) => a == who
    case _ => false
  }

  /** `who` voted at step `m`, and was an owner then. */
  ghost predicate Voted(admin: Address, trace: seq<Step>, states: seq<Title>, m: nat, who: Address)
    requires m < |trace| && |states| == |trace| + 1
  {
    CastBy(trace[m], who) && IsOwner(states[m], admin, who)
  }

  ghost predicate VotedSince(admin: Address, trace: seq<Step>, states: seq<Title>, start: nat, n: nat, who: Address)
    requires n <= |trace| && |states| == |trace| + 1
  {
    exists m: nat :: start <= m < n && Voted(admin, trace, states, m, who)
  }

  predicate Resets(s: Step) {
    s.Configure? || s.Propose? || s.Cancel?
  }

  /** The voters all voted, as owners, since the proposal at `start`, and nothing
      reset the vote in between. */
  ghost predicate Backed(admin: Address, trace: seq<Step>, states: seq<Title>, start: nat, n: nat, newOwner: Address,
      voters: seq<Address>)
    requires |states| == |trace| + 1 && n <= |trace|
  {
    && start < n && trace[start].Propose? && trace[start].newOwner == newOwner
    && (forall m :: start < m < n ==> !Resets(trace[m]))
    && (forall k :: 0 <= k < |voters| ==> VotedSince(admin, trace, states, start, n, voters[k]))
  }

  lemma BackedOn(admin: Address, trace: seq<Step>, states: seq<Title>, start: nat, n: nat, newOwner: Address,
      voters: seq<Address>)
    requires |states| == |trace| + 1 && n < |trace| && Backed(admin, trace, states, start, n, newOwner, voters)
             && !Resets(trace[n])
    ensures Backed(admin, trace, states, start, n + 1, newOwner, voters)
  {
    forall k | 0 <= k < |voters|
      ensures VotedSince(admin, trace, states, start, n + 1, voters[k])
    {
      var m: nat :| start <= m < n && Voted(admin, trace, states, m, voters[k]);
    }
  }

  lemma BackedMore(admin: Address, trace: seq<Step>, states: seq<Title>, start: nat, n: nat, newOwner: Address,
      voters: seq<Address>, who: Address)
    requires |states| == |trace| + 1 && n < |trace| && Backed(admin, trace, states, start, n, newOwner, voters)
    requires trace[n] == Approve(who) && IsOwner(states[n], admin, who)
    ensures Backed(admin, trace, states, start, n + 1, newOwner, voters + [who])
  {
    BackedOn(admin, trace, states, start, n, newOwner, voters);
    assert Voted(admin, trace, states, n, who);
    assert VotedSince(admin, trace, states, start, n + 1, who);
  }

  /** The vote behind a voter: cast by the administrator, the creator at the time,
      or a listed owner, for the proposed new owner. */
  lemma VoteOf(admin: Address, trace: seq<Step>, states: seq<Title>, start: nat, n: nat, newOwner: Address,
      voters: seq<Address>, who: Address)
    returns (m: nat)
    requires |states| == |trace| + 1 && n <= |trace| && Backed(admin, trace, states, start, n, newOwner, voters)
    requires who in voters
    ensures start <= m < n && (trace[m] == Approve(who) || trace[m] == Propose(who, newOwner))
    ensures who == admin || who == states[m].creator
            || (states[m].owners.Some? && who in states[m].owners.value.owners)
  {
    var k :| 0 <= k < |voters| && voters[k] == who;
    m :| start <= m < n && Voted(admin, trace, states, m, voters[k]);
    assert m > start ==> !Resets(trace[m]);
  }

  /** Where a stored transfer comes from. */
  lemma StepPending(t: Title, admin: Address, s: Step)
    requires Apply(t, admin, s).Ok? && Apply(t, admin, s).value.pending.Some?
    ensures var p := Apply(t, admin, s).value.pending.value;
            if s.Propose? then p.newOwner == s.newOwner && p.approvals == [s.proposer] && IsOwner(t, admin, s.proposer)
            else
              && t.pending.Some? && p.newOwner == t.pending.value.newOwner && !Resets(s)
              && if s.Approve? then p.approvals == t.pending.value.approvals + [s.approver]
                && IsOwner(t, admin, s.approver)
                 else p.approvals == t.pending.value.approvals
  {}

  /** Every stored approval goes back to a vote of an owner since the proposal. */
  lemma {:induction false} PendingBacked(admin: Address, trace: seq<Step>, states: seq<Title>, n: nat)
    returns (start: nat)
    requires Run(admin, trace, states) && n <= |trace| && states[n].pending.Some?
    ensures Backed(admin, trace, states, start, n, states[n].pending.value.newOwner, states[n].pending.value.approvals)
  {
    hide Apply, IsOwner;
    assert n > 0;
    var s := trace[n - 1];
    assert Apply(states[n - 1], admin, s) == Ok(states[n]);
    StepPending(states[n - 1], admin, s);
    if s.Propose? {
      start := n - 1;
      assert Voted(admin, trace, states, start, s.proposer);
      assert VotedSince(admin, trace, states, start, n, s.proposer);
    } else {
      hide Backed;
      start := PendingBacked(admin, trace, states, n - 1);
      var p := states[n - 1].pending.value;
      if s.Approve? {
        BackedMore(admin, trace, states, start, n - 1, p.newOwner, p.approvals, s.approver);
      } else {
        BackedOn(admin, trace, states, start, n - 1, p.newOwner, p.approvals);
      }
    }
  }

  /** Only a configuration changes the owner set. */
  lemma {:induction false} OwnersStay(admin: Address, trace: seq<Step>, states: seq<Title>, m: nat, n: nat)
    requires Run(admin, trace, states) && m <= n <= |trace|
    requires forall i :: m <= i < n ==> !trace[i].Configure?
    ensures states[m].owners == states[n].owners
    decreases n - m
  {
    if m < n {
      assert Apply(states[m], admin, trace[m]) == Ok(states[m + 1]);
      OwnersStay(admin, trace, states, m + 1, n);
    }
  }

  /** A deprecated schema stays so, and nothing about its ownership changes again. */
  lemma {:induction false} DeprecatedForGood(admin: Address, trace: seq<Step>, states: seq<Title>, m: nat, n: nat)
    requires Run(admin, trace, states) && m < n <= |trace| && trace[m].Deprecate?
    ensures states[n] == states[m].(deprecated := true)
    decreases n
  {
    assert Apply(states[n - 1], admin, trace[n - 1]) == Ok(states[n]);
    if m < n - 1 { DeprecatedForGood(admin, trace, states, m, n - 1); }
  }

  function Configurations(trace: seq<Step>): nat {
    if trace == [] then 0
    else Configurations(trace[..|trace| - 1]) + if trace[|trace| - 1].Configure? then 1 else 0
  }

  /** The owner set is the one configured last, and its version says how many times
      it was configured, as far as 32 bits go. */
  lemma {:induction false} LastConfigured(admin: Address, trace: seq<Step>, states: seq<Title>, c: nat, n: nat)
    requires Run(admin, trace, states) && c < n <= |trace| && trace[c].Configure?
    requires forall i :: c < i < n ==> !trace[i].Configure?
    ensures states[n].owners ==
            Some(OwnerSet(trace[c].owners, trace[c].threshold, Min(Configurations(trace[..n]), 0xffff_ffff)))
    decreases n
  {
    var s := trace[n - 1];
    assert Apply(states[n - 1], admin, s) == Ok(states[n]);
    assert trace[..n][..n - 1] == trace[..n - 1];
    if c < n - 1 {
      LastConfigured(admin, trace, states, c, n - 1);
    } else {
      VersionAt(admin, trace, states, c);
    }
  }

  lemma {:induction false} VersionAt(admin: Address, trace: seq<Step>, states: seq<Title>, n: nat)
    requires Run(admin, trace, states) && n <= |trace|
    ensures (if states[n].owners.Some? then states[n].owners.value.version else 0) ==
            Min(Configurations(trace[..n]), 0xffff_ffff)
  {
    if n > 0 {
      VersionAt(admin, trace, states, n - 1);
      assert Apply(states[n - 1], admin, trace[n - 1]) == Ok(states[n]);
      assert trace[..n][..n - 1] == trace[..n - 1];
    }
  }

  /** Ownership of a schema with a threshold above 1 moves only by the approval
      that completes `threshold` distinct votes, each cast by an owner since the
      last proposal, all under the owner set in force -- or by the two-step
      claim, which does not consult the owner set. */
  lemma OwnershipMoves(admin: Address, trace: seq<Step>, states: seq<Title>, n: nat)
    returns (start: nat, voters: seq<Address>)
    requires Run(admin, trace, states) && n < |trace|
    requires states[n].owners.Some? && states[n].owners.value.threshold > 1
    requires states[n + 1].creator != states[n].creator && !trace[n].Claim?
    ensures trace[n].Approve? && Distinct(voters) && |voters| == states[n].owners.value.threshold
    ensures Backed(admin, trace, states, start, n + 1, states[n + 1].creator, voters)
    ensures forall m :: start <= m <= n ==> states[m].owners == states[n].owners
    ensures forall who :: who in voters ==>
              exists m :: start <= m <= n
                          && (trace[m] == Approve(who) || trace[m] == Propose(who, states[n + 1].creator))
                          && (who == admin || who == states[m].creator || who in states[n].owners.value.owners)
  {
    var t, s := states[n], trace[n];
    assert Apply(t, admin, s) == Ok(states[n + 1]);
    RunPendingOk(admin, trace, states, n);
    start := PendingBacked(admin, trace, states, n);
    voters := t.pending.value.approvals + [s.approver];
    BackedMore(admin, trace, states, start, n, t.pending.value.newOwner, t.pending.value.approvals, s.approver);
    forall m | start <= m <= n ensures states[m].owners == states[n].owners {
      OwnersStay(admin, trace, states, m, n);
    }
    hide Apply, Run, PendingOk;
    forall who | who in voters
      ensures exists m :: start <= m <= n
                          && (trace[m] == Approve(who) || trace[m] == Propose(who, states[n + 1].creator))
                          && (who == admin || who == states[m].creator || who in states[n].owners.value.owners)
    {
      var m := VoteOf(admin, trace, states, start, n + 1, states[n + 1].creator, voters, who);
      assert states[m].owners == states[n].owners;
    }
  }

  /** The threshold can be bypassed: with two owners and threshold 2, the creator
      alone offers the schema and the other side claims it. */
  lemma ClaimBypassesThreshold(admin: Address, creator: Address, other: Address, taker: Address)
    requires creator != other && taker != creator
    ensures var trace := [Configure(creator, [creator, other], 2), Offer(taker), Claim];
            exists states: seq<Title> :: Run(admin, trace, states) && states[0].creator == creator
                             && states[2].owners == Some(OwnerSet([creator, other], 2, 1)) && states[3].creator == taker
  {
    var trace := [Configure(creator, [creator, other], 2), Offer(taker), Claim];
    var t0 := Registered(creator);
    var t1 := t0.(owners := Some(OwnerSet([creator, other], 2, 1)));
    var t2 := t1.(offer := Some(taker));
    var t3 := t2.(creator := taker, offer := None);
    var states := [t0, t1, t2, t3];
    assert Apply(states[0], admin, trace[0]) == Ok(states[1]);
    assert Apply(states[1], admin, trace[1]) == Ok(states[2]);
    assert Apply(states[2], admin, trace[2]) == Ok(states[3]);
    assert Run(admin, trace, states);
  }

  /** It can be lowered: any member of a 2-of-2 set alone installs a set of its own
      and hands the schema over, without a claim. */
  lemma ReconfigurationBypassesThreshold(admin: Address, creator: Address, other: Address, taker: Address)
    requires creator != other && taker != creator
    ensures var trace := [Configure(creator, [creator, other], 2), Configure(other, [other], 1), Propose(other, taker)];
            exists states: seq<Title> :: Run(admin, trace, states) && states[0].creator == creator
                             && states[1].owners == Some(OwnerSet([creator, other], 2, 1)) && states[3].creator == taker
  {
    var trace := [Configure(creator, [creator, other], 2), Configure(other, [other], 1), Propose(other, taker)];
    var t0 := Registered(creator);
    var t1 := t0.(owners := Some(OwnerSet([creator, other], 2, 1)));
    var t2 := t0.(owners := Some(OwnerSet([other], 1, 2)));
    var states := [t0, t1, t2, t2.(creator := taker)];
    assert Apply(states[0], admin, trace[0]) == Ok(states[1]);
    assert Apply(states[1], admin, trace[1]) == Ok(states[2]);
    assert Apply(states[2], admin, trace[2]) == Ok(states[3]);
    assert Run(admin, trace, states);
  }

  /** Whatever the threshold, an address alone can hand a schema to anyone else by
      installing a set of its own first, exactly when it is an owner of a schema
      that is not deprecated. */
  lemma OneOwnerSuffices(t: Title, admin: Address, who: Address, taker: Address)
    requires taker != t.creator
    ensures var lowered := Apply(t, admin, Configure(who, [who], 1));
            (lowered.Ok? && Apply(lowered.value, admin, Propose(who, taker)).Ok?) <==>
            !t.deprecated && (who == admin || who == t.creator || (t.owners.Some? && who in t.owners.value.owners))
    ensures var lowered := Apply(t, admin, Configure(who, [who], 1));
            lowered.Ok? ==> Apply(lowered.value, admin, Propose(who, taker)) == Ok(lowered.value.(creator := taker))
  {}

  /** Over a stretch without configurations and claims the threshold holds: a
      schema that changed hands did so last by the approval that completed as
      many distinct owners' votes as the threshold asks for. */
  lemma {:induction false} ThresholdHolds(admin: Address, trace: seq<Step>, states: seq<Title>, m: nat, n: nat)
    returns (at: nat, start: nat, voters: seq<Address>)
    requires Run(admin, trace, states) && m <= n <= |trace|
    requires states[m].owners.Some? && states[m].owners.value.threshold > 1
    requires forall i :: m <= i < n ==> !trace[i].Configure? && !trace[i].Claim?
    requires states[n].creator != states[m].creator
    ensures m <= at < n && trace[at].Approve? && states[at + 1].creator == states[n].creator
    ensures Distinct(voters) && |voters| == states[m].owners.value.threshold
    ensures Backed(admin, trace, states, start, at + 1, states[n].creator, voters)
    ensures forall who :: who in voters ==>
              exists v :: start <= v <= at && (trace[v] == Approve(who) || trace[v] == Propose(who, states[n].creator))
                          && (who == admin || who == states[v].creator || who in states[m].owners.value.owners)
    decreases n
  {
    hide Apply, Backed;
    OwnersStay(admin, trace, states, m, n - 1);
    if states[n].creator == states[n - 1].creator {
      at, start, voters := ThresholdHolds(admin, trace, states, m, n - 1);
    } else {
      at := n - 1;
      start, voters := OwnershipMoves(admin, trace, states, at);
    }
  }

  /** With a threshold above 1, one step can move ownership exactly when it is a
      claim of a standing offer to someone else, or the last missing approval of
      a transfer to someone else. */
  lemma MovesExactly(t: Title, admin: Address, s: Step)
    requires PendingOk(t) && t.owners.Some? && t.owners.value.threshold > 1
    ensures Apply(t, admin, s).Ok? && Apply(t, admin, s).value.creator != t.creator <==>
            && !t.deprecated
            && ((s.Claim? && t.offer.Some? && t.offer.value != t.creator)
                || (s.Approve? && t.pending.Some? && |t.pending.value.approvals| + 1 == t.owners.value.threshold
                    && (s.approver == admin || s.approver == t.creator || s.approver in t.owners.value.owners)
                    && s.approver !in t.pending.value.approvals && t.pending.value.newOwner != t.creator))
  {}

  // ---------------------------------------------------------------- the calls

  datatype Status = Status(newOwner: Address, approvals: nat, threshold: nat, executed: bool)

  /** `members_contain` */
  method MembersContain(members: seq<Address>, needle: Address) returns (found: bool)
    ensures found <==> needle in members
  {
    var index := 0;
    while index < |members|
      invariant 0 <= index <= |members|
      invariant needle !in members[..index]
    {
      if members[index] == needle {
        return true;
      }
      index := index + 1;
    }
    return false;
  }

  /** `validate_owner_set` */
  method ValidateOwnerSet(owners: seq<Address>, threshold: nat) returns (e: Option<Error>)
    ensures e == OwnerSetError(owners, threshold)
    ensures e == Or(When(|owners| == 0 || |owners| > 10, LimitExceeded),
                    When(!(1 <= threshold <= |owners|)
                         || exists i, j :: 0 <= i < j < |owners| && owners[i] == owners[j], InvalidValue))
  {
    if |owners| == 0 || |owners| > MAX_OWNER_SET {
      return Some(LimitExceeded);
    }
    if threshold == 0 || threshold > |owners| {
      return Some(InvalidValue);
    }
    var seen := [];
    var index := 0;
    while index < |owners|
      invariant 0 <= index <= |owners|
      invariant seen == owners[..index] && Distinct(seen)
    {
      var repeated := MembersContain(seen, owners[index]);
      if repeated {
        return Some(InvalidValue);
      }
      seen := seen + [owners[index]];
      index := index + 1;
    }
    return None;
  }

  /** The registry's ownership keys. */
  datatype Book = Book(creators: map<Uid, Address>, ownerSets: map<Uid, OwnerSet>, pendings: map<Uid, Pending>,
                       offers: map<Uid, Address>, deprecated: set<Uid>)

  function TitleIn(b: Book, uid: Uid): Option<Title> {
    if uid in b.creators
    then Some(Title(b.creators[uid], Get(b.ownerSets, uid), Get(b.pendings, uid), Get(b.offers, uid),
      uid in b.deprecated))
    else None
  }

  /** Nothing is stored about an unregistered schema. */
  predicate Tidy(b: Book) {
    && b.ownerSets.Keys <= b.creators.Keys && b.pendings.Keys <= b.creators.Keys
    && b.offers.Keys <= b.creators.Keys && b.deprecated <= b.creators.Keys
  }

  ghost predicate Apart(b: Book, c: Book, uid: Uid) {
    forall u :: u != uid ==> TitleIn(c, u) == TitleIn(b, u)
  }

  lemma ApartOn(a: Book, b: Book, c: Book, uid: Uid)
    requires Apart(a, b, uid) && Apart(b, c, uid)
    ensures Apart(a, c, uid)
  {
    hide TitleIn;
  }

  /** The call took the book from `b` to `c`: it did exactly what `Apply` says to
      the schema it names, and nothing to any other. */
  ghost predicate Performed(admin: Address, b: Book, c: Book, uid: Uid, s: Step, e: Option<Error>) {
    match TitleIn(b, uid)
    case None => e == Some(SchemaNotFound) && c == b
    case Some(t) =>
      match Apply(t, admin, s)
      case Ok(t1) => e == None && TitleIn(c, uid) == Some(t1) && Apart(b, c, uid)
      case Err(x) => e == Some(x) && c == b
  }

  /** A call of the owner set that goes through was made by the administrator, the
      creator or a listed owner of a schema that is not deprecated. */
  lemma ByOwner(admin: Address, b: Book, c: Book, uid: Uid, s: Step, who: Address)
    requires Performed(admin, b, c, uid, s, None)
    requires s.Configure? || s.Propose? || s.Approve? || s.Cancel?
    requires who == match s { case Configure(a, _, _) => a case Propose(a, _) => a case Approve(a) => a
                              case Cancel(a) => a case _ => who }
    ensures uid in b.creators && uid !in b.deprecated
    ensures who == admin || who == b.creators[uid] || (uid in b.ownerSets && who in b.ownerSets[uid].owners)
  {
    OwnerCallReports(TitleIn(b, uid).value, admin, s);
    hide Apply;
  }

  /** Each stored title is the last state of a run since registration. */
  ghost predicate Recorded(admin: Address, b: Book, traces: map<Uid, seq<Step>>, states: map<Uid, seq<Title>>) {
    forall u :: TitleIn(b, u).Some? ==>
      && u in traces && u in states && Run(admin, traces[u], states[u])
      && states[u][|traces[u]|] == TitleIn(b, u).value
  }

  lemma RunOn(admin: Address, trace: seq<Step>, states: seq<Title>, s: Step, t: Title)
    requires Run(admin, trace, states) && Apply(states[|trace|], admin, s) == Ok(t)
    ensures Run(admin, trace + [s], states + [t])
  {
    hide Apply;
    forall i | 0 <= i < |trace + [s]|
      ensures Apply((states + [t])[i], admin, (trace + [s])[i]) == Ok((states + [t])[i + 1])
    {
      assert i < |trace| ==> (trace + [s])[i] == trace[i];
    }
  }

  lemma RecordedOn(admin: Address, b: Book, c: Book, traces: map<Uid, seq<Step>>, states: map<Uid, seq<Title>>,
      uid: Uid, s: Step)
    requires Recorded(admin, b, traces, states) && Performed(admin, b, c, uid, s, None) && TitleIn(c, uid).Some?
    ensures uid in traces && uid in states
    ensures Recorded(admin, c, traces[uid := traces[uid] + [s]], states[uid := states[uid] + [TitleIn(c, uid).value]])
  {
    hide Apply, TitleIn;
    RunOn(admin, traces[uid], states[uid], s, TitleIn(c, uid).value);
  }

  lemma RecordedPendingOk(admin: Address, b: Book, traces: map<Uid, seq<Step>>, states: map<Uid, seq<Title>>, uid: Uid)
    requires Recorded(admin, b, traces, states) && TitleIn(b, uid).Some?
    ensures PendingOk(TitleIn(b, uid).value)
  {
    hide PendingOk;
    RunPendingOk(admin, traces[uid], states[uid], |traces[uid]|);
  }

  /** `traces` and `states` record the committed calls on each schema. */
  class Owners {
    const admin: Address
    var book: Book
    ghost var traces: map<Uid, seq<Step>>
    ghost var states: map<Uid, seq<Title>>

    ghost predicate Valid()
      reads this
    {
      Tidy(book) && Recorded(admin, book, traces, states)
    }

    constructor (admin: Address)
      ensures Valid() && book.creators == map[] && this.admin == admin
    {
      this.admin := admin;
      book := Book(map[], map[], map[], map[], {});
      traces, states := map[], map[];
    }

    /** Registration stores the creator and nothing else about ownership. */
    method Register(uid: Uid, owner: Address)
      requires Valid() && uid !in book.creators
      modifies this
      ensures Valid() && TitleIn(book, uid) == Some(Registered(owner)) && Apart(old(book), book, uid)
      ensures book == old(book).(creators := old(book).creators[uid := owner])
    {
      book := book.(creators := book.creators[uid := owner]);
      traces, states := traces[uid := []], states[uid := [Registered(owner)]];
    }

    ghost method Log(was: Book, uid: Uid, s: Step)
      requires Recorded(admin, was, traces, states) && Performed(admin, was, book, uid, s, None)
               && TitleIn(book, uid).Some?
      modifies `traces, `states
      ensures Recorded(admin, book, traces, states)
    {
      RecordedOn(admin, was, book, traces, states, uid, s);
      traces, states := traces[uid := traces[uid] + [s]], states[uid := states[uid] + [TitleIn(book, uid).value]];
    }

    method ActsFor(uid: Uid, who: Address) returns (b: bool)
      requires uid in book.creators
      ensures b <==> IsOwner(TitleIn(book, uid).value, admin, who)
      ensures b <==> who == admin || who == book.creators[uid]
                     || (uid in book.ownerSets && who in book.ownerSets[uid].owners)
    {
      if uid in book.ownerSets {
        b := MembersContain(book.ownerSets[uid].owners, who);
        if b { return; }
      }
      b := book.creators[uid] == who || admin == who;
    }

    /** `configure_owner_set` */
    method ConfigureOwnerSet(uid: Uid, authorizer: Address, owners: seq<Address>, threshold: nat)
      returns (r: Result<OwnerSet, Error>)
      requires Valid()
      modifies this
      ensures Valid() && Performed(admin, old(book), book, uid, Configure(authorizer, owners, threshold), ErrorOf(r))
      ensures r.Ok? ==> Get(book.ownerSets, uid) == Some(r.value)
      ensures r.Ok? ==> r.value.owners == owners && r.value.threshold == threshold && uid !in book.pendings
      ensures r.Ok? ==>
                && uid in old(book).creators && uid !in old(book).deprecated
                && (authorizer == admin || authorizer == old(book).creators[uid]
                    || (uid in old(book).ownerSets && authorizer in old(book).ownerSets[uid].owners))
    {
      if uid !in book.creators { return Err(SchemaNotFound); }
      if uid in book.deprecated { return Err(InvalidSchema); }
      var allowed := ActsFor(uid, authorizer);
      if !allowed { return Err(Unauthorized); }
      var e := ValidateOwnerSet(owners, threshold);
      if e.Some? { return Err(e.value); }
      ghost var title := TitleIn(book, uid).value;
      assert !title.deprecated && title.owners == Get(book.ownerSets, uid);
      hide Recorded, Tidy, Apart, TitleIn, IsOwner, OwnerSetError;
      var version := if uid in book.ownerSets then SatAdd(book.ownerSets[uid].version, 1, U32_MAX) else 1;
      var installed := OwnerSet(owners, threshold, version);
      Install(uid, installed);
      Log(old(book), uid, Configure(authorizer, owners, threshold));
      ByOwner(admin, old(book), book, uid, Configure(authorizer, owners, threshold), authorizer);
      return Ok(installed);
    }

    /** Stores an owner set and drops the pending transfer. */
    method Install(uid: Uid, installed: OwnerSet)
      requires Tidy(book) && TitleIn(book, uid).Some?
      modifies `book
      ensures Tidy(book) && Apart(old(book), book, uid)
      ensures TitleIn(book, uid) == Some(TitleIn(old(book), uid).value.(owners := Some(installed), pending := None))
      ensures Get(book.ownerSets, uid) == Some(installed) && uid !in book.pendings
    {
      book := book.(ownerSets := book.ownerSets[uid := installed], pendings := book.pendings - {uid});
    }

    /** Stores or replaces the pending transfer. */
    method SetPending(uid: Uid, pending: Pending)
      requires Tidy(book) && TitleIn(book, uid).Some?
      modifies `book
      ensures Tidy(book) && Apart(old(book), book, uid)
      ensures TitleIn(book, uid) == Some(TitleIn(old(book), uid).value.(pending := Some(pending)))
    {
      book := book.(pendings := book.pendings[uid := pending]);
    }

    /** `finalize_ownership_transfer` */
    method Finalize(uid: Uid, newOwner: Address)
      requires Tidy(book) && TitleIn(book, uid).Some?
      modifies `book
      ensures Tidy(book) && Apart(old(book), book, uid)
      ensures TitleIn(book, uid) == Some(TitleIn(old(book), uid).value.(creator := newOwner, pending := None))
    {
      book := book.(creators := book.creators[uid := newOwner], pendings := book.pendings - {uid});
    }

    /** `propose_ownership_transfer` */
    method ProposeOwnershipTransfer(uid: Uid, proposer: Address, newOwner: Address) returns (r: Result<Status, Error>)
      requires Valid()
      modifies this
      ensures Valid() && Performed(admin, old(book), book, uid, Propose(proposer, newOwner), ErrorOf(r))
      ensures r.Ok? ==>
                && TitleIn(book, uid).Some?
                && r.value == Status(newOwner, 1, Threshold(TitleIn(book, uid).value),
                                     TitleIn(book, uid).value.creator == newOwner)
      ensures r.Ok? ==>
                && uid in old(book).creators && uid !in old(book).deprecated
                && (proposer == admin || proposer == old(book).creators[uid]
                    || (uid in old(book).ownerSets && proposer in old(book).ownerSets[uid].owners))
    {
      if uid !in book.creators { return Err(SchemaNotFound); }
      if uid in book.deprecated { return Err(InvalidSchema); }
      var allowed := ActsFor(uid, proposer);
      if !allowed { return Err(Unauthorized); }
      if book.creators[uid] == newOwner { return Err(InvalidValue); }
      ghost var title := TitleIn(book, uid).value;
      assert !title.deprecated && title.creator != newOwner;
      hide Recorded, Tidy, Apart, TitleIn, IsOwner;
      var threshold, version := Threshold(TitleIn(book, uid).value), Version(TitleIn(book, uid).value);
      var executed := threshold <= 1;
      if executed {
        Finalize(uid, newOwner);
      } else {
        SetPending(uid, Pending(version, newOwner, [proposer]));
      }
      Log(old(book), uid, Propose(proposer, newOwner));
      ByOwner(admin, old(book), book, uid, Propose(proposer, newOwner), proposer);
      return Ok(Status(newOwner, 1, threshold, executed));
    }

    /** `record_approval` */
    method RecordApproval(uid: Uid, approver: Address) returns (r: Result<Pending, Error>)
      requires Tidy(book) && TitleIn(book, uid).Some?
      modifies `book
      ensures Tidy(book) && r == Approved(TitleIn(old(book), uid).value, admin, approver)
      ensures r.Ok? ==> Apart(old(book), book, uid)
      ensures r.Ok? ==> TitleIn(book, uid) == Some(TitleIn(old(book), uid).value.(pending := Some(r.value)))
      ensures r.Err? ==> book == old(book)
    {
      if uid !in book.pendings { return Err(SchemaNotFound); }
      var pending := book.pendings[uid];
      if pending.version != Version(TitleIn(book, uid).value) { return Err(Unauthorized); }
      var allowed := ActsFor(uid, approver);
      if !allowed { return Err(Unauthorized); }
      var repeated := MembersContain(pending.approvals, approver);
      if repeated { return Err(InvalidValue); }
      pending := pending.(approvals := pending.approvals + [approver]);
      SetPending(uid, pending);
      return Ok(pending);
    }

    /** `approve_ownership_transfer`: executes exactly when the approval is the
        one that completes the threshold. */
    method ApproveOwnershipTransfer(uid: Uid, approver: Address) returns (r: Result<Status, Error>)
      requires Valid()
      modifies this
      ensures Valid() && Performed(admin, old(book), book, uid, Approve(approver), ErrorOf(r))
      ensures r.Ok? ==> (r.value.executed <==> r.value.approvals == r.value.threshold) && TitleIn(book, uid).Some?
      ensures r.Ok? ==>
                var title := TitleIn(book, uid).value;
                if r.value.executed then title.creator == r.value.newOwner && title.pending.None?
                else title.pending.Some? && |title.pending.value.approvals| == r.value.approvals
      ensures r.Ok? ==> uid in old(book).pendings && r.value.newOwner == old(book).pendings[uid].newOwner
      ensures r.Ok? ==>
                && uid in old(book).creators && uid !in old(book).deprecated
                && (approver == admin || approver == old(book).creators[uid]
                    || (uid in old(book).ownerSets && approver in old(book).ownerSets[uid].owners))
                && approver !in old(book).pendings[uid].approvals
    {
      if uid !in book.creators { return Err(SchemaNotFound); }
      if uid in book.deprecated { return Err(InvalidSchema); }
      ghost var title := TitleIn(book, uid).value;
      assert !title.deprecated && title.pending == Get(book.pendings, uid);
      RecordedPendingOk(admin, book, traces, states, uid);
      hide Recorded, Tidy, Apart, TitleIn, IsOwner;
      var recorded := RecordApproval(uid, approver);
      if recorded.Err? { return Err(recorded.error); }
      var pending := recorded.value;
      var threshold, collected := Threshold(TitleIn(book, uid).value), |pending.approvals|;
      ghost var voted := book;
      if collected >= threshold {
        Finalize(uid, pending.newOwner);
        ApartOn(old(book), voted, book, uid);
      }
      Log(old(book), uid, Approve(approver));
      ByOwner(admin, old(book), book, uid, Approve(approver), approver);
      return Ok(Status(pending.newOwner, collected, threshold, collected >= threshold));
    }

    /** `cancel_ownership_transfer` */
    method CancelOwnershipTransfer(uid: Uid, canceller: Address) returns (e: Option<Error>)
      requires Valid()
      modifies this
      ensures Valid() && Performed(admin, old(book), book, uid, Cancel(canceller), e)
      ensures e.None? ==>
                && uid in old(book).creators && uid !in old(book).deprecated
                && (canceller == admin || canceller == old(book).creators[uid]
                    || (uid in old(book).ownerSets && canceller in old(book).ownerSets[uid].owners))
    {
      if uid !in book.creators { return Some(SchemaNotFound); }
      if uid in book.deprecated { return Some(InvalidSchema); }
      var allowed := ActsFor(uid, canceller);
      if !allowed { return Some(Unauthorized); }
      if uid !in book.pendings { return Some(SchemaNotFound); }
      book := book.(pendings := book.pendings - {uid});
      Log(old(book), uid, Cancel(canceller));
      ByOwner(admin, old(book), book, uid, Cancel(canceller), canceller);
      return None;
    }

    /** `transfer_schema_ownership` */
    method TransferSchemaOwnership(uid: Uid, newOwner: Address) returns (e: Option<Error>)
      requires Valid()
      modifies this
      ensures Valid() && Performed(admin, old(book), book, uid, Transfer(newOwner), e)
      ensures e.None? ==> book.creators == old(book).creators[uid := newOwner]
      ensures e.None? ==> uid !in old(book).ownerSets || old(book).ownerSets[uid].threshold <= 1
    {
      if uid !in book.creators { return Some(SchemaNotFound); }
      if uid in book.deprecated { return Some(InvalidSchema); }
      if Threshold(TitleIn(book, uid).value) > 1 { return Some(Unauthorized); }
      book := book.(creators := book.creators[uid := newOwner]);
      Log(old(book), uid, Transfer(newOwner));
      return None;
    }

    /** `claim_schema_ownership` */
    method ClaimSchemaOwnership(uid: Uid) returns (e: Option<Error>)
      requires Valid()
      modifies this
      ensures Valid() && Performed(admin, old(book), book, uid, Claim, e)
      ensures e.None? ==>
                uid in old(book).offers && book.creators == old(book).creators[uid := old(book).offers[uid]]
    {
      if uid !in book.creators { return Some(SchemaNotFound); }
      if uid in book.deprecated { return Some(InvalidSchema); }
      if uid !in book.offers { return Some(Unauthorized); }
      book := book.(creators := book.creators[uid := book.offers[uid]], offers := book.offers - {uid});
      Log(old(book), uid, Claim);
      return None;
    }

    /** `transfer_ownership` */
    method TransferOwnership(sender: Address, uid: Uid, newOwner: Address) returns (e: Option<Error>)
      requires Valid()
      modifies this
      ensures Valid() && Performed(admin, old(book), book, uid, TransferBy(sender, newOwner), e)
      ensures e.None? ==>
                && uid in old(book).creators && (sender == admin || sender == old(book).creators[uid])
                && (uid !in old(book).ownerSets || old(book).ownerSets[uid].threshold <= 1)
                && book.creators == old(book).creators[uid := newOwner]
    {
      if uid !in book.creators || uid in book.deprecated { return Some(SchemaNotFound); }
      if Threshold(TitleIn(book, uid).value) > 1 { return Some(Unauthorized); }
      if book.creators[uid] != sender && admin != sender { return Some(Unauthorized); }
      book := book.(creators := book.creators[uid := newOwner]);
      Log(old(book), uid, TransferBy(sender, newOwner));
      return None;
    }

    /** `propose_schema_owner` */
    method ProposeSchemaOwner(uid: Uid, newOwner: Address) returns (e: Option<Error>)
      requires Valid()
      modifies this
      ensures Valid() && Performed(admin, old(book), book, uid, Offer(newOwner), e)
      ensures e.None? ==> book == old(book).(offers := old(book).offers[uid := newOwner])
    {
      if uid !in book.creators { return Some(SchemaNotFound); }
      if uid in book.deprecated { return Some(InvalidSchema); }
      if book.creators[uid] == newOwner { return Some(InvalidValue); }
      book := book.(offers := book.offers[uid := newOwner]);
      Log(old(book), uid, Offer(newOwner));
      return None;
    }

    /** `cancel_schema_ownership_transfer` */
    method CancelSchemaOwnershipTransfer(uid: Uid) returns (e: Option<Error>)
      requires Valid()
      modifies this
      ensures Valid() && Performed(admin, old(book), book, uid, WithdrawOffer, e)
      ensures e.None? ==> uid in old(book).offers && book == old(book).(offers := old(book).offers - {uid})
    {
      if uid !in book.creators { return Some(SchemaNotFound); }
      if uid in book.deprecated { return Some(InvalidSchema); }
      if uid !in book.offers { return Some(SchemaNotFound); }
      book := book.(offers := book.offers - {uid});
      Log(old(book), uid, WithdrawOffer);
      return None;
    }

    /** `deprecate` */
    method MarkDeprecated(uid: Uid, authorizer: Address) returns (e: Option<Error>)
      requires Valid()
      modifies this
      ensures Valid() && Performed(admin, old(book), book, uid, Deprecate(authorizer), e)
      ensures e.None? ==>
                && uid in old(book).creators && (authorizer == admin || authorizer == old(book).creators[uid])
                && book == old(book).(deprecated := old(book).deprecated + {uid})
    {
      if uid !in book.creators { return Some(SchemaNotFound); }
      if authorizer != admin && book.creators[uid] != authorizer { return Some(Unauthorized); }
      book := book.(deprecated := book.deprecated + {uid});
      Log(old(book), uid, Deprecate(authorizer));
      return None;
    }
  }
}
