/**
 The sliding-window issuance quota: per attester, a bounded list of recent
 issuance ledgers in temporary storage.
 */
module RateLimit {
  import opened Base

  const MAX_QUOTA := 100
  const MAX_WINDOW := 10_000

  /** The entries of `s` that a window of `width` ledgers ending at `now` keeps. */
  function Recent(s: seq<nat>, now: nat, width: nat): seq<nat> {
    if s == [] then []
    else
      var t, kept := s[|s| - 1], Recent(s[..|s| - 1], now, width);
      if now < t + width && t <= now then kept + [t] else kept
  }

  /** How many entries of `s` fall into `[from, to)`. */
  function CountIn(s: seq<nat>, from: nat, to: nat): nat {
    if s == [] then 0
    else CountIn(s[..|s| - 1], from, to) + if from <= s[|s| - 1] < to then 1 else 0
  }

  /** How many fall into the `width` ledgers that end with `now`. */
  function InWindow(s: seq<nat>, now: nat, width: nat): nat {
    CountIn(s, if now < width then 0 else now - width + 1, now + 1)
  }

  /** Counting is counting positions. */
  lemma {:induction false} CountIsCardinality(s: seq<nat>, from: nat, to: nat)
    ensures CountIn(s, from, to) == |set i | 0 <= i < |s| && from <= s[i] < to|
  {
    var all := set i | 0 <= i < |s| && from <= s[i] < to;
    if s == [] {
      assert all == {};
    } else {
      var init, n := s[..|s| - 1], |s| - 1;
      CountIsCardinality(init, from, to);
      var before := set i | 0 <= i < |init| && from <= init[i] < to;
      assert all == if from <= s[n] < to then before + {n} else before;
    }
  }

  predicate NonDecreasing(s: seq<nat>) {
    forall i, j :: 0 <= i < j < |s| ==> s[i] <= s[j]
  }

  /** Every entry was added while its window held fewer than `max`. */
  predicate Paced(s: seq<nat>, max: nat, width: nat) {
    forall j :: 0 <= j < |s| ==> |Recent(s[..j], s[j], width)| < max
  }

  lemma {:induction false} CountBelowRecent(s: seq<nat>, now: nat, width: nat, from: nat)
    requires (forall i :: 0 <= i < |s| ==> s[i] <= now) && now < from + width
    ensures CountIn(s, from, from + width) <= |Recent(s, now, width)|
  {
    if s != [] { CountBelowRecent(s[..|s| - 1], now, width, from); }
  }

  /** What a window keeps is what falls into its last `width` ledgers. */
  lemma {:induction false} RecentIsCount(s: seq<nat>, now: nat, width: nat)
    requires width > 0
    ensures |Recent(s, now, width)| == InWindow(s, now, width)
  {
    if s != [] { RecentIsCount(s[..|s| - 1], now, width); }
  }

  /** No interval of `width` consecutive ledgers holds more than `max` entries. */
  lemma {:induction false} EveryWindow(s: seq<nat>, max: nat, width: nat, from: nat)
    requires NonDecreasing(s) && Paced(s, max, width)
    ensures CountIn(s, from, from + width) <= max
  {
    if s != [] {
      var init, t := s[..|s| - 1], s[|s| - 1];
      assert forall j :: 0 <= j < |init| ==> init[..j] == s[..j];
      EveryWindow(init, max, width, from);
      if from <= t < from + width { CountBelowRecent(init, t, width, from); }
    }
  }

  lemma {:induction false} RecentConcat(a: seq<nat>, b: seq<nat>, now: nat, width: nat)
    ensures Recent(a + b, now, width) == Recent(a, now, width) + Recent(b, now, width)
  {
    if b == [] {
      assert a + b == a;
    } else {
      RecentConcat(a, b[..|b| - 1], now, width);
      assert (a + b)[..|a + b| - 1] == a + b[..|b| - 1];
    }
  }

  /** Trimming at one ledger changes nothing for any later one. */
  lemma {:induction false} RecentTwice(s: seq<nat>, early: nat, late: nat, width: nat)
    requires early <= late && forall i :: 0 <= i < |s| ==> s[i] <= early
    ensures Recent(Recent(s, early, width), late, width) == Recent(s, late, width)
  {
    if s != [] {
      var init, t := s[..|s| - 1], s[|s| - 1];
      RecentTwice(init, early, late, width);
      RecentConcat(Recent(init, early, width), [t], late, width);
      assert Recent([t], late, width) == if late < t + width && t <= late then [t] else [] by { assert [t][..0] == []; }
      assert Recent(init, late, width) + [] == Recent(init, late, width);
    }
  }

  /** Once everything is `width` ledgers old, nothing is left. */
  lemma {:induction false} RecentGone(s: seq<nat>, now: nat, width: nat)
    requires forall i :: 0 <= i < |s| ==> s[i] + width <= now
    ensures Recent(s, now, width) == []
  {
    if s != [] { RecentGone(s[..|s| - 1], now, width); }
  }

  /** The stored list answers like the full record, now and later. */
  ghost predicate Tracks(stored: seq<nat>, full: seq<nat>, since: nat, width: nat) {
    forall now :: now >= since ==> Recent(stored, now, width) == Recent(full, now, width)
  }

  lemma TracksAppend(stored: seq<nat>, full: seq<nat>, now: nat, width: nat)
    requires Recent(stored, now, width) == Recent(full, now, width) && forall i :: 0 <= i < |full| ==> full[i] <= now
    ensures Tracks(Recent(stored, now, width) + [now], full + [now], now, width)
  {
    forall late | late >= now
      ensures Recent(Recent(stored, now, width) + [now], late, width) == Recent(full + [now], late, width)
    {
      RecentTwice(full, now, late, width);
      RecentConcat(Recent(full, now, width), [now], late, width);
      RecentConcat(full, [now], late, width);
    }
  }

  /** Accepted issuances of one attester, as ledgers. */
  function LedgersOf(accepted: seq<(Address, nat)>, a: Address): seq<nat> {
    if accepted == [] then []
    else
      var init, last := LedgersOf(accepted[..|accepted| - 1], a), accepted[|accepted| - 1];
      if last.0 == a then init + [last.1] else init
  }

  /** The issuances of one attester in an interval, counted in the whole record. */
  lemma {:induction false} CountOf(accepted: seq<(Address, nat)>, a: Address, from: nat, to: nat)
    ensures CountIn(LedgersOf(accepted, a), from, to) ==
            |set i | 0 <= i < |accepted| && accepted[i].0 == a && from <= accepted[i].1 < to|
  {
    var all := set i | 0 <= i < |accepted| && accepted[i].0 == a && from <= accepted[i].1 < to;
    if accepted == [] {
      assert all == {};
    } else {
      hide CountIn;
      var init, last := accepted[..|accepted| - 1], accepted[|accepted| - 1];
      CountOf(init, a, from, to);
      PlacesSnoc(accepted, a, from, to);
      CountSnoc(LedgersOf(init, a), last.1, from, to);
    }
  }

  lemma PlacesSnoc(accepted: seq<(Address, nat)>, a: Address, from: nat, to: nat)
    requires accepted != []
    ensures var init, last := accepted[..|accepted| - 1], accepted[|accepted| - 1];
            |set i | 0 <= i < |accepted| && accepted[i].0 == a && from <= accepted[i].1 < to| ==
            |set i | 0 <= i < |init| && init[i].0 == a && from <= init[i].1 < to|
            + if last.0 == a && from <= last.1 < to then 1 else 0
  {
    var init, n := accepted[..|accepted| - 1], |accepted| - 1;
    var all := set i | 0 <= i < |accepted| && accepted[i].0 == a && from <= accepted[i].1 < to;
    var before := set i | 0 <= i < |init| && init[i].0 == a && from <= init[i].1 < to;
    assert all == if accepted[n].0 == a && from <= accepted[n].1 < to then before + {n} else before;
  }

  lemma CountSnoc(s: seq<nat>, t: nat, from: nat, to: nat)
    ensures CountIn(s + [t], from, to) == CountIn(s, from, to) + if from <= t < to then 1 else 0
  {
    assert (s + [t])[..|s|] == s;
  }

  /** Those in the window that ends with `now`, if none is later. */
  lemma WindowOf(accepted: seq<(Address, nat)>, a: Address, last: nat, now: nat, width: nat)
    requires NoneAfter(accepted, last) && last <= now && width > 0
    ensures InWindow(LedgersOf(accepted, a), now, width) ==
            |set i | 0 <= i < |accepted| && accepted[i].0 == a && now < accepted[i].1 + width|
  {
    var from := if now < width then 0 else now - width + 1;
    CountOf(accepted, a, from, now + 1);
    assert (set i | 0 <= i < |accepted| && accepted[i].0 == a && from <= accepted[i].1 < now + 1) ==
           (set i | 0 <= i < |accepted| && accepted[i].0 == a && now < accepted[i].1 + width);
  }

  lemma {:induction false} LedgersBelow(accepted: seq<(Address, nat)>, a: Address, now: nat)
    requires forall i :: 0 <= i < |accepted| ==> accepted[i].1 <= now
    ensures forall i :: 0 <= i < |LedgersOf(accepted, a)| ==> LedgersOf(accepted, a)[i] <= now
  {
    if accepted != [] { LedgersBelow(accepted[..|accepted| - 1], a, now); }
  }

  lemma PacedAppend(s: seq<nat>, max: nat, width: nat, now: nat)
    requires NonDecreasing(s) && Paced(s, max, width) && |Recent(s, now, width)| < max
    requires forall i :: 0 <= i < |s| ==> s[i] <= now
    ensures NonDecreasing(s + [now]) && Paced(s + [now], max, width)
  {
    forall j | 0 <= j < |s + [now]|
      ensures |Recent((s + [now])[..j], (s + [now])[j], width)| < max
    {
      assert (s + [now])[..j] == s[..j];
      if j == |s| { assert s[..j] == s; }
    }
  }

  /** The filtering loop. Subtraction saturates at ledger 0. */
  method Trim(prior: seq<nat>, now: nat, width: nat) returns (recent: seq<nat>)
    requires width > 0
    ensures recent == Recent(prior, now, width)
  {
    var oldest := Max(0, now - (width - 1));
    recent := [];
    for i := 0 to |prior|
      invariant recent == Recent(prior[..i], now, width)
    {
      assert prior[..i + 1][..i] == prior[..i];
      if oldest <= prior[i] <= now { recent := recent + [prior[i]]; }
    }
    assert prior[..|prior|] == prior;
  }

  ghost predicate AttesterOk(full: seq<nat>, stored: seq<nat>, since: nat, max: nat, width: nat) {
    NonDecreasing(full) && Paced(full, max, width) && Tracks(stored, full, since, width)
  }

  lemma Later(full: seq<nat>, stored: seq<nat>, since: nat, now: nat, max: nat, width: nat)
    requires AttesterOk(full, stored, since, max, width) && since <= now
    ensures AttesterOk(full, stored, now, max, width)
  {}

  /** What the quota reads is right even if the host has dropped the entry. */
  lemma ReadEither(full: seq<nat>, stored: seq<nat>, live: bool, since: nat, now: nat, max: nat, width: nat)
    requires AttesterOk(full, stored, since, max, width) && since <= now
    requires !live ==> Elapsed(full, width, now)
    ensures Recent(if live then stored else [], now, width) == Recent(full, now, width)
  {
    if !live { RecentGone(full, now, width); }
  }

  lemma AttesterIssues(full: seq<nat>, stored: seq<nat>, now: nat, max: nat, width: nat)
    requires NonDecreasing(full) && Paced(full, max, width) && forall i :: 0 <= i < |full| ==> full[i] <= now
    requires Recent(stored, now, width) == Recent(full, now, width) && |Recent(full, now, width)| < max
    ensures AttesterOk(full + [now], Recent(stored, now, width) + [now], now, max, width)
  {
    PacedAppend(full, max, width, now);
    TracksAppend(stored, full, now, width);
  }

  ghost predicate NoneAfter(accepted: seq<(Address, nat)>, ledger: nat) {
    forall i :: 0 <= i < |accepted| ==> accepted[i].1 <= ledger
  }

  lemma NoneAfterSnoc(accepted: seq<(Address, nat)>, before: nat, now: nat, a: Address)
    requires NoneAfter(accepted, before) && before <= now
    ensures NoneAfter(accepted, now) && NoneAfter(accepted + [(a, now)], now)
  {}

  /** Every issuance is at least a window old. */
  ghost predicate Elapsed(full: seq<nat>, width: nat, now: nat) {
    forall i :: 0 <= i < |full| ==> full[i] + width <= now
  }

  /** The stored histories serve every attester right from ledger `since` on. */
  ghost predicate AllOk(accepted: seq<(Address, nat)>, history: map<Address, seq<nat>>, since: nat, max: nat,
      width: nat) {
    forall a :: AttesterOk(LedgersOf(accepted, a), Get(history, a).GetOr([]), since, max, width)
  }

  lemma AllLater(accepted: seq<(Address, nat)>, history: map<Address, seq<nat>>, since: nat, now: nat, max: nat,
      width: nat)
    requires AllOk(accepted, history, since, max, width) && since <= now
    ensures AllOk(accepted, history, now, max, width)
  {
    hide AttesterOk, LedgersOf;
    forall a ensures AttesterOk(LedgersOf(accepted, a), Get(history, a).GetOr([]), now, max, width) {
      Later(LedgersOf(accepted, a), Get(history, a).GetOr([]), since, now, max, width);
    }
  }

  lemma LedgersSnoc(accepted: seq<(Address, nat)>, attester: Address, now: nat, a: Address)
    ensures LedgersOf(accepted + [(attester, now)], a) ==
            if a == attester then LedgersOf(accepted, a) + [now] else LedgersOf(accepted, a)
  {
    assert (accepted + [(attester, now)])[..|accepted|] == accepted;
  }

  lemma IssuerOk(accepted: seq<(Address, nat)>, stored: seq<nat>, now: nat, max: nat, width: nat,
                 attester: Address, prior: seq<nat>)
    requires AttesterOk(LedgersOf(accepted, attester), stored, now, max, width) && NoneAfter(accepted, now)
    requires Recent(prior, now, width) == Recent(LedgersOf(accepted, attester), now, width)
    requires |Recent(prior, now, width)| < max
    ensures AttesterOk(LedgersOf(accepted + [(attester, now)], attester), Recent(prior, now, width) + [now], now, max,
            width)
  {
    LedgersBelow(accepted, attester, now);
    LedgersSnoc(accepted, attester, now, attester);
    hide LedgersOf, Recent, NonDecreasing, Paced, Tracks;
    AttesterIssues(LedgersOf(accepted, attester), prior, now, max, width);
  }

  /** Recording an issuance keeps every attester's record right. */
  lemma AllIssued(accepted: seq<(Address, nat)>, history: map<Address, seq<nat>>, now: nat, max: nat, width: nat,
                  attester: Address, prior: seq<nat>)
    requires AllOk(accepted, history, now, max, width) && NoneAfter(accepted, now)
    requires Recent(prior, now, width) == Recent(LedgersOf(accepted, attester), now, width)
    requires |Recent(prior, now, width)| < max
    ensures AllOk(accepted + [(attester, now)], history[attester := Recent(prior, now, width) + [now]], now, max, width)
  {
    hide AttesterOk, Recent, LedgersOf, NoneAfter;
    var accepted', history' := accepted + [(attester, now)], history[attester := Recent(prior, now, width) + [now]];
    forall a ensures AttesterOk(LedgersOf(accepted', a), Get(history', a).GetOr([]), now, max, width) {
      assert AttesterOk(LedgersOf(accepted, a), Get(history, a).GetOr([]), now, max, width);
      if a == attester {
        IssuerOk(accepted, Get(history, a).GetOr([]), now, max, width, a, prior);
      } else {
        LedgersSnoc(accepted, attester, now, a);
      }
    }
  }

  class Limiter {
    /** `(max_issuances, window)`; absent means no limit. */
    const limit: Option<(nat, nat)>
    const exempt: set<Address>
    /** Temporary storage: the host may drop an entry once it has expired. */
    var history: map<Address, seq<nat>>
    /** Issuances that passed the quota, with the ledger they happened in. */
    ghost var accepted: seq<(Address, nat)>
    ghost var ledger: nat

    ghost predicate Valid()
      reads this
    {
      && NoneAfter(accepted, ledger)
      && (limit.Some? ==>
            && 1 <= limit.value.0 <= MAX_QUOTA && 1 <= limit.value.1 <= MAX_WINDOW
            && AllOk(accepted, history, ledger, limit.value.0, limit.value.1))
    }

    constructor (limit: Option<(nat, nat)>, exempt: set<Address>)
      requires limit.Some? ==> 1 <= limit.value.0 <= MAX_QUOTA && 1 <= limit.value.1 <= MAX_WINDOW
      ensures Valid() && accepted == [] && this.limit == limit && this.exempt == exempt
    {
      this.limit, this.exempt := limit, exempt;
      history, accepted, ledger := map[], [], 0;
    }

    /** `consume_issuance_quota` at ledger `now`. `live` says whether the host
        still has the attester's entry: it may be gone once every recorded
        issuance is at least a window old. The verdict does not depend on it. */
    method Consume(attester: Address, now: nat, live: bool) returns (ok: bool)
      requires Valid() && ledger <= now
      requires !live && limit.Some? ==> Elapsed(LedgersOf(accepted, attester), limit.value.1, now)
      modifies this
      ensures Valid() && ledger == now
      ensures limit.None? || attester in exempt ==> ok && accepted == old(accepted)
      ensures limit.Some? && attester !in exempt ==>
                && (ok <==> |set i | 0 <= i < |old(accepted)| && old(accepted)[i].0 == attester
                                     && now < old(accepted)[i].1 + limit.value.1| < limit.value.0)
                && accepted == if ok then old(accepted) + [(attester, now)] else old(accepted)
      ensures !ok ==> history == old(history)
    {
      ghost var full, stored := LedgersOf(accepted, attester), Get(history, attester).GetOr([]);
      assert limit.Some? ==> AttesterOk(full, stored, ledger, limit.value.0, limit.value.1);
      NoneAfterSnoc(accepted, ledger, now, attester);
      if limit.Some? {
        RecentIsCount(full, now, limit.value.1);
        WindowOf(accepted, attester, ledger, now, limit.value.1);
      }
      hide AttesterOk, AllOk, Recent, LedgersOf, NoneAfter, Elapsed, InWindow;
      ghost var before := ledger;
      ledger := now;
      if limit.None? { return true; }
      var (max, window) := limit.value;
      AllLater(accepted, history, before, now, max, window);
      if attester in exempt { return true; }
      var prior := if live && attester in history then history[attester] else [];
      ReadEither(full, stored, live, before, now, max, window);
      var recent := Trim(prior, now, window);
      if |recent| >= max { return false; }
      AllIssued(accepted, history, now, max, window, attester, prior);
      history := history[attester := recent + [now]];
      accepted := accepted + [(attester, now)];
      ok := true;
    }

    /** In every run, every interval of `window` ledgers holds at most
        `max_issuances` accepted issuances of a limited attester. */
    lemma QuotaHolds(a: Address, from: nat)
      requires Valid() && limit.Some?
      ensures |set i | 0 <= i < |accepted| && accepted[i].0 == a && from <= accepted[i].1 < from + limit.value.1|
              <= limit.value.0
    {
      CountOf(accepted, a, from, from + limit.value.1);
      assert AttesterOk(LedgersOf(accepted, a), Get(history, a).GetOr([]), ledger, limit.value.0, limit.value.1);
      EveryWindow(LedgersOf(accepted, a), limit.value.0, limit.value.1, from);
    }
  }
}
