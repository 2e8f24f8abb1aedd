/**
 The indexer contract: mutable storage, the insertion entry point with its
 idempotency record, the status callbacks and the public readers.
 */
module Indexer {
  import opened Base
  import opened Chunks
  import opened IndexLog
  import opened ReverseWalk

  datatype IndexError = DuplicateAttestation

  /** A call that can reach the contract between two reads. */
  datatype Call = Index(uid: Uid, meta: IndexRecord) | HandleRevoke(uid: Uid) | HandleReplace(oldUid: Uid)

  /** The log after one more call: retries and conflicts leave it alone. */
  function Recorded(log: seq<Entry>, uid: Uid, meta: IndexRecord): seq<Entry> {
    if exists e :: e in log && e.uid == uid then log else log + [Entry(uid, meta)]
  }

  function RecordedAll(log: seq<Entry>, calls: seq<Call>): seq<Entry> {
    if calls == [] then log
    else
      var before := RecordedAll(log, calls[..|calls| - 1]);
      var last := calls[|calls| - 1];
      if last.Index? then Recorded(before, last.uid, last.meta) else before
  }

  lemma {:induction false} RecordedConcat(log: seq<Entry>, a: seq<Call>, b: seq<Call>)
    ensures RecordedAll(log, a + b) == RecordedAll(RecordedAll(log, a), b)
  {
    if b == [] {
      assert a + b == a;
    } else {
      RecordedConcat(log, a, b[..|b| - 1]);
      assert (a + b)[..|a + b| - 1] == a + b[..|b| - 1];
    }
  }

  /** The log only ever grows at its end, by at most one entry a call. */
  lemma {:induction false} RecordedGrows(log: seq<Entry>, calls: seq<Call>)
    ensures log <= RecordedAll(log, calls) && |RecordedAll(log, calls)| <= |log| + |calls|
  {
    if calls != [] { RecordedGrows(log, calls[..|calls| - 1]); }
  }

  /** A logged entry is listed under the four keys of its metadata only. */
  lemma FiledUnderFour(log: seq<Entry>, uid: Uid, meta: IndexRecord)
    ensures forall d :: History(log + [Entry(uid, meta)], d) == (
              if d == Recipient(meta.recipient) || d == Schema(meta.schema) || d == Attester(meta.attester)
                 || d == Expiry(if meta.expirationTime == 0 then Perpetual else Expiring)
              then History(log, d) + [uid] else History(log, d))
  {
    hide History;
    forall d { HistorySnoc(log, Entry(uid, meta), d); }
  }

  /** The first call that indexes a UID decides what the log says about it. */
  lemma {:induction false} FirstCallCounts(log: seq<Entry>, calls: seq<Call>, i: nat)
    requires i < |calls| && calls[i].Index? && forall e :: e in log ==> e.uid != calls[i].uid
    requires forall j :: 0 <= j < i ==> calls[j].Index? ==> calls[j].uid != calls[i].uid
    ensures Entry(calls[i].uid, calls[i].meta) in RecordedAll(log, calls)
  {
    var init := calls[..|calls| - 1];
    if i < |init| {
      FirstCallCounts(log, init, i);
    } else {
      NotYetIndexed(log, init, calls[i].uid);
    }
  }

  lemma {:induction false} NotYetIndexed(log: seq<Entry>, calls: seq<Call>, uid: Uid)
    requires forall e :: e in log ==> e.uid != uid
    requires forall j :: 0 <= j < |calls| ==> calls[j].Index? ==> calls[j].uid != uid
    ensures forall e :: e in RecordedAll(log, calls) ==> e.uid != uid
  {
    if calls != [] { NotYetIndexed(log, calls[..|calls| - 1], uid); }
  }

  lemma {:induction false} HistoryGrows(log: seq<Entry>, more: seq<Entry>, d: Dim)
    requires log <= more
    ensures History(log, d) <= History(more, d) && |History(more, d)| <= |more|
    decreases |more|
  {
    if log == more {
      if more != [] { HistoryGrows(log[..|log| - 1], more[..|more| - 1], d); }
    } else {
      HistoryGrows(log, more[..|more| - 1], d);
    }
  }

  /** All the calls served over a number of turns. */
  function Flatten(turns: seq<(seq<Call>, nat)>): seq<Call> {
    if turns == [] then [] else Flatten(turns[..|turns| - 1]) + turns[|turns| - 1].0
  }

  lemma FlattenPrefix(turns: seq<(seq<Call>, nat)>, i: nat)
    requires i < |turns|
    ensures Flatten(turns[..i + 1]) == Flatten(turns[..i]) + turns[i].0
  {
    assert turns[..i + 1][..i] == turns[..i];
  }

  lemma {:induction false} FlattenLength(turns: seq<(seq<Call>, nat)>, i: nat)
    requires i <= |turns|
    ensures |Flatten(turns[..i])| <= |Flatten(turns)|
    decreases |turns| - i
  {
    if i < |turns| {
      FlattenLength(turns, i + 1);
      FlattenPrefix(turns, i);
    } else {
      assert turns[..i] == turns;
    }
  }

  lemma FlattenNone()
    ensures forall turns: seq<(seq<Call>, nat)> :: Flatten(turns[..0]) == []
  {}

  lemma RecordedNone(log: seq<Entry>)
    ensures RecordedAll(log, []) == log
  {}

  /** How far a client gets in a number of turns: each adds its limit, up to
      what is there by then. */
  ghost function Reach(log: seq<Entry>, turns: seq<(seq<Call>, nat)>, d: Dim): nat {
    if turns == [] then 0
    else Min(|History(RecordedAll(log, Flatten(turns)), d)|, Reach(log, turns[..|turns| - 1], d) + turns[|turns| - 1].1)
  }

  lemma ReachNone(log: seq<Entry>, d: Dim)
    ensures forall turns: seq<(seq<Call>, nat)> :: Reach(log, turns[..0], d) == 0
  {}

  lemma ReachPrefix(log: seq<Entry>, turns: seq<(seq<Call>, nat)>, i: nat, d: Dim)
    requires i < |turns|
    ensures Reach(log, turns[..i + 1], d) ==
            Min(|History(RecordedAll(log, Flatten(turns[..i + 1])), d)|, Reach(log, turns[..i], d) + turns[i].1)
  {
    assert turns[..i + 1][..i] == turns[..i];
  }

  ghost predicate Quiet(turns: seq<(seq<Call>, nat)>) {
    forall i :: 0 <= i < |turns| ==> turns[i].0 == [] && turns[i].1 > 0
  }

  lemma {:induction false} FlattenQuiet(turns: seq<(seq<Call>, nat)>, quiet: seq<(seq<Call>, nat)>)
    requires Quiet(quiet)
    ensures Flatten(turns + quiet) == Flatten(turns)
  {
    if quiet == [] {
      assert turns + quiet == turns;
    } else {
      FlattenQuiet(turns, quiet[..|quiet| - 1]);
      assert (turns + quiet)[..|turns + quiet| - 1] == turns + quiet[..|quiet| - 1];
    }
  }

  /** Once the other calls pause, positive limits take the client to the end. */
  lemma {:induction false} CatchesUp(log: seq<Entry>, turns: seq<(seq<Call>, nat)>, quiet: seq<(seq<Call>, nat)>,
                                     d: Dim)
    requires Quiet(quiet)
    ensures var total := |History(RecordedAll(log, Flatten(turns)), d)|;
            && RecordedAll(log, Flatten(turns + quiet)) == RecordedAll(log, Flatten(turns))
            && Min(total, Reach(log, turns, d) + |quiet|) <= Reach(log, turns + quiet, d) <= total
  {
    FlattenQuiet(turns, quiet);
    hide Flatten, RecordedAll, History;
    if quiet == [] {
      assert turns + quiet == turns;
    } else {
      var init := quiet[..|quiet| - 1];
      CatchesUp(log, turns, init, d);
      assert (turns + quiet)[..|turns + quiet| - 1] == turns + init;
      assert (turns + quiet)[|turns + quiet| - 1] == quiet[|quiet| - 1];
    }
  }

  // -------------------------------------------- idempotency and membership

  /** Idempotency records and the direct membership flags with their counts. */
  datatype Directory = Directory(
    indexed: map<Uid, IndexRecord>,
    recipientFlags: set<(Address, Uid)>, recipientCount: map<Address, nat>,
    schemaFlags: set<(Uid, Uid)>, schemaCount: map<Uid, nat>)

  function Bump<K>(counts: map<K, nat>, k: K): map<K, nat> {
    counts[k := Get(counts, k).GetOr(0) + 1]
  }

  function Enrolled(dir: Directory, e: Entry): Directory {
    Directory(dir.indexed[e.uid := e.meta],
              dir.recipientFlags + {(e.meta.recipient, e.uid)}, Bump(dir.recipientCount, e.meta.recipient),
              dir.schemaFlags + {(e.meta.schema, e.uid)}, Bump(dir.schemaCount, e.meta.schema))
  }

  /** The directory knows exactly the log's UIDs, each with its first metadata. */
  ghost predicate Listed(dir: Directory, log: seq<Entry>) {
    && DistinctUids(log)
    && (forall e :: e in log ==> e.uid in dir.indexed && dir.indexed[e.uid] == e.meta)
    && (forall u :: u in dir.indexed ==> Entry(u, dir.indexed[u]) in log)
  }

  /** The flags agree with the idempotency records. */
  ghost predicate Flagged(dir: Directory) {
    && (forall a, u :: (a, u) in dir.recipientFlags <==> u in dir.indexed && dir.indexed[u].recipient == a)
    && (forall s, u :: (s, u) in dir.schemaFlags <==> u in dir.indexed && dir.indexed[u].schema == s)
  }

  /** The direct counts agree with the log. */
  ghost predicate Counted(dir: Directory, log: seq<Entry>) {
    && (forall a :: Get(dir.recipientCount, a).GetOr(0) == |History(log, Recipient(a))|)
    && (forall s :: Get(dir.schemaCount, s).GetOr(0) == |History(log, Schema(s))|)
  }

  ghost predicate Consistent(dir: Directory, log: seq<Entry>) {
    Listed(dir, log) && Flagged(dir) && Counted(dir, log)
  }

  lemma EnrollCounts(dir: Directory, log: seq<Entry>, e: Entry)
    requires Counted(dir, log)
    ensures Counted(Enrolled(dir, e), log + [e])
  {
    hide History;
    forall a ensures Get(Enrolled(dir, e).recipientCount, a).GetOr(0) == |History(log + [e], Recipient(a))| {
      HistorySnoc(log, e, Recipient(a));
    }
    forall s ensures Get(Enrolled(dir, e).schemaCount, s).GetOr(0) == |History(log + [e], Schema(s))| {
      HistorySnoc(log, e, Schema(s));
    }
  }

  lemma EnrollLists(dir: Directory, log: seq<Entry>, e: Entry)
    requires Listed(dir, log) && e.uid !in dir.indexed
    ensures Listed(Enrolled(dir, e), log + [e])
  {
    var dir' := Enrolled(dir, e);
    forall u | u in dir'.indexed
      ensures Entry(u, dir'.indexed[u]) in log + [e]
    {
      if u != e.uid { assert Entry(u, dir.indexed[u]) in log; }
    }
  }

  lemma EnrollFlags(dir: Directory, e: Entry)
    requires Flagged(dir) && e.uid !in dir.indexed
    ensures Flagged(Enrolled(dir, e))
  {}

  lemma EnrollConsistent(dir: Directory, log: seq<Entry>, e: Entry)
    requires Consistent(dir, log) && e.uid !in dir.indexed
    ensures Consistent(Enrolled(dir, e), log + [e])
  {
    hide Listed, Flagged, Counted;
    EnrollLists(dir, log, e);
    EnrollFlags(dir, e);
    EnrollCounts(dir, log, e);
  }

  /** Everything the contract's storage promises about the log. */
  ghost predicate Faithful(st: IndexState, dir: Directory, log: seq<Entry>, cap: nat) {
    && Consistent(dir, log)
    && Mirrors(st, log, cap)
    && forall kind :: KindSum(st.totals, kind) == |log|
  }

  lemma InsertFaithful(st: IndexState, dir: Directory, log: seq<Entry>, e: Entry, cap: nat)
    requires cap > 1 && Faithful(st, dir, log, cap) && e.uid !in dir.indexed
    ensures Faithful(Inserted(st, e, cap), Enrolled(dir, e), log + [e], cap)
  {
    InsertMirrors(st, log, e, cap);
    EnrollConsistent(dir, log, e);
    forall kind
      ensures KindSum(Inserted(st, e, cap).totals, kind) == |log + [e]|
    {
      InsertSum(st, e, cap, kind);
    }
  }

  lemma KnownUid(dir: Directory, log: seq<Entry>, uid: Uid)
    requires Consistent(dir, log)
    ensures uid in dir.indexed <==> exists e :: e in log && e.uid == uid
    ensures forall e :: e in log && e.uid == uid ==> uid in dir.indexed && e.meta == dir.indexed[uid]
    ensures uid in dir.indexed ==> Entry(uid, dir.indexed[uid]) in log
    ensures uid !in dir.indexed ==> forall a :: (a, uid) !in dir.recipientFlags
    ensures uid !in dir.indexed ==> forall s :: (s, uid) !in dir.schemaFlags
  {}

  /** The complete read of an expiration bucket is right exactly when the
      configured capacity is 100 or the bucket holds at most 100 entries. */
  lemma ExpiryReadingExact(st: IndexState, log: seq<Entry>, cap: nat, bucket: ExpirationStatus)
    requires 0 < cap <= MAX_CHUNK_SIZE && Mirrors(st, log, cap) && DistinctUids(log)
    ensures Reading(st, Expiry(bucket), cap) == History(log, Expiry(bucket))
            <==> cap == MAX_CHUNK_SIZE || |History(log, Expiry(bucket))| <= MAX_CHUNK_SIZE
  {
    var d := Expiry(bucket);
    assert Holds(st, d, History(log, d), cap);
    HistoryDistinct(log, d);
    ExpiryReadExact(st.chunks, Owner(d), History(log, d), cap);
  }

  /** A page of an expiration bucket at another capacity than 100 is right exactly
      when it starts below the capacity and ends within the first 100. */
  lemma ExpiryPageExact(st: IndexState, log: seq<Entry>, cap: nat, bucket: ExpirationStatus, from: nat, to: nat)
    requires 0 < cap < MAX_CHUNK_SIZE && Mirrors(st, log, cap) && DistinctUids(log)
    requires from < to <= |History(log, Expiry(bucket))|
    ensures Scan(st.chunks, Owner(Expiry(bucket)), from, to, cap) == History(log, Expiry(bucket))[from..to]
            <==> from < cap && to <= MAX_CHUNK_SIZE
  {
    var d := Expiry(bucket);
    assert Holds(st, d, History(log, d), cap);
    HistoryDistinct(log, d);
    ExpiryWindowExact(st.chunks, Owner(d), History(log, d), from, to, cap);
  }

  /** An unfiltered newest-first page of a key with one role is right exactly when
      the configured capacity is 100 or its cursor is below the capacity. */
  lemma ReverseReadingExact(st: IndexState, log: seq<Entry>, cap: nat, status: Statuses, d: Dim, index: nat, limit: nat)
    requires 0 < cap <= MAX_CHUNK_SIZE && Mirrors(st, log, cap) && DistinctUids(log)
    requires Sole(log, d) && !d.Expiry? && index < |History(log, d)| && limit > 0
    ensures var page := ReverseScan(st.chunks, status, Owner(d), index, limit, true);
            var right := PageOf(History(log, d), status, index, limit, true);
            && (page == right <==> cap == MAX_CHUNK_SIZE || index < cap)
            && (page.uids == right.uids <==> cap == MAX_CHUNK_SIZE || index < cap)
  {
    assert Holds(st, d, History(log, d), cap);
    HistoryDistinct(log, d);
    ReverseReadExact(st.chunks, status, Owner(d), History(log, d), cap, index, limit);
  }

  /** The backward reader's cursor leads to a right page: there is nothing to read,
      or the capacity is 100, or the cursor is below it. */
  predicate CursorOk(h: seq<Uid>, c: nat, cursor: Option<nat>, limit: nat) {
    h == [] || limit == 0 || cursor.GetOr(|h| - 1) >= |h| || c == MAX_CHUNK_SIZE || cursor.GetOr(|h| - 1) < c
  }

  lemma ReverseIsRight(store: Store, status: Statuses, k: Lookup, h: seq<Uid>, c: nat, cursor: Option<nat>,
                       limit: nat, all: bool)
    requires 0 < c <= MAX_CHUNK_SIZE && Represents(store, k, h, c) && CursorOk(h, c, cursor, limit)
    ensures RightPage(h, status, cursor, limit, all) ==
            if |h| == 0 || limit == 0 || cursor.GetOr(|h| - 1) >= |h| then ReversePage([], None)
            else ReverseScan(store, status, k, cursor.GetOr(|h| - 1), limit, all)
  {
    hide ReverseScan, PageOf, Represents;
    if h != [] && limit > 0 && cursor.GetOr(|h| - 1) < |h| {
      ScanIsPage(store, status, k, h, c, cursor.GetOr(|h| - 1), limit, all);
    }
  }

  lemma ShownByRightPage(h: seq<Uid>, status: Statuses, cursor: Option<nat>, limit: nat, all: bool, u: Uid)
    requires u in RightPage(h, status, cursor, limit, all).uids
    ensures u in h && (all || u !in status || status[u] == Active)
  {
    hide PageOf;
    PageMember(h, status, cursor.GetOr(|h| - 1), limit, all, u);
  }

  // ------------------------------------------------------- runs that mislead

  function InsertedAll(log: seq<Entry>, cap: nat): IndexState
    requires cap > 0
  {
    if log == [] then EMPTY else Inserted(InsertedAll(log[..|log| - 1], cap), log[|log| - 1], cap)
  }

  lemma {:induction false} AllMirror(log: seq<Entry>, cap: nat)
    requires cap > 1
    ensures Mirrors(InsertedAll(log, cap), log, cap)
  {
    hide Mirrors, Inserted;
    if log == [] {
      EmptyMirrors(cap);
    } else {
      var init, last := log[..|log| - 1], log[|log| - 1];
      AllMirror(init, cap);
      InsertMirrors(InsertedAll(init, cap), init, last, cap);
      assert init + [last] == log;
    }
  }

  /** `n` perpetual attestations by one address to another. */
  function Issues(n: nat): seq<Entry> {
    if n == 0 then [] else Issues(n - 1) + [Entry(Uid(n), IndexRecord(Address(1), Uid(0), Address(2), 0))]
  }

  lemma {:induction false} IssuesListed(n: nat)
    ensures |Issues(n)| == n && DistinctUids(Issues(n)) && forall i :: 0 <= i < n ==> Issues(n)[i].uid == Uid(i + 1)
    ensures |History(Issues(n), Expiry(Perpetual))| == n == |History(Issues(n), Recipient(Address(1)))|
    ensures Sole(Issues(n), Recipient(Address(1)))
  {
    if n > 0 {
      IssuesListed(n - 1);
      assert Issues(n)[..n - 1] == Issues(n - 1);
    }
  }

  /** After 101 insertions at a smaller capacity than 100, the complete read of
      the expiration bucket is wrong. */
  lemma ExpiryMisleads(cap: nat)
    requires 1 < cap < MAX_CHUNK_SIZE
    ensures Reading(InsertedAll(Issues(101), cap), Expiry(Perpetual), cap) != History(Issues(101), Expiry(Perpetual))
  {
    hide Mirrors, Inserted, InsertedAll, Reading, History, Issues;
    IssuesListed(101);
    AllMirror(Issues(101), cap);
    ExpiryReadingExact(InsertedAll(Issues(101), cap), Issues(101), cap, Perpetual);
  }

  /** And the newest entry for the recipient is not what the newest-first reader
      shows first. */
  lemma ReverseMisleads(cap: nat, status: Statuses)
    requires 1 < cap < MAX_CHUNK_SIZE
    ensures |History(Issues(101), Recipient(Address(1)))| == 101
    ensures ReverseScan(InsertedAll(Issues(101), cap).chunks, status, ByAddress(Address(1)), 100, 1, true).uids
            != PageOf(History(Issues(101), Recipient(Address(1))), status, 100, 1, true).uids
  {
    hide Mirrors, Inserted, InsertedAll, History, Issues, ReverseScan, PageOf, Sole;
    IssuesListed(101);
    AllMirror(Issues(101), cap);
    ReverseReadingExact(InsertedAll(Issues(101), cap), Issues(101), cap, status, Recipient(Address(1)), 100, 1);
  }

  /** Exactly these UIDs have a status other than `Active`. */
  ghost predicate Closes(closed: set<Uid>, status: Statuses) {
    forall u :: u in closed <==> u in status && status[u] != Active
  }

  class Indexer {
    const capacity: nat
    var chunks: Store
    var totals: map<Dim, nat>
    var status: Statuses
    var indexed: map<Uid, IndexRecord>
    var recipientFlags: set<(Address, Uid)>
    var recipientCount: map<Address, nat>
    var schemaFlags: set<(Uid, Uid)>
    var schemaCount: map<Uid, nat>
    /** First insertions, oldest first. */
    ghost var log: seq<Entry>
    /** The UIDs a status callback has named. */
    ghost var closed: set<Uid>

    function State(): IndexState
      reads this
    {
      IndexState(chunks, totals)
    }

    function Dir(): Directory
      reads this
    {
      Directory(indexed, recipientFlags, recipientCount, schemaFlags, schemaCount)
    }

    ghost predicate Valid()
      reads this
    {
      && MIN_CHUNK_SIZE <= capacity <= MAX_CHUNK_SIZE && Faithful(State(), Dir(), log, capacity)
      && Closes(closed, status)
    }

    constructor (stored: Option<nat>)
      ensures Valid() && log == [] && status == map[] && indexed == map[] && closed == {}
      ensures capacity == ChunkCapacity(stored)
    {
      capacity := ChunkCapacity(stored);
      chunks, totals, status := map[], map[], map[];
      indexed, recipientFlags, recipientCount, schemaFlags, schemaCount := map[], {}, map[], {}, map[];
      log, closed := [], {};
      new;
      EmptyMirrors(capacity);
    }

    /** One append: read the counter, load the chunk it points at, spill into
        the next chunk if that one is full, store, count. */
    method AppendUid(d: Dim, uid: Uid)
      requires capacity > 0
      modifies this`chunks, this`totals
      ensures State() == Append(old(State()), d, uid, capacity)
    {
      var total, cap := Get(totals, d).GetOr(0), CapOf(d, capacity);
      var i := ChunkIndex(total, cap);
      var chunk := ReadChunk(chunks, Owner(d), i).GetOr([]);
      if |chunk| >= cap {
        i := i + 1;
        chunk := ReadChunk(chunks, Owner(d), i).GetOr([]);
      }
      chunks := chunks[ChunkKey(Owner(d), i) := chunk + [uid]];
      totals := totals[d := total + 1];
    }

    /** `index_recipient_attestation`: a repeated pair is not counted twice. */
    method FlagRecipient(a: Address, uid: Uid)
      modifies this`recipientFlags, this`recipientCount
      ensures recipientFlags == old(recipientFlags) + {(a, uid)}
      ensures recipientCount == if (a, uid) in old(recipientFlags) then old(recipientCount)
              else Bump(old(recipientCount), a)
    {
      if (a, uid) in recipientFlags { return; }
      recipientFlags := recipientFlags + {(a, uid)};
      recipientCount := Bump(recipientCount, a);
    }

    /** `index_schema_attestation` */
    method FlagSchema(s: Uid, uid: Uid)
      modifies this`schemaFlags, this`schemaCount
      ensures schemaFlags == old(schemaFlags) + {(s, uid)}
      ensures schemaCount == if (s, uid) in old(schemaFlags) then old(schemaCount) else Bump(old(schemaCount), s)
    {
      if (s, uid) in schemaFlags { return; }
      schemaFlags := schemaFlags + {(s, uid)};
      schemaCount := Bump(schemaCount, s);
    }

    /** The writes of a first insertion. */
    method Insert(uid: Uid, meta: IndexRecord)
      requires capacity > 0
      requires (meta.recipient, uid) !in recipientFlags && (meta.schema, uid) !in schemaFlags
      modifies this`chunks, this`totals, this`indexed, this`recipientFlags, this`recipientCount, this`schemaFlags,
               this`schemaCount
      ensures State() == Inserted(old(State()), Entry(uid, meta), capacity)
      ensures Dir() == Enrolled(old(Dir()), Entry(uid, meta)) && indexed == old(indexed)[uid := meta]
    {
      hide Append;
      indexed := indexed[uid := meta];
      AppendUid(Recipient(meta.recipient), uid);
      FlagRecipient(meta.recipient, uid);
      AppendUid(Schema(meta.schema), uid);
      FlagSchema(meta.schema, uid);
      AppendUid(Attester(meta.attester), uid);
      AppendUid(Expiry(Bucket(meta.expirationTime)), uid);
    }

    lemma Knows(uid: Uid)
      requires Valid()
      ensures uid in indexed <==> exists e :: e in log && e.uid == uid
    {
      hide Mirrors, KindSum, Consistent;
      KnownUid(Dir(), log, uid);
    }

    /** The writes of a first insertion keep the storage faithful. */
    lemma Extends(uid: Uid, meta: IndexRecord)
      requires Valid() && uid !in indexed
      ensures (meta.recipient, uid) !in recipientFlags && (meta.schema, uid) !in schemaFlags
      ensures var e := Entry(uid, meta);
              Faithful(Inserted(State(), e, capacity), Enrolled(Dir(), e), log + [e], capacity)
    {
      KnownUid(Dir(), log, uid);
      InsertFaithful(State(), Dir(), log, Entry(uid, meta), capacity);
    }

    method InsertAndLog(uid: Uid, meta: IndexRecord)
      requires Valid() && uid !in indexed
      modifies this
      ensures Valid() && status == old(status) && closed == old(closed)
      ensures log == old(log) + [Entry(uid, meta)] && indexed == old(indexed)[uid := meta]
    {
      hide Faithful, Inserted, Enrolled, Closes;
      Extends(uid, meta);
      Insert(uid, meta);
      log := log + [Entry(uid, meta)];
    }

    /** `index_attestation`, called by the bound SAS contract. */
    method IndexAttestation(uid: Uid, meta: IndexRecord) returns (r: Result<(), IndexError>)
      requires Valid()
      modifies this
      ensures Valid() && status == old(status) && closed == old(closed)
      ensures log == Recorded(old(log), uid, meta)
      ensures r == if uid in old(indexed) && old(indexed)[uid] != meta then Err(DuplicateAttestation) else Ok(())
      ensures uid in old(indexed) ==> unchanged(this)
      ensures uid !in old(indexed) ==> indexed == old(indexed)[uid := meta]
      ensures uid !in old(indexed) ==>
                forall d :: History(log, d) == (
                  if d == Recipient(meta.recipient) || d == Schema(meta.schema) || d == Attester(meta.attester)
                     || d == Expiry(if meta.expirationTime == 0 then Perpetual else Expiring)
                  then History(old(log), d) + [uid] else History(old(log), d))
    {
      Knows(uid);
      hide Faithful, History, Closes;
      if uid in indexed {
        return if indexed[uid] != meta then Err(DuplicateAttestation) else Ok(());
      }
      FiledUnderFour(log, uid, meta);
      InsertAndLog(uid, meta);
      r := Ok(());
    }

    /** `handle_revoke` and `handle_replace`: history stays, the status moves. */
    method HandleRevoke(uid: Uid)
      requires Valid()
      modifies this`status, this`closed
      ensures Valid() && status == old(status)[uid := Revoked] && closed == old(closed) + {uid}
    {
      hide Faithful;
      closed := closed + {uid};
      status := status[uid := Revoked];
    }

    method HandleReplace(oldUid: Uid)
      requires Valid()
      modifies this`status, this`closed
      ensures Valid() && status == old(status)[oldUid := Replaced] && closed == old(closed) + {oldUid}
    {
      hide Faithful;
      closed := closed + {oldUid};
      status := status[oldUid := Replaced];
    }

    /** Any run of calls, retries and conflicts included, leaves exactly the
        first insertions, in order. */
    method Serve(calls: seq<Call>)
      requires Valid()
      modifies this
      ensures Valid() && log == RecordedAll(old(log), calls)
      ensures forall u :: u in closed <==>
                u in old(closed) || Call.HandleRevoke(u) in calls || Call.HandleReplace(u) in calls
      ensures forall i :: 0 <= i < |calls| && calls[i].Index? && calls[i].uid !in old(indexed) ==>
                (forall j :: 0 <= j < i ==> calls[j].Index? ==> calls[j].uid != calls[i].uid) ==>
                calls[i].uid in indexed && indexed[calls[i].uid] == calls[i].meta
    {
      ghost var was := indexed;
      assert forall e :: e in log ==> e.uid in was;
      hide Faithful, Closes, History, Recorded;
      for i := 0 to |calls|
        invariant Valid() && log == RecordedAll(old(log), calls[..i])
        invariant forall u :: u in closed <==>
                    u in old(closed) || Call.HandleRevoke(u) in calls[..i] || Call.HandleReplace(u) in calls[..i]
      {
        assert calls[..i + 1][..i] == calls[..i] && calls[..i + 1] == calls[..i] + [calls[i]];
        match calls[i]
        case Index(uid, meta) => var _ := IndexAttestation(uid, meta);
        case HandleRevoke(uid) => HandleRevoke(uid);
        case HandleReplace(oldUid) => HandleReplace(oldUid);
      }
      assert calls[..|calls|] == calls;
      forall i | 0 <= i < |calls| && calls[i].Index? && calls[i].uid !in was
                 && (forall j :: 0 <= j < i ==> calls[j].Index? ==> calls[j].uid != calls[i].uid)
        ensures calls[i].uid in indexed && indexed[calls[i].uid] == calls[i].meta
      {
        FirstCallCounts(old(log), calls, i);
        Indexed(Entry(calls[i].uid, calls[i].meta));
      }
    }

    lemma Indexed(e: Entry)
      requires Valid() && e in log
      ensures e.uid in indexed && indexed[e.uid] == e.meta
    {}

    /** What a key lists is what was indexed under it. */
    lemma Listing(d: Dim, u: Uid)
      requires Valid()
      ensures u in History(log, d) <==>
        && u in indexed
        && match d {
             case Recipient(a) => indexed[u].recipient == a
             case Schema(s) => indexed[u].schema == s
             case Attester(a) => indexed[u].attester == a
             case Expiry(b) => b == if indexed[u].expirationTime == 0 then Perpetual else Expiring
           }
    {
      if u in indexed {
        assert Entry(u, indexed[u]) in log;
        if Selects(d, Entry(u, indexed[u])) { HistoryMember(log, d, Entry(u, indexed[u])); }
      }
      if u in History(log, d) {
        var i :| 0 <= i < |History(log, d)| && History(log, d)[i] == u;
        HistoryFrom(log, d, i);
      }
    }

    // -------------------------------------------------------------- readers

    /** The key has one role, and all its pages can be read with the configured
        capacity: the expiration index is always written in chunks of 100. */
    ghost predicate Plain(d: Dim)
      reads this
    {
      Sole(log, d) && (d.Expiry? ==> capacity == MAX_CHUNK_SIZE || |History(log, d)| <= capacity)
    }

    /** The same for the complete read. */
    ghost predicate Complete(d: Dim)
      reads this
    {
      Sole(log, d) && (d.Expiry? ==> capacity == MAX_CHUNK_SIZE || |History(log, d)| <= MAX_CHUNK_SIZE)
    }

    /** The same for one window. */
    ghost predicate WindowOk(d: Dim, from: nat, to: nat)
      reads this
    {
      && Sole(log, d)
      && (d.Expiry? ==> capacity == MAX_CHUNK_SIZE || from >= to || (from < capacity && to <= MAX_CHUNK_SIZE))
    }

    lemma SoleRepresents(d: Dim)
      requires Valid() && Sole(log, d)
      ensures Total(State(), d) == |History(log, d)| && Distinct(History(log, d))
      ensures Represents(chunks, Owner(d), History(log, d), CapOf(d, capacity))
    {
      assert Holds(State(), d, History(log, d), capacity);
      HistoryDistinct(log, d);
    }

    lemma WindowReads(d: Dim, from: nat, to: nat)
      requires Valid() && WindowOk(d, from, to) && from <= to <= |History(log, d)|
      ensures Scan(chunks, Owner(d), from, to, capacity) == History(log, d)[from..to]
    {
      SoleRepresents(d);
      hide Faithful, Scan, History, Represents, Sole;
      if CapOf(d, capacity) == capacity {
        ScanIsSlice(chunks, Owner(d), History(log, d), from, to, capacity);
      } else if from == to {
        ScanDone(chunks, Owner(d), from, to, capacity);
      } else {
        ExpiryWindowExact(chunks, Owner(d), History(log, d), from, to, capacity);
      }
    }

    /** `get_attestations_by_*` and `get_*_filtered` */
    method GetFiltered(d: Dim, all: bool) returns (out: seq<Uid>)
      requires Valid()
      ensures Complete(d) ==> out == Kept(History(log, d), status, all)
      ensures Complete(d) ==> forall u :: u in out <==> u in History(log, d) && (all || u !in closed)
      ensures !all ==> forall u :: u in out ==> u !in closed
    {
      var total := Get(totals, d).GetOr(0);
      out := CollectFiltered(chunks, status, Owner(d), total, capacity, all);
      forall u { KeptMember(Scan(chunks, Owner(d), 0, total, capacity), status, all, u); }
      if Complete(d) {
        SoleRepresents(d);
        hide Faithful, Scan, History, Kept, Sole;
        WindowReads(d, 0, total);
        assert History(log, d)[0..total] == History(log, d);
      }
    }

    /** `get_atts_by_*_paginated`; the counter is a `u32`. */
    method GetPage(d: Dim, cursor: nat, limit: nat) returns (page: seq<Uid>)
      requires Valid() && Get(totals, d).GetOr(0) <= U32_MAX
      ensures WindowOk(d, cursor, Min(|History(log, d)|, cursor + limit)) ==>
                page == var h := History(log, d); if cursor < |h| then h[cursor..Min(|h|, cursor + limit)] else []
    {
      hide Faithful, Scan, History, Sole;
      var total := Get(totals, d).GetOr(0);
      page := CollectPage(chunks, Owner(d), total, cursor, limit, capacity);
      if WindowOk(d, cursor, Min(|History(log, d)|, cursor + limit)) {
        SoleRepresents(d);
        if cursor < total { WindowReads(d, cursor, Min(total, cursor + limit)); }
      }
    }

    /** `get_*_page_filtered` */
    method GetPageFiltered(d: Dim, cursor: nat, limit: nat, all: bool) returns (page: seq<Uid>)
      requires Valid()
      ensures Sole(log, d) ==>
                page == var h := History(log, d);
                        if cursor < |h| then Take(Kept(h[cursor..], status, all), limit) else []
      ensures |page| <= limit
      ensures Sole(log, d) ==> forall u :: u in page ==> u in History(log, d) && (all || u !in closed)
    {
      var total := Get(totals, d).GetOr(0);
      page := CollectPageFiltered(chunks, status, Owner(d), total, cursor, limit, CapOf(d, capacity), all,
        History(log, d));
      if Sole(log, d) {
        SoleRepresents(d);
        hide Faithful, History, Kept, Sole, Represents;
        if cursor < total {
          forall u | u in page ensures u in History(log, d) && (all || u !in closed) {
            KeptMember(History(log, d)[cursor..], status, all, u);
          }
        }
      }
    }

    /** `get_atts_by_*_reverse` and `get_*_recent*`, which divide by 100. */
    method GetReversePage(d: Dim, cursor: Option<nat>, limit: nat, all: bool) returns (page: ReversePage)
      requires Valid() && !d.Expiry?
      ensures Sole(log, d) && CursorOk(History(log, d), capacity, cursor, limit) ==>
                && page == RightPage(History(log, d), status, cursor, limit, all)
                && forall u :: u in page.uids ==> u in History(log, d) && (all || u !in closed)
    {
      hide Faithful, ReverseScan, History, RightPage, Represents, Sole, CursorOk;
      var total := Get(totals, d).GetOr(0);
      page := CollectReversePage(chunks, status, Owner(d), total, cursor, limit, all);
      if Sole(log, d) && CursorOk(History(log, d), capacity, cursor, limit) {
        SoleRepresents(d);
        ReverseIsRight(chunks, status, Owner(d), History(log, d), capacity, cursor, limit, all);
        forall u | u in page.uids ensures u in History(log, d) && (all || u !in closed) {
          ShownByRightPage(History(log, d), status, cursor, limit, all, u);
        }
      }
    }

    // ------------------------------------------------- paging while it grows

    /** One turn of a client: other calls come in, then it asks for the page
        after what it has seen. */
    method ServeAndPage(d: Dim, seen: seq<Uid>, calls: seq<Call>, limit: nat) returns (more: seq<Uid>)
      requires Valid() && |log| + |calls| <= U32_MAX
      modifies this
      ensures Valid() && log == RecordedAll(old(log), calls)
      ensures Plain(d) && seen <= History(old(log), d) ==>
                more == History(log, d)[..Min(|History(log, d)|, |seen| + limit)]
    {
      hide Faithful, History, Closes, RecordedAll, Sole;
      ghost var before := log;
      Serve(calls);
      RecordedGrows(before, calls);
      PlainBefore(before, d);
      CounterBound(d);
      var page := GetPage(d, |seen|, limit);
      more := seen + page;
      if Plain(d) && seen <= History(before, d) {
        assert seen == History(log, d)[..|seen|];
        assert |seen| == |History(log, d)| ==> History(log, d)[..|seen|] == History(log, d);
      }
    }

    /** A client pages through a history, resuming at `cursor + page.len()`,
        while other calls keep coming in. What it has seen is always a prefix of
        the history, of exactly the length its limits allow: nothing is skipped,
        repeated, changed or held back. */
    method PageWhileServing(d: Dim, turns: seq<(seq<Call>, nat)>) returns (seen: seq<Uid>)
      requires Valid() && |log| + |Flatten(turns)| <= U32_MAX
      modifies this
      ensures Valid() && log == RecordedAll(old(log), Flatten(turns))
      ensures Reach(old(log), turns, d) <= |History(log, d)|
      ensures Plain(d) ==> seen == History(log, d)[..Reach(old(log), turns, d)]
    {
      hide Faithful, History, RecordedAll, Flatten, Sole, Reach, Closes;
      FlattenNone();
      RecordedNone(log);
      ReachNone(log, d);
      seen := [];
      for i := 0 to |turns|
        invariant Valid() && log == RecordedAll(old(log), Flatten(turns[..i]))
        invariant Reach(old(log), turns[..i], d) <= |History(log, d)|
        invariant Plain(d) ==> seen == History(log, d)[..Reach(old(log), turns[..i], d)]
      {
        ghost var before := log;
        FlattenPrefix(turns, i);
        FlattenLength(turns, i + 1);
        RecordedGrows(old(log), Flatten(turns[..i]));
        seen := ServeAndPage(d, seen, turns[i].0, turns[i].1);
        RecordedConcat(old(log), Flatten(turns[..i]), turns[i].0);
        RecordedGrows(before, turns[i].0);
        PlainBefore(before, d);
        ReachPrefix(old(log), turns, i, d);
      }
      assert turns[..|turns|] == turns;
    }

    lemma PlainBefore(before: seq<Entry>, d: Dim)
      requires before <= log
      ensures History(before, d) <= History(log, d)
      ensures Plain(d) ==> Sole(before, d)
      ensures Plain(d) && d.Expiry? ==> capacity == MAX_CHUNK_SIZE || |History(before, d)| <= capacity
    {
      HistoryGrows(before, log, d);
      if d.Recipient? { HistoryGrows(before, log, Attester(d.address)); }
      if d.Attester? { HistoryGrows(before, log, Recipient(d.address)); }
    }

    lemma CounterBound(d: Dim)
      requires Valid()
      ensures Get(totals, d).GetOr(0) <= |log|
    {
      assert Total(State(), d) == |History(log, d)|;
      HistoryGrows(log, log, d);
    }
  }
}
