/**
 The indexer's storage as a value, and what it has to say about the log of
 first insertions it was built from.
 */
module IndexLog {
  import opened Base
  import opened Chunks

  /** What a UID was first indexed with. */
  datatype IndexRecord = IndexRecord(recipient: Address, schema: Uid, attester: Address, expirationTime: nat)

  datatype Entry = Entry(uid: Uid, meta: IndexRecord)

  /** A lookup dimension together with its key: the key of one counter. */
  datatype Dim =
    | Recipient(address: Address) | Schema(schema: Uid) | Attester(address: Address)
    | Expiry(bucket: ExpirationStatus)

  function Bucket(expirationTime: nat): ExpirationStatus {
    if expirationTime == 0 then Perpetual else Expiring
  }

  predicate Selects(d: Dim, e: Entry) {
    match d
    case Recipient(a) => e.meta.recipient == a
    case Schema(u) => e.meta.schema == u
    case Attester(a) => e.meta.attester == a
    case Expiry(b) => Bucket(e.meta.expirationTime) == b
  }

  /** Where a dimension's chunks are stored. Recipient and attester coincide. */
  function Owner(d: Dim): Lookup {
    match d
    case Recipient(a) => ByAddress(a)
    case Schema(u) => BySchema(u)
    case Attester(a) => ByAddress(a)
    case Expiry(b) => ByExpiry(b)
  }

  /** The capacity a dimension is written with. */
  function CapOf(d: Dim, cap: nat): nat {
    if d.Expiry? then MAX_CHUNK_SIZE else cap
  }

  function Grow(h: seq<Uid>, uid: Uid, add: bool): seq<Uid> {
    if add then h + [uid] else h
  }

  /** The UIDs a dimension should list, oldest first. */
  function History(log: seq<Entry>, d: Dim): seq<Uid> {
    if log == [] then []
    else Grow(History(log[..|log| - 1], d), log[|log| - 1].uid, Selects(d, log[|log| - 1]))
  }

  /** No address-keyed write of the other role has touched this key. */
  predicate Sole(log: seq<Entry>, d: Dim) {
    match d
    case Recipient(a) => History(log, Attester(a)) == []
    case Attester(a) => History(log, Recipient(a)) == []
    case _ => true
  }

  /** That is: no entry of the log names the address in its other role. */
  lemma SoleExact(log: seq<Entry>, d: Dim)
    ensures Sole(log, d) <==>
            forall e :: e in log ==> !(d.Recipient? && e.meta.attester == d.address)
                                     && !(d.Attester? && e.meta.recipient == d.address)
  {
    forall e | e in log
      ensures Sole(log, d) ==> !(d.Recipient? && e.meta.attester == d.address)
                               && !(d.Attester? && e.meta.recipient == d.address)
    {
      if d.Recipient? && e.meta.attester == d.address { HistoryMember(log, Attester(d.address), e); }
      if d.Attester? && e.meta.recipient == d.address { HistoryMember(log, Recipient(d.address), e); }
    }
    if d.Recipient? && !Sole(log, d) { HistoryFrom(log, Attester(d.address), 0); }
    if d.Attester? && !Sole(log, d) { HistoryFrom(log, Recipient(d.address), 0); }
  }

  predicate DistinctUids(log: seq<Entry>) {
    forall i, j :: 0 <= i < j < |log| ==> log[i].uid != log[j].uid
  }

  lemma HistorySnoc(log: seq<Entry>, e: Entry, d: Dim)
    ensures History(log + [e], d) == Grow(History(log, d), e.uid, Selects(d, e))
  {
    assert (log + [e])[..|log|] == log;
  }

  lemma {:induction false} HistoryFrom(log: seq<Entry>, d: Dim, i: nat)
    requires i < |History(log, d)|
    ensures exists e :: e in log && Selects(d, e) && History(log, d)[i] == e.uid
  {
    var init, last := log[..|log| - 1], log[|log| - 1];
    if i < |History(init, d)| {
      HistoryFrom(init, d, i);
      var e :| e in init && Selects(d, e) && History(init, d)[i] == e.uid;
      assert e in log;
    } else {
      assert last in log;
    }
  }

  lemma {:induction false} HistoryMember(log: seq<Entry>, d: Dim, e: Entry)
    requires e in log && Selects(d, e)
    ensures e.uid in History(log, d)
  {
    if e != log[|log| - 1] { HistoryMember(log[..|log| - 1], d, e); }
  }

  lemma LastIsFresh(log: seq<Entry>, d: Dim)
    requires DistinctUids(log) && log != []
    ensures log[|log| - 1].uid !in History(log[..|log| - 1], d)
  {
    var init := log[..|log| - 1];
    forall i | 0 <= i < |History(init, d)|
      ensures History(init, d)[i] != log[|log| - 1].uid
    {
      HistoryFrom(init, d, i);
    }
  }

  lemma {:induction false} HistoryDistinct(log: seq<Entry>, d: Dim)
    requires DistinctUids(log)
    ensures Distinct(History(log, d))
  {
    if log != [] {
      HistoryDistinct(log[..|log| - 1], d);
      LastIsFresh(log, d);
    }
  }

  // ------------------------------------------------------------------ state

  datatype IndexState = IndexState(chunks: Store, totals: map<Dim, nat>)

  const EMPTY := IndexState(map[], map[])

  function Total(st: IndexState, d: Dim): nat {
    Get(st.totals, d).GetOr(0)
  }

  /** `index_address_uid`, `index_uid_uid` and `index_expiration_status`. */
  function Append(st: IndexState, d: Dim, uid: Uid, cap: nat): IndexState
    requires cap > 0
  {
    IndexState(Appended(st.chunks, Owner(d), Total(st, d), uid, CapOf(d, cap)), st.totals[d := Total(st, d) + 1])
  }

  /** The four appends of one first insertion, in the contract's order. */
  function Inserted(st: IndexState, e: Entry, cap: nat): IndexState
    requires cap > 0
  {
    var st1 := Append(st, Recipient(e.meta.recipient), e.uid, cap);
    var st2 := Append(st1, Schema(e.meta.schema), e.uid, cap);
    var st3 := Append(st2, Attester(e.meta.attester), e.uid, cap);
    Append(st3, Expiry(Bucket(e.meta.expirationTime)), e.uid, cap)
  }

  /** Dimension `d` is stored as the history `h`. */
  ghost predicate Holds(st: IndexState, d: Dim, h: seq<Uid>, cap: nat) {
    Total(st, d) == |h| && Represents(st.chunks, Owner(d), h, CapOf(d, cap))
  }

  lemma AppendSelf(st: IndexState, d: Dim, h: seq<Uid>, uid: Uid, cap: nat)
    requires cap > 0 && Holds(st, d, h, cap)
    ensures Holds(Append(st, d, uid, cap), d, h + [uid], cap)
  {
    AppendExtends(st.chunks, Owner(d), h, uid, CapOf(d, cap));
  }

  lemma AppendOther(st: IndexState, d: Dim, uid: Uid, cap: nat, other: Dim, h: seq<Uid>)
    requires cap > 0 && Owner(other) != Owner(d) && Holds(st, other, h, cap)
    ensures Holds(Append(st, d, uid, cap), other, h, cap)
  {
    AppendFrame(st.chunks, Owner(d), Total(st, d), uid, CapOf(d, cap), Owner(other));
    forall i: nat
      ensures ReadChunk(Append(st, d, uid, cap).chunks, Owner(other), i) == Slot(h, i, CapOf(other, cap))
    {
      assert ReadChunk(st.chunks, Owner(other), i) == Slot(h, i, CapOf(other, cap));
    }
  }

  /** One of the four appends of an entry, seen from dimension `d`. */
  lemma AppendFor(st: IndexState, here: Dim, uid: Uid, cap: nat, d: Dim, h: seq<Uid>)
    requires cap > 0 && Holds(st, d, h, cap)
    requires here == d || Owner(here) != Owner(d)
    ensures Holds(Append(st, here, uid, cap), d, Grow(h, uid, here == d), cap)
  {
    if here == d {
      AppendSelf(st, d, h, uid, cap);
    } else {
      AppendOther(st, here, uid, cap, d, h);
    }
  }

  /** A whole insertion, seen from a dimension whose key has a single role. */
  lemma InsertHolds(st: IndexState, log: seq<Entry>, e: Entry, cap: nat, d: Dim)
    requires cap > 0 && Holds(st, d, History(log, d), cap) && Sole(log + [e], d)
    ensures Holds(Inserted(st, e, cap), d, History(log + [e], d), cap)
  {
    var r, s, a, x := Recipient(e.meta.recipient), Schema(e.meta.schema), Attester(e.meta.attester),
      Expiry(Bucket(e.meta.expirationTime));
    HistorySnoc(log, e, d);
    if d.Recipient? { HistorySnoc(log, e, Attester(d.address)); }
    if d.Attester? { HistorySnoc(log, e, Recipient(d.address)); }
    hide Append, Holds, History;
    var h := History(log, d);
    var st1 := Append(st, r, e.uid, cap);
    var st2 := Append(st1, s, e.uid, cap);
    var st3 := Append(st2, a, e.uid, cap);
    AppendFor(st, r, e.uid, cap, d, h);
    AppendFor(st1, s, e.uid, cap, d, Grow(h, e.uid, r == d));
    AppendFor(st2, a, e.uid, cap, d, Grow(h, e.uid, r == d || s == d));
    AppendFor(st3, x, e.uid, cap, d, Grow(h, e.uid, r == d || s == d || a == d));
  }

  // ------------------------------------------------- addresses in both roles

  predicate Touches(e: Entry, a: Address) {
    e.meta.recipient == a || e.meta.attester == a
  }

  predicate SelfIssued(e: Entry, a: Address) {
    e.meta.recipient == a && e.meta.attester == a
  }

  /** The first entry that names the address in either role. */
  function FirstTouch(log: seq<Entry>, a: Address): Option<Entry> {
    if log == [] then None
    else match FirstTouch(log[..|log| - 1], a)
         case Some(e) => Some(e)
         case None => if Touches(log[|log| - 1], a) then Some(log[|log| - 1]) else None
  }

  lemma {:induction false} FirstTouchIn(log: seq<Entry>, a: Address)
    ensures FirstTouch(log, a).Some? ==> FirstTouch(log, a).value in log
    ensures FirstTouch(log, a).None? ==> History(log, Recipient(a)) == [] && History(log, Attester(a)) == []
  {
    if log != [] { FirstTouchIn(log[..|log| - 1], a); }
  }

  /** Chunk 0 under an address starts with the first entry that named it, twice
      if that entry names it in both roles. */
  predicate HeadOk(chunks: Store, a: Address, first: Option<Entry>) {
    var chunk := ReadChunk(chunks, ByAddress(a), 0);
    match first
    case None => chunk.None?
    case Some(e) => chunk.Some? && [e.uid] <= chunk.value
                    && (SelfIssued(e, a) ==> [e.uid, e.uid] <= chunk.value)
  }

  lemma FirstAppend(store: Store, k: Lookup, uid: Uid, cap: nat)
    requires cap > 1 && |ReadChunk(store, k, 0).GetOr([])| <= 1
    ensures ReadChunk(Appended(store, k, 0, uid, cap), k, 0) == Some(ReadChunk(store, k, 0).GetOr([]) + [uid])
  {}

  /** What one append does to chunk 0 of an address. */
  lemma AppendHead(st: IndexState, here: Dim, uid: Uid, cap: nat, a: Address)
    requires cap > 1
    ensures var was := ReadChunk(st.chunks, ByAddress(a), 0);
            var head := ReadChunk(Append(st, here, uid, cap).chunks, ByAddress(a), 0);
            && (Owner(here) != ByAddress(a) ==> head == was)
            && (was.Some? ==> head.Some? && was.value <= head.value)
            && (Owner(here) == ByAddress(a) && Total(st, here) == 0 && |was.GetOr([])| <= 1 ==>
                  head == Some(was.GetOr([]) + [uid]))
  {
    var k := Owner(here);
    if k == ByAddress(a) {
      if ReadChunk(st.chunks, k, 0).Some? { AppendKeepsHead(st.chunks, k, Total(st, here), uid, cap); }
      if Total(st, here) == 0 && |ReadChunk(st.chunks, k, 0).GetOr([])| <= 1 { FirstAppend(st.chunks, k, uid, cap); }
    } else {
      AppendFrame(st.chunks, k, Total(st, here), uid, CapOf(here, cap), ByAddress(a));
    }
  }

  lemma AppendTotal(st: IndexState, here: Dim, uid: Uid, cap: nat, d: Dim)
    requires cap > 0
    ensures Total(Append(st, here, uid, cap), d) == Total(st, d) + if d == here then 1 else 0
  {
    hide Appended;
  }

  /** A head that is there already stays. */
  lemma HeadStays(st: IndexState, here: Dim, uid: Uid, cap: nat, a: Address, first: Entry)
    requires cap > 1 && HeadOk(st.chunks, a, Some(first))
    ensures HeadOk(Append(st, here, uid, cap).chunks, a, Some(first))
  {
    hide Append;
    AppendHead(st, here, uid, cap, a);
  }

  lemma {:induction false} InsertHead(st: IndexState, log: seq<Entry>, e: Entry, cap: nat, a: Address)
    requires cap > 1 && HeadOk(st.chunks, a, FirstTouch(log, a))
    requires FirstTouch(log, a).None? ==> Total(st, Recipient(a)) == 0 && Total(st, Attester(a)) == 0
    ensures HeadOk(Inserted(st, e, cap).chunks, a, FirstTouch(log + [e], a))
  {
    assert (log + [e])[..|log|] == log;
    var st1 := Append(st, Recipient(e.meta.recipient), e.uid, cap);
    var st2 := Append(st1, Schema(e.meta.schema), e.uid, cap);
    var st3 := Append(st2, Attester(e.meta.attester), e.uid, cap);
    var expiry := Expiry(Bucket(e.meta.expirationTime));
    match FirstTouch(log, a)
    case Some(first) =>
      hide HeadOk, Append;
      HeadStays(st, Recipient(e.meta.recipient), e.uid, cap, a, first);
      HeadStays(st1, Schema(e.meta.schema), e.uid, cap, a, first);
      HeadStays(st2, Attester(e.meta.attester), e.uid, cap, a, first);
      HeadStays(st3, expiry, e.uid, cap, a, first);
    case None => FirstHead(st, e, cap, a);
  }

  /** The first entry that touches an address puts its UID at the head. */
  lemma FirstHead(st: IndexState, e: Entry, cap: nat, a: Address)
    requires cap > 1 && HeadOk(st.chunks, a, None) && Total(st, Recipient(a)) == 0 && Total(st, Attester(a)) == 0
    ensures HeadOk(Inserted(st, e, cap).chunks, a, if Touches(e, a) then Some(e) else None)
  {
    var st1 := Append(st, Recipient(e.meta.recipient), e.uid, cap);
    var st2 := Append(st1, Schema(e.meta.schema), e.uid, cap);
    var st3 := Append(st2, Attester(e.meta.attester), e.uid, cap);
    AppendTotal(st, Recipient(e.meta.recipient), e.uid, cap, Attester(a));
    AppendTotal(st1, Schema(e.meta.schema), e.uid, cap, Attester(a));
    hide Append, Total;
    AppendHead(st, Recipient(e.meta.recipient), e.uid, cap, a);
    AppendHead(st1, Schema(e.meta.schema), e.uid, cap, a);
    AppendHead(st2, Attester(e.meta.attester), e.uid, cap, a);
    AppendHead(st3, Expiry(Bucket(e.meta.expirationTime)), e.uid, cap, a);
  }

  // ------------------------------------------------------------- invariant

  /** The stored counters and chunks tell the log back. */
  ghost predicate Mirrors(st: IndexState, log: seq<Entry>, cap: nat) {
    && (forall d: Dim :: Total(st, d) == |History(log, d)|)
    && (forall d: Dim :: Sole(log, d) ==> Holds(st, d, History(log, d), cap))
    && (forall a: Address :: HeadOk(st.chunks, a, FirstTouch(log, a)))
  }

  lemma EmptyMirrors(cap: nat)
    ensures Mirrors(EMPTY, [], cap)
  {}

  lemma InsertTotals(st: IndexState, e: Entry, cap: nat, d: Dim)
    requires cap > 0
    ensures Total(Inserted(st, e, cap), d) == Total(st, d) + if Selects(d, e) then 1 else 0
  {
    hide Appended;
  }

  /** Every first insertion keeps the mirror. */
  lemma InsertMirrors(st: IndexState, log: seq<Entry>, e: Entry, cap: nat)
    requires cap > 1 && Mirrors(st, log, cap)
    ensures Mirrors(Inserted(st, e, cap), log + [e], cap)
  {
    var st', log' := Inserted(st, e, cap), log + [e];
    hide Inserted;
    forall d: Dim
      ensures Total(st', d) == |History(log', d)|
      ensures Sole(log', d) ==> Holds(st', d, History(log', d), cap)
    {
      InsertTotals(st, e, cap, d);
      HistorySnoc(log, e, d);
      if Sole(log', d) {
        if d.Recipient? { HistorySnoc(log, e, Attester(d.address)); }
        if d.Attester? { HistorySnoc(log, e, Recipient(d.address)); }
        InsertHolds(st, log, e, cap, d);
      }
    }
    forall a: Address
      ensures HeadOk(st'.chunks, a, FirstTouch(log', a))
    {
      FirstTouchIn(log, a);
      assert HeadOk(st.chunks, a, FirstTouch(log, a));
      assert Total(st, Recipient(a)) == |History(log, Recipient(a))|;
      assert Total(st, Attester(a)) == |History(log, Attester(a))|;
      InsertHead(st, log, e, cap, a);
    }
  }

  // ------------------------------------------- when both readings are right

  /** The complete read of a dimension. */
  function Reading(st: IndexState, d: Dim, cap: nat): seq<Uid>
    requires cap > 0
  {
    Scan(st.chunks, Owner(d), 0, Total(st, d), cap)
  }

  /** The address was named in one role only, or just once, by an entry that
      names it in both. */
  predicate Separate(log: seq<Entry>, a: Address) {
    var r, t := History(log, Recipient(a)), History(log, Attester(a));
    r == [] || t == [] || (|r| == 1 && r == t)
  }

  lemma ScanHead(store: Store, k: Lookup, total: nat, cap: nat, prefix: seq<Uid>)
    requires cap > 0 && ReadChunk(store, k, 0).Some? && prefix <= ReadChunk(store, k, 0).value
    requires 0 < |prefix| <= total
    ensures prefix <= Scan(store, k, 0, total, cap)
  {
    assert ChunkIndex(0, cap) == 0;
  }

  lemma FirstIsFirst(log: seq<Entry>, a: Address, d: Dim)
    requires DistinctUids(log) && (d == Recipient(a) || d == Attester(a)) && History(log, d) != []
    requires FirstTouch(log, a).Some? && History(log, d)[0] == FirstTouch(log, a).value.uid
    ensures Selects(d, FirstTouch(log, a).value)
  {
    FirstTouchIn(log, a);
    HistoryFrom(log, d, 0);
    var e :| e in log && Selects(d, e) && History(log, d)[0] == e.uid;
    assert e == FirstTouch(log, a).value;
  }

  lemma SoleReading(st: IndexState, log: seq<Entry>, cap: nat, d: Dim)
    requires cap > 1 && Mirrors(st, log, cap) && Sole(log, d) && !d.Expiry?
    ensures Reading(st, d, cap) == History(log, d)
  {
    assert Holds(st, d, History(log, d), cap);
    ScanIsSlice(st.chunks, Owner(d), History(log, d), 0, Total(st, d), cap);
  }

  lemma NotTwice(s: seq<Uid>, u: Uid)
    requires Distinct(s)
    ensures !([u, u] <= s)
  {
    if |s| >= 2 { assert s[0] != s[1]; }
  }

  /** A nonempty reading that is right starts with the first entry that named
      the address, and is no longer than 1 if that entry named it twice. */
  lemma RightReading(st: IndexState, log: seq<Entry>, cap: nat, a: Address, d: Dim)
    requires cap > 1 && Mirrors(st, log, cap) && DistinctUids(log)
    requires d == Recipient(a) || d == Attester(a)
    requires History(log, d) != [] && Reading(st, d, cap) == History(log, d)
    ensures FirstTouch(log, a).Some? && Selects(d, FirstTouch(log, a).value)
    ensures History(log, d)[0] == FirstTouch(log, a).value.uid
    ensures SelfIssued(FirstTouch(log, a).value, a) ==> |History(log, d)| == 1
  {
    FirstTouchIn(log, a);
    assert HeadOk(st.chunks, a, FirstTouch(log, a));
    assert Total(st, d) == |History(log, d)|;
    var uid := FirstTouch(log, a).value.uid;
    ScanHead(st.chunks, ByAddress(a), Total(st, d), cap, [uid]);
    FirstIsFirst(log, a, d);
    HistoryDistinct(log, d);
    if SelfIssued(FirstTouch(log, a).value, a) && |History(log, d)| > 1 {
      ScanHead(st.chunks, ByAddress(a), Total(st, d), cap, [uid, uid]);
    }
    NotTwice(History(log, d), uid);
  }

  /** Recipient and attester histories share chunk keys. Both readings of an
      address are right exactly when its roles are separate. */
  lemma BothReadingsExact(st: IndexState, log: seq<Entry>, cap: nat, a: Address)
    requires cap > 1 && Mirrors(st, log, cap) && DistinctUids(log)
    ensures (Reading(st, Recipient(a), cap) == History(log, Recipient(a))
             && Reading(st, Attester(a), cap) == History(log, Attester(a)))
            <==> Separate(log, a)
  {
    var r, t := Recipient(a), Attester(a);
    var hr, ht := History(log, r), History(log, t);
    assert Total(st, r) == |hr| && Total(st, t) == |ht|;
    if hr == [] {
      SoleReading(st, log, cap, t);
    } else if ht == [] {
      SoleReading(st, log, cap, r);
    } else if Separate(log, a) {
      SharedOnce(st, log, cap, a);
    } else if Reading(st, r, cap) == hr && Reading(st, t, cap) == ht {
      RightReading(st, log, cap, a, r);
      RightReading(st, log, cap, a, t);
      assert false;
    }
  }

  lemma HistoryOfTwo(first: Entry, second: Entry, d: Dim)
    ensures History([first, second], d) == Grow(Grow([], first.uid, Selects(d, first)), second.uid, Selects(d, second))
  {
    assert [first, second] == [] + [first] + [second];
    HistorySnoc([], first, d);
    HistorySnoc([] + [first], second, d);
  }

  lemma TwoMirror(first: Entry, second: Entry, cap: nat)
    requires cap > 1
    ensures Mirrors(Inserted(Inserted(EMPTY, first, cap), second, cap), [first, second], cap)
  {
    hide Mirrors, Inserted;
    assert [first, second] == [] + [first] + [second];
    EmptyMirrors(cap);
    InsertMirrors(EMPTY, [], first, cap);
    InsertMirrors(Inserted(EMPTY, first, cap), [] + [first], second, cap);
  }

  /** A run in which the shared keys mislead: an address receives one attestation
      and issues another, and its readings are not both right. */
  lemma SharedKeysMislead(cap: nat, a: Address, received: Entry, issued: Entry)
    requires cap > 1 && received.uid != issued.uid
    requires received.meta.recipient == a != received.meta.attester
             && issued.meta.attester == a != issued.meta.recipient
    ensures var st := Inserted(Inserted(EMPTY, received, cap), issued, cap);
            !(Reading(st, Recipient(a), cap) == [received.uid] && Reading(st, Attester(a), cap) == [issued.uid])
  {
    TwoMirror(received, issued, cap);
    HistoryOfTwo(received, issued, Recipient(a));
    HistoryOfTwo(received, issued, Attester(a));
    hide Inserted, Mirrors, History, Reading;
    BothReadingsExact(Inserted(Inserted(EMPTY, received, cap), issued, cap), [received, issued], cap, a);
  }

  lemma SharedOnce(st: IndexState, log: seq<Entry>, cap: nat, a: Address)
    requires cap > 1 && Mirrors(st, log, cap) && DistinctUids(log)
    requires History(log, Recipient(a)) == History(log, Attester(a)) && |History(log, Recipient(a))| == 1
    ensures Reading(st, Recipient(a), cap) == History(log, Recipient(a))
    ensures Reading(st, Attester(a), cap) == History(log, Attester(a))
  {
    OnlyTouch(log, a);
    assert HeadOk(st.chunks, a, FirstTouch(log, a));
    assert ChunkIndex(0, cap) == 0;
  }

  /** With one recipient entry and one attester entry of the same UID, that
      entry is the first to name the address. */
  lemma {:induction false} OnlyTouch(log: seq<Entry>, a: Address)
    requires DistinctUids(log)
    requires History(log, Recipient(a)) == History(log, Attester(a)) && |History(log, Recipient(a))| == 1
    ensures FirstTouch(log, a).Some? && FirstTouch(log, a).value.uid == History(log, Recipient(a))[0]
  {
    var init, last := log[..|log| - 1], log[|log| - 1];
    LastIsFresh(log, Recipient(a));
    LastIsFresh(log, Attester(a));
    if Touches(last, a) {
      assert History(init, Recipient(a)) != [] ==> last.uid in History(init, Recipient(a));
      assert History(init, Attester(a)) != [] ==> last.uid in History(init, Attester(a));
      NoTouch(init, a);
    } else {
      OnlyTouch(init, a);
    }
  }

  lemma {:induction false} NoTouch(log: seq<Entry>, a: Address)
    requires History(log, Recipient(a)) == [] && History(log, Attester(a)) == []
    ensures FirstTouch(log, a).None?
  {
    if log != [] { NoTouch(log[..|log| - 1], a); }
  }

  // ------------------------------------------------------------ conservation

  datatype Kind = RecipientKind | SchemaKind | AttesterKind | ExpiryKind

  function KindOf(d: Dim): Kind {
    match d
    case Recipient(_) => RecipientKind
    case Schema(_) => SchemaKind
    case Attester(_) => AttesterKind
    case Expiry(_) => ExpiryKind
  }

  ghost function Sum(totals: map<Dim, nat>, keys: set<Dim>): nat
    requires keys <= totals.Keys
  {
    if keys == {} then 0 else var d :| d in keys; totals[d] + Sum(totals, keys - {d})
  }

  lemma {:induction false} SumPick(totals: map<Dim, nat>, keys: set<Dim>, d: Dim)
    requires keys <= totals.Keys && d in keys
    ensures Sum(totals, keys) == totals[d] + Sum(totals, keys - {d})
    decreases keys
  {
    var p :| p in keys && Sum(totals, keys) == totals[p] + Sum(totals, keys - {p});
    if p != d {
      SumPick(totals, keys - {p}, d);
      SumPick(totals, keys - {d}, p);
      assert keys - {p} - {d} == keys - {d} - {p};
    }
  }

  lemma {:induction false} SumSame(a: map<Dim, nat>, b: map<Dim, nat>, keys: set<Dim>)
    requires keys <= a.Keys && keys <= b.Keys && forall d :: d in keys ==> a[d] == b[d]
    ensures Sum(a, keys) == Sum(b, keys)
    decreases keys
  {
    if keys != {} {
      var d :| d in keys;
      SumPick(a, keys, d);
      SumPick(b, keys, d);
      SumSame(a, b, keys - {d});
    }
  }

  ghost function KeysOf(totals: map<Dim, nat>, kind: Kind): set<Dim> {
    set d | d in totals && KindOf(d) == kind
  }

  /** All counters of one dimension, added up. */
  ghost function KindSum(totals: map<Dim, nat>, kind: Kind): nat {
    Sum(totals, KeysOf(totals, kind))
  }

  lemma KeysGrow(totals: map<Dim, nat>, d: Dim, n: nat, kind: Kind)
    ensures var olds, news := KeysOf(totals, kind), KeysOf(totals[d := n], kind);
            && olds - {d} == news - {d} && (KindOf(d) == kind <==> d in news)
            && (KindOf(d) != kind || d !in totals ==> olds - {d} == olds)
            && (KindOf(d) != kind ==> news - {d} == news)
  {}

  lemma AppendTotals(st: IndexState, d: Dim, uid: Uid, cap: nat)
    requires cap > 0
    ensures Append(st, d, uid, cap).totals == st.totals[d := Total(st, d) + 1]
  {}

  lemma AppendSum(st: IndexState, d: Dim, uid: Uid, cap: nat, kind: Kind)
    requires cap > 0
    ensures KindSum(Append(st, d, uid, cap).totals, kind) ==
            KindSum(st.totals, kind) + if KindOf(d) == kind then 1 else 0
  {
    var before, after := st.totals, st.totals[d := Total(st, d) + 1];
    hide Sum, Append;
    var olds, news := KeysOf(before, kind), KeysOf(after, kind);
    KeysGrow(before, d, Total(st, d) + 1, kind);
    SumSame(before, after, olds - {d});
    if KindOf(d) == kind {
      SumPick(after, news, d);
      if d in before { SumPick(before, olds, d); }
    }
    AppendTotals(st, d, uid, cap);
  }

  /** An insertion adds exactly one to the grand total of every dimension. */
  lemma InsertSum(st: IndexState, e: Entry, cap: nat, kind: Kind)
    requires cap > 0
    ensures KindSum(Inserted(st, e, cap).totals, kind) == KindSum(st.totals, kind) + 1
  {
    hide Append, KindSum;
    var st1 := Append(st, Recipient(e.meta.recipient), e.uid, cap);
    var st2 := Append(st1, Schema(e.meta.schema), e.uid, cap);
    var st3 := Append(st2, Attester(e.meta.attester), e.uid, cap);
    AppendSum(st, Recipient(e.meta.recipient), e.uid, cap, kind);
    AppendSum(st1, Schema(e.meta.schema), e.uid, cap, kind);
    AppendSum(st2, Attester(e.meta.attester), e.uid, cap, kind);
    AppendSum(st3, Expiry(Bucket(e.meta.expirationTime)), e.uid, cap, kind);
  }
}
