/**
 The indexer's chunked histories: one append-only list of UIDs per lookup key,
 cut into fixed-capacity vectors, and the loops that read it back.

 `Represents` ties the chunks stored under a key to the plain sequence they
 stand for. The readers are total: they also run on stores that represent
 nothing, as the contract's do.
 */
module Chunks {
  import opened Base

  datatype ExpirationStatus = Perpetual | Expiring

  /** What a chunk is stored under. Recipients and attesters share `ByAddress`. */
  datatype Lookup = ByAddress(address: Address) | BySchema(schema: Uid) | ByExpiry(bucket: ExpirationStatus)

  datatype ChunkKey = ChunkKey(owner: Lookup, index: nat)

  type Store = map<ChunkKey, seq<Uid>>

  datatype IndexStatus = Active | Revoked | Replaced

  type Statuses = map<Uid, IndexStatus>

  const DEFAULT_CHUNK_SIZE := 100
  const MIN_CHUNK_SIZE := 25
  const MAX_CHUNK_SIZE := 100
  const UID_BYTES := 36
  const MAX_CHUNK_BYTES := 32_768

  /** The clamped capacity in force for a stored setting, or for none. */
  function ChunkCapacity(stored: Option<nat>): (c: nat)
    ensures MIN_CHUNK_SIZE <= c <= MAX_CHUNK_SIZE
    ensures stored == None ==> c == DEFAULT_CHUNK_SIZE
    ensures stored.Some? ==> c == if stored.value < 25 then 25 else if stored.value > 100 then 100 else stored.value
  {
    var upper := Min(MAX_CHUNK_SIZE, MAX_CHUNK_BYTES / UID_BYTES);
    var lower := Min(MIN_CHUNK_SIZE, upper);
    Max(lower, Min(stored.GetOr(DEFAULT_CHUNK_SIZE), upper))
  }

  function ReadChunk(store: Store, k: Lookup, i: nat): Option<seq<Uid>> {
    Get(store, ChunkKey(k, i))
  }

  // Quotient and remainder by the capacity, defined by counting chunks so that
  // proofs about them stay linear; `Quotient` says they are `/` and `%`.

  /** Position of the first entry of chunk `i`. */
  function Start(i: nat, cap: nat): nat {
    if i == 0 then 0 else Start(i - 1, cap) + cap
  }

  /** The chunk that holds position `p`. */
  function ChunkIndex(p: nat, cap: nat): (i: nat)
    requires cap > 0
    ensures Start(i, cap) <= p < Start(i, cap) + cap
  {
    if p < cap then 0 else StartShift(ChunkIndex(p - cap, cap), cap); 1 + ChunkIndex(p - cap, cap)
  }

  function Offset(p: nat, cap: nat): nat
    requires cap > 0
  {
    p - Start(ChunkIndex(p, cap), cap)
  }

  lemma StartShift(i: nat, cap: nat)
    ensures Start(i + 1, cap) == Start(i, cap) + cap
  {}

  lemma {:induction false} StartMono(i: nat, j: nat, cap: nat)
    requires i < j
    ensures Start(i, cap) + cap <= Start(j, cap)
  {
    if i + 1 < j { StartMono(i, j - 1, cap); }
  }

  lemma {:induction false} StartIsProduct(i: nat, cap: nat)
    ensures Start(i, cap) == i * cap
  {
    if i > 0 { StartIsProduct(i - 1, cap); }
  }

  lemma StartUnique(p: nat, cap: nat, i: nat, j: nat)
    requires Start(i, cap) <= p < Start(i, cap) + cap && Start(j, cap) <= p < Start(j, cap) + cap
    ensures i == j
  {
    if i < j { StartMono(i, j, cap); }
    if j < i { StartMono(j, i, cap); }
  }

  lemma StartOfQuotient(p: nat, cap: nat)
    requires cap > 0
    ensures Start(p / cap, cap) == p - p % cap
  {
    StartIsProduct(p / cap, cap);
  }

  lemma Quotient(p: nat, cap: nat)
    requires cap > 0
    ensures ChunkIndex(p, cap) == p / cap && Offset(p, cap) == p % cap
  {
    StartOfQuotient(p, cap);
    StartUnique(p, cap, ChunkIndex(p, cap), p / cap);
  }

  /** Chunk `i` of history `h`; a chunk past the end does not exist. */
  function Slot(h: seq<Uid>, i: nat, cap: nat): Option<seq<Uid>> {
    if Start(i, cap) < |h| then Some(h[Start(i, cap)..Min(|h|, Start(i, cap) + cap)]) else None
  }

  ghost predicate Represents(store: Store, k: Lookup, h: seq<Uid>, cap: nat) {
    forall i: nat :: ReadChunk(store, k, i) == Slot(h, i, cap)
  }

  /** The write shared by every dimension: append to the chunk the counter
      points at, or to its successor when that chunk is already full. */
  function Appended(store: Store, k: Lookup, total: nat, uid: Uid, cap: nat): Store
    requires cap > 0
  {
    var i := ChunkIndex(total, cap);
    var chunk := ReadChunk(store, k, i).GetOr([]);
    if |chunk| >= cap
    then store[ChunkKey(k, i + 1) := ReadChunk(store, k, i + 1).GetOr([]) + [uid]]
    else store[ChunkKey(k, i) := chunk + [uid]]
  }

  /** Appending with the right counter appends to the represented history. */
  lemma AppendExtends(store: Store, k: Lookup, h: seq<Uid>, uid: Uid, cap: nat)
    requires cap > 0 && Represents(store, k, h, cap)
    ensures Represents(Appended(store, k, |h|, uid, cap), k, h + [uid], cap)
  {
    var at := ChunkIndex(|h|, cap);
    var h' := h + [uid];
    var store' := Appended(store, k, |h|, uid, cap);
    assert ReadChunk(store, k, at) == Slot(h, at, cap);
    hide ChunkIndex, Start;
    forall i: nat
      ensures ReadChunk(store', k, i) == Slot(h', i, cap)
    {
      assert ReadChunk(store, k, i) == Slot(h, i, cap);
      if i < at { StartMono(i, at, cap); }
      if i > at { StartMono(at, i, cap); }
      SlotSnoc(h, uid, i, cap);
    }
  }

  /** One more entry lengthens the chunk it falls into. */
  lemma SlotSnoc(h: seq<Uid>, uid: Uid, i: nat, cap: nat)
    requires cap > 0
    ensures Slot(h + [uid], i, cap) ==
            if Start(i, cap) <= |h| < Start(i, cap) + cap then Some(Slot(h, i, cap).GetOr([]) + [uid])
            else Slot(h, i, cap)
  {
    var s, h' := Start(i, cap), h + [uid];
    if s <= |h| < s + cap {
      assert h'[s..|h'|] == h[s..|h|] + [uid];
    } else if s + cap <= |h| {
      assert h'[s..s + cap] == h[s..s + cap];
    }
  }

  /** Whatever is stored, the UID goes to the end of the chunk the counter points at,
      or of the next one if that is full; no other chunk changes. */
  lemma AppendExact(store: Store, k: Lookup, total: nat, uid: Uid, cap: nat, j: nat)
    requires cap > 0
    ensures var full := |ReadChunk(store, k, total / cap).GetOr([])| >= cap;
            var at := if full then total / cap + 1 else total / cap;
            ReadChunk(Appended(store, k, total, uid, cap), k, j) ==
            if j == at then Some(ReadChunk(store, k, j).GetOr([]) + [uid]) else ReadChunk(store, k, j)
  {
    Quotient(total, cap);
  }

  /** A write under one key leaves every other key's chunks alone. */
  lemma AppendFrame(store: Store, k: Lookup, total: nat, uid: Uid, cap: nat, other: Lookup)
    requires cap > 0 && other != k
    ensures forall i: nat :: ReadChunk(Appended(store, k, total, uid, cap), other, i) == ReadChunk(store, other, i)
  {}

  /** Whatever the counter says, a write never disturbs the elements of chunk 0. */
  lemma AppendKeepsHead(store: Store, k: Lookup, total: nat, uid: Uid, cap: nat)
    requires cap > 0 && ReadChunk(store, k, 0).Some?
    ensures ReadChunk(Appended(store, k, total, uid, cap), k, 0).Some?
    ensures ReadChunk(store, k, 0).value <= ReadChunk(Appended(store, k, total, uid, cap), k, 0).value
  {}

  // ---------------------------------------------------------------- forward

  /** The entries a forward read of positions `[index, end)` meets. */
  function Scan(store: Store, k: Lookup, index: nat, end: nat, cap: nat): seq<Uid>
    requires cap > 0
    decreases end - index
  {
    if index >= end then [] else
      match ReadChunk(store, k, ChunkIndex(index, cap))
      case None => []
      case Some(chunk) =>
        var offset := Offset(index, cap);
        if offset >= |chunk| then
          Scan(store, k, Start(ChunkIndex(index, cap) + 1, cap), end, cap)
        else
          var take := Min(|chunk| - offset, end - index);
          chunk[offset..offset + take] + Scan(store, k, index + take, end, cap)
  }

  lemma SliceOfSlice<T>(h: seq<T>, from: nat, to: nat, lo: nat, hi: nat)
    requires from <= lo <= hi <= to <= |h|
    ensures h[from..to][lo - from..hi - from] == h[lo..hi]
  {
    var a, b := h[from..to][lo - from..hi - from], h[lo..hi];
    assert forall i :: 0 <= i < hi - lo ==> a[i] == h[from..to][lo - from + i] == b[i];
  }

  lemma SliceConcat<T>(h: seq<T>, lo: nat, mid: nat, hi: nat)
    requires lo <= mid <= hi <= |h|
    ensures h[lo..hi] == h[lo..mid] + h[mid..hi]
  {}

  /** The entries a forward read takes from a chunk that reaches far enough. */
  lemma ScanTurn(store: Store, k: Lookup, chunk: seq<Uid>, index: nat, end: nat, cap: nat)
    requires cap > 0 && index < end && ReadChunk(store, k, ChunkIndex(index, cap)) == Some(chunk)
    requires Offset(index, cap) < |chunk|
    ensures var offset := Offset(index, cap);
            var take := Min(|chunk| - offset, end - index);
            Scan(store, k, index, end, cap) == chunk[offset..offset + take] + Scan(store, k, index + take, end, cap)
  {
    hide ChunkIndex, Start;
  }

  lemma ScanPiece(store: Store, k: Lookup, h: seq<Uid>, index: nat, end: nat, cap: nat)
    requires cap > 0 && Represents(store, k, h, cap) && index < end <= |h|
    ensures var take := Min(Start(ChunkIndex(index, cap), cap) + cap - index, end - index);
            take > 0 && Scan(store, k, index, end, cap) ==
              h[index..index + take] + Scan(store, k, index + take, end, cap)
  {
    hide ChunkIndex, Start, Scan;
    var i := ChunkIndex(index, cap);
    var from, to := Start(i, cap), Min(|h|, Start(i, cap) + cap);
    assert ReadChunk(store, k, i) == Slot(h, i, cap) == Some(h[from..to]);
    ScanTurn(store, k, h[from..to], index, end, cap);
    SliceOfSlice(h, from, to, index, index + Min(to - index, end - index));
  }

  lemma {:induction false} ScanIsSlice(store: Store, k: Lookup, h: seq<Uid>, index: nat, end: nat, cap: nat)
    requires cap > 0 && Represents(store, k, h, cap) && index <= end <= |h|
    ensures Scan(store, k, index, end, cap) == h[index..end]
    decreases end - index
  {
    hide Scan, ChunkIndex, Start;
    if index == end {
      ScanDone(store, k, index, end, cap);
    } else {
      var take := Min(Start(ChunkIndex(index, cap), cap) + cap - index, end - index);
      ScanPiece(store, k, h, index, end, cap);
      ScanIsSlice(store, k, h, index + take, end, cap);
      SliceConcat(h, index, index + take, end);
    }
  }

  predicate IsActive(status: Statuses, uid: Uid) {
    uid !in status || status[uid] == Active
  }

  /** `h` without its revoked and replaced entries, unless they are asked for. */
  function Kept(h: seq<Uid>, status: Statuses, all: bool): seq<Uid> {
    if h == [] then []
    else Kept(h[..|h| - 1], status, all) +
         (if all || IsActive(status, h[|h| - 1]) then [h[|h| - 1]] else [])
  }

  lemma {:induction false} KeptConcat(a: seq<Uid>, b: seq<Uid>, status: Statuses, all: bool)
    ensures Kept(a + b, status, all) == Kept(a, status, all) + Kept(b, status, all)
  {
    if b == [] {
      assert a + b == a;
    } else {
      KeptConcat(a, b[..|b| - 1], status, all);
      assert (a + b)[..|a + b| - 1] == a + b[..|b| - 1];
    }
  }

  lemma KeptExtend(h: seq<Uid>, from: nat, to: nat, status: Statuses, all: bool)
    requires from <= to < |h|
    ensures Kept(h[from..to + 1], status, all) ==
            Kept(h[from..to], status, all) + (if all || IsActive(status, h[to]) then [h[to]] else [])
  {
    assert h[from..to + 1][..to - from] == h[from..to];
  }

  /** What is kept are the entries of `h` without a status, or whose status is
      `Active`. */
  lemma {:induction false} KeptMember(h: seq<Uid>, status: Statuses, all: bool, u: Uid)
    ensures u in Kept(h, status, all) <==> u in h && (all || u !in status || status[u] == Active)
  {
    if h != [] { KeptMember(h[..|h| - 1], status, all, u); }
  }

  lemma KeptNone(status: Statuses, all: bool)
    ensures Kept([], status, all) == []
  {}

  lemma {:induction false} KeptAll(h: seq<Uid>, status: Statuses)
    ensures Kept(h, status, true) == h
  {
    if h != [] { KeptAll(h[..|h| - 1], status); }
  }

  function Take<T>(s: seq<T>, n: nat): seq<T> {
    if n <= |s| then s[..n] else s
  }

  /** The inner loop of the filtered read: the kept entries of one chunk. */
  method KeepFrom(piece: seq<Uid>, status: Statuses, all: bool) returns (out: seq<Uid>)
    ensures out == Kept(piece, status, all)
  {
    out := [];
    for o := 0 to |piece|
      invariant out == Kept(piece[..o], status, all)
    {
      assert piece[..o + 1][..o] == piece[..o];
      if all || IsActive(status, piece[o]) { out := out + [piece[o]]; }
    }
    assert piece[..|piece|] == piece;
  }

  lemma ScanDone(store: Store, k: Lookup, index: nat, end: nat, cap: nat)
    requires cap > 0 && index >= end
    ensures Scan(store, k, index, end, cap) == []
  {}

  /** One turn of the forward loops: the entries of one chunk inside the
      window and the position after them, or `None` when the chunk is missing. */
  method NextPiece(store: Store, k: Lookup, index: nat, end: nat, cap: nat)
    returns (turn: Option<(seq<Uid>, nat)>)
    requires cap > 0 && index < end
    ensures turn.None? ==> Scan(store, k, index, end, cap) == []
    ensures turn.Some? ==> index < turn.value.1
    ensures turn.Some? ==>
              Scan(store, k, index, end, cap) == turn.value.0 + Scan(store, k, turn.value.1, end, cap)
  {
    hide ChunkIndex, Start;
    var i, offset := ChunkIndex(index, cap), Offset(index, cap);
    var chunk := ReadChunk(store, k, i);
    if chunk.None? { return None; }
    if offset >= |chunk.value| {
      StartShift(i, cap);
      return Some(([], Start(i + 1, cap)));
    }
    var take := Min(|chunk.value| - offset, end - index);
    return Some((chunk.value[offset..offset + take], index + take));
  }

  /** `collect_filtered`: the whole history, with or without inactive entries. */
  method CollectFiltered(store: Store, status: Statuses, k: Lookup, total: nat, cap: nat, all: bool)
    returns (out: seq<Uid>)
    requires cap > 0
    ensures out == Kept(Scan(store, k, 0, total, cap), status, all)
  {
    hide Scan, Kept;
    out := [];
    var index: nat := 0;
    ghost var whole := Kept(Scan(store, k, 0, total, cap), status, all);
    KeptNone(status, all);
    while index < total
      invariant whole == out + Kept(Scan(store, k, index, total, cap), status, all)
      decreases total - index
    {
      var turn := NextPiece(store, k, index, total, cap);
      if turn.None? { return; }
      var kept := KeepFrom(turn.value.0, status, all);
      ghost var rest := Scan(store, k, turn.value.1, total, cap);
      KeptConcat(turn.value.0, rest, status, all);
      Assoc(out, kept, Kept(rest, status, all));
      out, index := out + kept, turn.value.1;
    }
    ScanDone(store, k, index, total, cap);
  }

  /** `collect_page`: the window of at most `limit` entries from `cursor`. */
  method CollectPage(store: Store, k: Lookup, total: nat, cursor: nat, limit: nat, cap: nat)
    returns (page: seq<Uid>)
    requires cap > 0 && total <= U32_MAX
    ensures page == if cursor < total then Scan(store, k, cursor, Min(total, cursor + limit), cap) else []
  {
    hide Scan;
    page := [];
    ScanDone(store, k, cursor, cursor, cap);
    if limit == 0 || cursor >= total { return; }
    var end := Min(total, SatAdd(cursor, limit, U32_MAX));
    var index := cursor;
    while index < end
      invariant Scan(store, k, cursor, end, cap) == page + Scan(store, k, index, end, cap)
      decreases end - index
    {
      var turn := NextPiece(store, k, index, end, cap);
      if turn.None? { return; }
      Assoc(page, turn.value.0, Scan(store, k, turn.value.1, end, cap));
      page := page + turn.value.0;
      index := turn.value.1;
    }
    ScanDone(store, k, index, end, cap);
  }

  /** The entry at position `p`, if its chunk exists and reaches that far. */
  function At(store: Store, k: Lookup, p: nat, cap: nat): Option<Uid>
    requires cap > 0
  {
    match ReadChunk(store, k, ChunkIndex(p, cap))
    case None => None
    case Some(chunk) => if Offset(p, cap) < |chunk| then Some(chunk[Offset(p, cap)]) else None
  }

  lemma EntryAt(store: Store, k: Lookup, h: seq<Uid>, index: nat, cap: nat)
    requires cap > 0 && Represents(store, k, h, cap) && index < |h|
    ensures ReadChunk(store, k, ChunkIndex(index, cap)).Some?
    ensures At(store, k, index, cap) == Some(h[index])
  {
    hide ChunkIndex, Start;
    assert ReadChunk(store, k, ChunkIndex(index, cap)) == Slot(h, ChunkIndex(index, cap), cap);
  }

  /** The chunk a one-entry-at-a-time loop has in hand. */
  datatype Cache = Cache(loaded: Option<nat>, chunk: seq<Uid>) {
    predicate Fresh(store: Store, k: Lookup) {
      loaded.Some? ==> ReadChunk(store, k, loaded.value) == Some(chunk)
    }
  }

  /** Loads the chunk of position `p` unless it is already in hand. */
  method LoadChunk(store: Store, k: Lookup, p: nat, cap: nat, cache: Cache) returns (c: Cache, entry: Option<Uid>)
    requires cap > 0 && cache.Fresh(store, k)
    ensures c.Fresh(store, k)
    ensures c.loaded.Some? <==> ReadChunk(store, k, ChunkIndex(p, cap)).Some?
    ensures entry == At(store, k, p, cap)
  {
    hide ChunkIndex, Start;
    var i := ChunkIndex(p, cap);
    c := cache;
    if cache.loaded != Some(i) {
      match ReadChunk(store, k, i)
      case None => return Cache(None, []), None;
      case Some(chunk) => c := Cache(Some(i), chunk);
    }
    var offset := Offset(p, cap);
    entry := if offset < |c.chunk| then Some(c.chunk[offset]) else None;
  }

  /** `get_recipient_page_filtered` and its siblings: from position `cursor`,
      the first `limit` entries that pass the filter. The chunk in hand is kept
      across iterations. */
  method CollectPageFiltered(store: Store, status: Statuses, k: Lookup, total: nat, cursor: nat, limit: nat,
                             cap: nat, all: bool, ghost h: seq<Uid>)
    returns (out: seq<Uid>)
    requires cap > 0
    ensures Represents(store, k, h, cap) && total == |h| ==>
              out == if cursor < total then Take(Kept(h[cursor..], status, all), limit) else []
    ensures |out| <= limit
  {
    KeptNone(status, all);
    hide ChunkIndex, Start, At, Slot, Kept;
    out := [];
    if limit == 0 || cursor >= total { return; }
    ghost var exact := Represents(store, k, h, cap) && total == |h|;
    var index, cache, entry := cursor, Cache(None, []), None;
    assert exact ==> h[cursor..cursor] == [];
    while index < total && |out| < limit
      invariant cursor <= index && |out| <= limit && cache.Fresh(store, k)
      invariant exact ==> index <= total && out == Kept(h[cursor..index], status, all)
      decreases total - index
    {
      if exact { EntryAt(store, k, h, index, cap); }
      cache, entry := LoadChunk(store, k, index, cap, cache);
      if cache.loaded.None? { return; }
      if entry.None? {
        StartShift(ChunkIndex(index, cap), cap);
        index := Start(ChunkIndex(index, cap) + 1, cap);
      } else {
        if exact { KeptExtend(h, cursor, index, status, all); }
        if all || IsActive(status, entry.value) { out := out + [entry.value]; }
        index := index + 1;
      }
    }
    if exact { KeptPrefix(h, cursor, index, status, all); }
  }

  /** Filtering a prefix gives a prefix of the filtered whole. */
  lemma KeptPrefix(h: seq<Uid>, from: nat, mid: nat, status: Statuses, all: bool)
    requires from <= mid <= |h|
    ensures Kept(h[from..mid], status, all) <= Kept(h[from..], status, all)
    ensures mid == |h| ==> Kept(h[from..mid], status, all) == Kept(h[from..], status, all)
  {
    assert h[from..] == h[from..mid] + h[mid..];
    KeptConcat(h[from..mid], h[mid..], status, all);
  }
}
