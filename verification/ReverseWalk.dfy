/**
 The indexer's newest-first reader, and what happens when a history written
 with one chunk capacity is read with another.
 */
module ReverseWalk {
  import opened Base
  import opened Chunks

  /** `next` is the position to resume at; `None` says the walk is over. */
  datatype ReversePage = ReversePage(uids: seq<Uid>, next: Option<nat>)

  function Reversed<T>(s: seq<T>): seq<T> {
    if s == [] then [] else [s[|s| - 1]] + Reversed(s[..|s| - 1])
  }

  function KeptOne(uid: Uid, status: Statuses, all: bool): seq<Uid> {
    if all || IsActive(status, uid) then [uid] else []
  }

  /** The first `n` entries of `h` that pass the filter, newest first. */
  function Newest(h: seq<Uid>, n: nat, status: Statuses, all: bool): seq<Uid>
    requires n <= |h|
  {
    if n == 0 then [] else KeptOne(h[n - 1], status, all) + Newest(h, n - 1, status, all)
  }

  lemma {:induction false} ReversedSnoc<T>(s: seq<T>, t: T)
    ensures Reversed(s + [t]) == [t] + Reversed(s)
  {
    assert (s + [t])[..|s|] == s;
  }

  lemma KeptSnoc(h: seq<Uid>, n: nat, status: Statuses, all: bool)
    requires 0 < n <= |h|
    ensures Kept(h[..n], status, all) == Kept(h[..n - 1], status, all) + KeptOne(h[n - 1], status, all)
  {
    assert h[..n][..n - 1] == h[..n - 1];
  }

  lemma ReversedAppend(older: seq<Uid>, one: seq<Uid>)
    requires |one| <= 1
    ensures Reversed(older + one) == one + Reversed(older)
  {
    if one == [] {
      assert older + one == older && one + Reversed(older) == Reversed(older);
    } else {
      assert one == [one[0]];
      ReversedSnoc(older, one[0]);
    }
  }

  lemma ReversalStep(h: seq<Uid>, n: nat, status: Statuses, all: bool)
    requires 0 < n <= |h| && Newest(h, n - 1, status, all) == Reversed(Kept(h[..n - 1], status, all))
    ensures Newest(h, n, status, all) == Reversed(Kept(h[..n], status, all))
  {
    var one := KeptOne(h[n - 1], status, all);
    hide Kept, KeptOne, Reversed, Newest;
    NewestStep(h, n, status, all);
    KeptSnoc(h, n, status, all);
    ReversedAppend(Kept(h[..n - 1], status, all), one);
  }

  lemma ReversalStart(h: seq<Uid>, status: Statuses, all: bool)
    ensures Newest(h, 0, status, all) == Reversed(Kept(h[..0], status, all))
  {
    assert h[..0] == [];
  }

  lemma {:induction false} NewestIsReversal(h: seq<Uid>, n: nat, status: Statuses, all: bool)
    requires n <= |h|
    ensures Newest(h, n, status, all) == Reversed(Kept(h[..n], status, all))
  {
    hide Kept, Reversed, Newest;
    ReversalStart(h, status, all);
    if n > 0 {
      NewestIsReversal(h, n - 1, status, all);
      ReversalStep(h, n, status, all);
    }
  }

  lemma NewestNone(h: seq<Uid>, status: Statuses, all: bool)
    ensures Newest(h, 0, status, all) == []
  {}

  lemma NewestStep(h: seq<Uid>, n: nat, status: Statuses, all: bool)
    requires 0 < n <= |h|
    ensures Newest(h, n, status, all) == KeptOne(h[n - 1], status, all) + Newest(h, n - 1, status, all)
  {}

  /** What a backward read from `index` with `room` free places returns. It
      always divides by 100, whatever the chunks were written with. */
  function ReverseScan(store: Store, status: Statuses, k: Lookup, index: nat, room: nat, all: bool): ReversePage {
    if room == 0 then ReversePage([], Some(index)) else
      var entry := At(store, k, index, MAX_CHUNK_SIZE);
      if entry.None? then ReversePage([], None) else
        var kept := KeptOne(entry.value, status, all);
        if index == 0 then ReversePage(kept, None) else
          var rest := ReverseScan(store, status, k, index - 1, room - |kept|, all);
          ReversePage(kept + rest.uids, rest.next)
  }

  lemma ReverseTurn(store: Store, status: Statuses, k: Lookup, index: nat, room: nat, all: bool)
    ensures var entry := At(store, k, index, MAX_CHUNK_SIZE);
            ReverseScan(store, status, k, index, room, all) ==
            if room == 0 then ReversePage([], Some(index))
            else if entry.None? then ReversePage([], None)
            else if index == 0 then ReversePage(KeptOne(entry.value, status, all), None)
            else
              var kept := KeptOne(entry.value, status, all);
              var rest := ReverseScan(store, status, k, index - 1, room - |kept|, all);
              ReversePage(kept + rest.uids, rest.next)
  {}

  /** `collect_reverse_page` */
  method CollectReversePage(store: Store, status: Statuses, k: Lookup, total: nat, cursor: Option<nat>,
                            limit: nat, all: bool)
    returns (page: ReversePage)
    ensures page ==
            if total == 0 || limit == 0 || cursor.GetOr(total - 1) >= total then ReversePage([], None)
            else ReverseScan(store, status, k, cursor.GetOr(total - 1), limit, all)
  {
    hide At, ChunkIndex, Start, ReverseScan;
    page := ReversePage([], None);
    if total == 0 || limit == 0 { return; }
    var index: nat := cursor.GetOr(total - 1);
    if index >= total { return; }
    ghost var rest := ReverseScan(store, status, k, index, limit, all);
    ghost var whole := rest;
    var cache, entry := Cache(None, []), None;
    while |page.uids| < limit
      invariant |page.uids| <= limit && page.next == None && cache.Fresh(store, k)
      invariant rest == ReverseScan(store, status, k, index, limit - |page.uids|, all)
      invariant whole == ReversePage(page.uids + rest.uids, rest.next)
      decreases index
    {
      ReverseTurn(store, status, k, index, limit - |page.uids|, all);
      cache, entry := LoadChunk(store, k, index, MAX_CHUNK_SIZE, cache);
      if entry.None? { break; }
      var kept := KeptOne(entry.value, status, all);
      ghost var before := page.uids;
      page := page.(uids := page.uids + kept);
      if index == 0 { return; }
      index := index - 1;
      rest := ReverseScan(store, status, k, index, limit - |page.uids|, all);
      Assoc(before, kept, rest.uids);
    }
    if |page.uids| == limit {
      ReverseTurn(store, status, k, index, 0, all);
      page := page.(next := Some(index));
    }
  }

  /** The same page, read off the plain history. */
  function PageOf(h: seq<Uid>, status: Statuses, index: nat, room: nat, all: bool): ReversePage
    requires index < |h|
  {
    if room == 0 then ReversePage([], Some(index)) else
      var kept := KeptOne(h[index], status, all);
      if index == 0 then ReversePage(kept, None) else
        var rest := PageOf(h, status, index - 1, room - |kept|, all);
        ReversePage(kept + rest.uids, rest.next)
  }

  /** The page a reader owes for a cursor; `None` starts at the newest entry. */
  function RightPage(h: seq<Uid>, status: Statuses, cursor: Option<nat>, limit: nat, all: bool): ReversePage {
    if h == [] || limit == 0 || cursor.GetOr(|h| - 1) >= |h| then ReversePage([], None)
    else PageOf(h, status, cursor.GetOr(|h| - 1), limit, all)
  }

  /** A backward read whose entries are all found where they should be. */
  lemma {:induction false} ScanFindsPage(store: Store, status: Statuses, k: Lookup, h: seq<Uid>,
                                         index: nat, room: nat, all: bool)
    requires index < |h| && forall p: nat :: p <= index ==> At(store, k, p, MAX_CHUNK_SIZE) == Some(h[p])
    ensures ReverseScan(store, status, k, index, room, all) == PageOf(h, status, index, room, all)
    decreases index
  {
    hide ReverseScan, PageOf, At;
    ReverseTurn(store, status, k, index, room, all);
    PageTurn(h, status, index, room, all);
    if room > 0 && index > 0 {
      ScanFindsPage(store, status, k, h, index - 1, room - |KeptOne(h[index], status, all)|, all);
    }
  }

  /** An entry is found with divisor `d` if that is the capacity its chunk was
      written with, or if it is in the first chunk. */
  lemma EntryFound(store: Store, k: Lookup, h: seq<Uid>, c: nat, p: nat, d: nat)
    requires 0 < c <= d && Represents(store, k, h, c) && p < |h| && (c == d || p < c)
    ensures At(store, k, p, d) == Some(h[p])
  {
    if c == d {
      EntryAt(store, k, h, p, c);
    } else {
      assert ReadChunk(store, k, 0) == Slot(h, 0, c);
      StartUnique(p, d, ChunkIndex(p, d), 0);
    }
  }

  /** Chunk boundaries do not show in a backward read of 100-entry chunks, nor
      below the capacity of smaller ones. */
  lemma ScanIsPage(store: Store, status: Statuses, k: Lookup, h: seq<Uid>, c: nat, index: nat, room: nat, all: bool)
    requires 0 < c <= MAX_CHUNK_SIZE && Represents(store, k, h, c) && index < |h|
    requires c == MAX_CHUNK_SIZE || index < c
    ensures ReverseScan(store, status, k, index, room, all) == PageOf(h, status, index, room, all)
  {
    hide ReverseScan, PageOf, At, Represents;
    forall p: nat | p <= index ensures At(store, k, p, MAX_CHUNK_SIZE) == Some(h[p]) {
      EntryFound(store, k, h, c, p, MAX_CHUNK_SIZE);
    }
    ScanFindsPage(store, status, k, h, index, room, all);
  }

  lemma PageTurn(h: seq<Uid>, status: Statuses, index: nat, room: nat, all: bool)
    requires index < |h|
    ensures PageOf(h, status, index, room, all) ==
            if room == 0 then ReversePage([], Some(index))
            else if index == 0 then ReversePage(KeptOne(h[index], status, all), None)
            else
              var kept := KeptOne(h[index], status, all);
              var rest := PageOf(h, status, index - 1, room - |kept|, all);
              ReversePage(kept + rest.uids, rest.next)
  {}

  /** A page shows entries of the history, and active ones unless all are asked
      for. */
  lemma {:induction false} PageMember(h: seq<Uid>, status: Statuses, index: nat, room: nat, all: bool, u: Uid)
    requires index < |h| && u in PageOf(h, status, index, room, all).uids
    ensures u in h && (all || u !in status || status[u] == Active)
    decreases index
  {
    if u !in KeptOne(h[index], status, all) {
      PageMember(h, status, index - 1, room - |KeptOne(h[index], status, all)|, all, u);
    }
  }

  /** How many of the oldest entries a page leaves to later pages. */
  function Left(page: ReversePage): nat {
    if page.next.Some? then page.next.value + 1 else 0
  }

  /** A cursor comes with a full page, and moves strictly down. */
  lemma {:induction false} PageCursor(h: seq<Uid>, status: Statuses, index: nat, room: nat, all: bool)
    requires index < |h|
    ensures var page := PageOf(h, status, index, room, all);
            && |page.uids| <= room
            && Left(page) <= index + 1 && (room > 0 ==> Left(page) <= index)
            && (page.next.Some? ==> |page.uids| == room)
    decreases index
  {
    if room > 0 && index > 0 {
      PageCursor(h, status, index - 1, room - |KeptOne(h[index], status, all)|, all);
    }
  }

  /** A page and what its cursor leaves out make up everything that was pending:
      no gap and no repeat. */
  lemma {:induction false} PageExact(h: seq<Uid>, status: Statuses, index: nat, room: nat, all: bool)
    requires index < |h|
    ensures var page := PageOf(h, status, index, room, all);
            && Left(page) <= |h|
            && Newest(h, index + 1, status, all) == page.uids + Newest(h, Left(page), status, all)
    decreases index
  {
    hide KeptOne, PageOf, Newest;
    PageCursor(h, status, index, room, all);
    PageTurn(h, status, index, room, all);
    NewestStep(h, index + 1, status, all);
    NewestNone(h, status, all);
    if room > 0 && index > 0 {
      var kept := KeptOne(h[index], status, all);
      PageExact(h, status, index - 1, room - |kept|, all);
      var rest := PageOf(h, status, index - 1, room - |kept|, all);
      Assoc(kept, rest.uids, Newest(h, Left(rest), status, all));
    }
  }

  /** Taking a page keeps what was shown and what is left together. */
  lemma PageContinues(h: seq<Uid>, status: Statuses, left: nat, room: nat, all: bool, out: seq<Uid>)
    requires 0 < left <= |h| && room > 0
    ensures var page := PageOf(h, status, left - 1, room, all);
            Left(page) < left && out + Newest(h, left, status, all) ==
              (out + page.uids) + Newest(h, Left(page), status, all)
  {
    hide PageOf, Newest;
    PageCursor(h, status, left - 1, room, all);
    PageExact(h, status, left - 1, room, all);
    var page := PageOf(h, status, left - 1, room, all);
    Assoc(out, page.uids, Newest(h, Left(page), status, all));
  }

  /** The page after the newest `total - left` entries. */
  method PageAfter(store: Store, status: Statuses, k: Lookup, total: nat, cursor: Option<nat>, left: nat, limit: nat,
                   all: bool, ghost h: seq<Uid>)
    returns (page: ReversePage)
    requires Represents(store, k, h, MAX_CHUNK_SIZE) && total == |h| && 0 < left <= total && limit > 0
    requires cursor.GetOr(total - 1) == left - 1
    ensures page == PageOf(h, status, left - 1, limit, all)
  {
    hide PageOf, ReverseScan, Represents;
    ScanIsPage(store, status, k, h, MAX_CHUNK_SIZE, left - 1, limit, all);
    page := CollectReversePage(store, status, k, total, cursor, limit, all);
  }

  /** The walk along `next`, page after page. */
  method WalkPages(store: Store, status: Statuses, k: Lookup, total: nat, all: bool, limits: nat -> nat,
      ghost h: seq<Uid>)
    returns (out: seq<Uid>)
    requires Represents(store, k, h, MAX_CHUNK_SIZE) && total == |h|
    requires forall turn: nat :: limits(turn) > 0
    ensures out == Newest(h, total, status, all)
  {
    hide Newest, PageOf, Represents;
    NewestNone(h, status, all);
    out := [];
    var cursor: Option<nat>, turn: nat, left: nat := None, 0, total;
    ghost var whole := Newest(h, total, status, all);
    assert [] + whole == whole;
    while left > 0
      invariant left <= total && (left > 0 ==> cursor.GetOr(total - 1) == left - 1)
      invariant whole == out + Newest(h, left, status, all)
      decreases left
    {
      var page := PageAfter(store, status, k, total, cursor, left, limits(turn), all, h);
      PageContinues(h, status, left, limits(turn), all, out);
      out, cursor, left, turn := out + page.uids, page.next, Left(page), turn + 1;
    }
  }

  /** Following `next` from `None` with any positive limits ends, and shows the
      whole (filtered) history once, newest first. */
  method WalkNewestFirst(store: Store, status: Statuses, k: Lookup, total: nat, all: bool, limits: nat -> nat,
                         ghost h: seq<Uid>)
    returns (out: seq<Uid>)
    requires Represents(store, k, h, MAX_CHUNK_SIZE) && total == |h|
    requires forall turn: nat :: limits(turn) > 0
    ensures out == Reversed(Kept(h, status, all))
  {
    hide Newest, Kept, Reversed, Represents;
    NewestIsReversal(h, total, status, all);
    assert h[..total] == h;
    out := WalkPages(store, status, k, total, all, limits, h);
  }

  // ------------------------------------------- one capacity written, another read

  /** A history that fits one chunk looks the same under both capacities. */
  lemma OneChunk(store: Store, k: Lookup, h: seq<Uid>, c: nat, d: nat)
    requires 0 < c && 0 < d && |h| <= c && |h| <= d && Represents(store, k, h, c)
    ensures Represents(store, k, h, d)
  {
    forall i: nat
      ensures ReadChunk(store, k, i) == Slot(h, i, d)
    {
      assert ReadChunk(store, k, i) == Slot(h, i, c);
      if i > 0 {
        StartMono(0, i, c);
        StartMono(0, i, d);
      }
    }
  }

  lemma {:induction false} SmallerChunksStartEarlier(i: nat, c: nat, d: nat)
    requires 0 < i && c < d
    ensures Start(i, c) < Start(i, d)
  {
    if i > 1 { SmallerChunksStartEarlier(i - 1, c, d); }
  }

  /** Dividing by less than the chunk size lands strictly past the wanted
      position, once that is beyond the divisor. */
  lemma LandsPast(store: Store, k: Lookup, h: seq<Uid>, d: nat, index: nat, c: nat)
    requires 0 < c < d && c <= index && Represents(store, k, h, d)
    ensures var chunk, offset := ReadChunk(store, k, ChunkIndex(index, c)), Offset(index, c);
            chunk.Some? && offset < |chunk.value| ==>
              exists q :: index < q < |h| && chunk.value[offset] == h[q]
  {
    hide ChunkIndex;
    var i, offset := ChunkIndex(index, c), Offset(index, c);
    assert ReadChunk(store, k, i) == Slot(h, i, d);
    SmallerChunksStartEarlier(i, c, d);
    var chunk := ReadChunk(store, k, i);
    if chunk.Some? && offset < |chunk.value| {
      assert chunk.value[offset] == h[Start(i, d) + offset];
    }
  }

  lemma {:induction false} Overshoots(store: Store, k: Lookup, h: seq<Uid>, d: nat, index: nat, end: nat, c: nat)
    requires 0 < c < d && c <= index && end <= |h| && Represents(store, k, h, d)
    ensures var out := Scan(store, k, index, end, c);
            out != [] ==> exists q :: index < q < |h| && out[0] == h[q]
    decreases |h| - index
  {
    hide ChunkIndex, Start, Slot;
    if index < end {
      LandsPast(store, k, h, d, index, c);
      var i := ChunkIndex(index, c);
      StartShift(i, c);
      Overshoots(store, k, h, d, Start(i + 1, c), end, c);
    }
  }

  /** A read at capacity `c` that starts below `c` gets what it wants of the first,
      bigger chunk. */
  lemma FirstChunkPart(store: Store, k: Lookup, h: seq<Uid>, d: nat, from: nat, to: nat, c: nat)
    requires 0 < c < d && from < c && from < to <= |h| && Represents(store, k, h, d)
    ensures Scan(store, k, from, to, c) == h[from..Min(to, d)] + Scan(store, k, Min(to, d), to, c)
  {
    hide Scan;
    assert ReadChunk(store, k, 0) == Slot(h, 0, d);
    StartUnique(from, c, ChunkIndex(from, c), 0);
    ScanTurn(store, k, h[0..Min(|h|, d)], from, to, c);
    SliceOfSlice(h, 0, Min(|h|, d), from, Min(to, d));
  }

  /** A tail that is empty, or starts with a later entry, is the wrong tail. */
  lemma TailDiffers(h: seq<Uid>, from: nat, mid: nat, to: nat, tail: seq<Uid>)
    requires from <= mid < to <= |h| && Distinct(h)
    requires tail != [] ==> exists q :: mid < q < |h| && tail[0] == h[q]
    ensures h[from..mid] + tail != h[from..to]
  {
    assert tail != [] ==> (h[from..mid] + tail)[mid - from] == tail[0];
    assert h[from..to][mid - from] == h[mid];
  }

  /** The expiration index is written in chunks of 100 and read forward with the
      configured capacity `c`. At another capacity than 100 a window of it is
      right exactly when it starts below `c` and ends within the first 100. */
  lemma ExpiryWindowExact(store: Store, k: Lookup, h: seq<Uid>, from: nat, to: nat, c: nat)
    requires 0 < c < MAX_CHUNK_SIZE && Represents(store, k, h, MAX_CHUNK_SIZE) && Distinct(h) && from < to <= |h|
    ensures Scan(store, k, from, to, c) == h[from..to] <==> from < c && to <= MAX_CHUNK_SIZE
  {
    hide Scan, Represents;
    var d := MAX_CHUNK_SIZE;
    if from >= c {
      Overshoots(store, k, h, d, from, to, c);
      TailDiffers(h, from, from, to, Scan(store, k, from, to, c));
      assert h[from..from] + Scan(store, k, from, to, c) == Scan(store, k, from, to, c);
    } else {
      FirstChunkPart(store, k, h, d, from, to, c);
      if to <= d {
        ScanDone(store, k, to, to, c);
      } else {
        Overshoots(store, k, h, d, d, to, c);
        TailDiffers(h, from, d, to, Scan(store, k, d, to, c));
      }
    }
  }

  /** The complete read is right exactly when `c` is 100 or everything fits the
      first chunk. */
  lemma ExpiryReadExact(store: Store, k: Lookup, h: seq<Uid>, c: nat)
    requires 0 < c <= MAX_CHUNK_SIZE && Represents(store, k, h, MAX_CHUNK_SIZE) && Distinct(h)
    ensures Scan(store, k, 0, |h|, c) == h <==> c == MAX_CHUNK_SIZE || |h| <= MAX_CHUNK_SIZE
  {
    hide Scan, Represents;
    assert h[0..|h|] == h;
    if c == MAX_CHUNK_SIZE {
      ScanIsSlice(store, k, h, 0, |h|, c);
    } else if h == [] {
      ScanDone(store, k, 0, 0, c);
    } else {
      ExpiryWindowExact(store, k, h, 0, |h|, c);
    }
  }

  /** Its pages are right at every cursor exactly when `c` is 100 or everything
      fits a chunk of `c`. */
  lemma ExpiryPagesExact(store: Store, k: Lookup, h: seq<Uid>, c: nat)
    requires 0 < c <= MAX_CHUNK_SIZE && Represents(store, k, h, MAX_CHUNK_SIZE) && Distinct(h)
    ensures (forall from: nat, to: nat :: from <= to <= |h| ==> Scan(store, k, from, to, c) == h[from..to])
            <==> c == MAX_CHUNK_SIZE || |h| <= c
  {
    hide Scan, Represents;
    if c == MAX_CHUNK_SIZE || |h| <= c {
      forall from: nat, to: nat | from <= to <= |h|
        ensures Scan(store, k, from, to, c) == h[from..to]
      {
        if c == MAX_CHUNK_SIZE {
          ScanIsSlice(store, k, h, from, to, c);
        } else if from == to {
          ScanDone(store, k, from, to, c);
        } else {
          ExpiryWindowExact(store, k, h, from, to, c);
        }
      }
    } else {
      ExpiryWindowExact(store, k, h, c, c + 1, c);
    }
  }

  /** Dividing by more than the chunk size finds nothing, or an older entry. */
  lemma LandsBefore(store: Store, k: Lookup, h: seq<Uid>, c: nat, index: nat, d: nat)
    requires 0 < c < d && c <= index && Represents(store, k, h, c) && Distinct(h) && index < |h|
    ensures At(store, k, index, d) != Some(h[index])
  {
    var i := ChunkIndex(index, d);
    assert ReadChunk(store, k, i) == Slot(h, i, c);
    if i > 0 { SmallerChunksStartEarlier(i, c, d); }
  }

  /** The reverse walk divides by 100 although the chunks were written with the
      configured capacity `c`. An unfiltered page is right exactly when `c` is 100
      or its cursor is below `c`; otherwise its entries are wrong. */
  lemma ReverseReadExact(store: Store, status: Statuses, k: Lookup, h: seq<Uid>, c: nat, index: nat, limit: nat)
    requires 0 < c <= MAX_CHUNK_SIZE && Represents(store, k, h, c) && Distinct(h) && index < |h| && limit > 0
    ensures var page, right := ReverseScan(store, status, k, index, limit, true), PageOf(h, status, index, limit, true);
            && (page == right <==> c == MAX_CHUNK_SIZE || index < c)
            && (page.uids == right.uids <==> c == MAX_CHUNK_SIZE || index < c)
  {
    hide ReverseScan, PageOf, At, Represents;
    if c == MAX_CHUNK_SIZE || index < c {
      ScanIsPage(store, status, k, h, c, index, limit, true);
    } else {
      LandsBefore(store, k, h, c, index, MAX_CHUNK_SIZE);
      ReverseTurn(store, status, k, index, limit, true);
      PageTurn(h, status, index, limit, true);
      FirstOfPage(store, status, k, h, index, limit);
    }
  }

  /** An unfiltered page starts with the entry at its cursor. */
  lemma FirstOfPage(store: Store, status: Statuses, k: Lookup, h: seq<Uid>, index: nat, limit: nat)
    requires index < |h| && limit > 0
    ensures var page, right := ReverseScan(store, status, k, index, limit, true), PageOf(h, status, index, limit, true);
            && right.uids != [] && right.uids[0] == h[index]
            && (page.uids != [] ==> At(store, k, index, MAX_CHUNK_SIZE) == Some(page.uids[0]))
  {
    hide At;
  }
}
