/** The parallel fill of the anchor distances: the static chunks of the threads tile the page list, so
    under every interleaving the buffer ends up as the single-threaded loop leaves it. */
module ParallelFill {
  import opened Vectors
  import opened Entries
  import opened Pages
  import opened Databases

  /** First index of thread t: the threads below `left` have avg + 1 entries each, the others avg. */
  function ChunkStart(t: nat, avg: nat, left: nat): nat {
    if t < left then (avg + 1) * t else (avg + 1) * left + avg * (t - left)
  }

  function ChunkEnd(t: nat, avg: nat, left: nat, total: nat): nat {
    if t < left then ChunkStart(t, avg, left) + avg + 1
    else
      var uncheckedEnd := ChunkStart(t, avg, left) + avg;
      if uncheckedEnd > total then total else uncheckedEnd
  }

  lemma NextStart(t: nat, avg: nat, left: nat)
    ensures ChunkStart(t + 1, avg, left) == ChunkStart(t, avg, left) + avg + (if t < left then 1 else 0)
  {
    if t < left {
      assert (avg + 1) * (t + 1) == (avg + 1) * t + (avg + 1);
    } else {
      assert avg * (t + 1 - left) == avg * (t - left) + avg;
    }
  }

  lemma {:induction false} StartsAscend(t: nat, u: nat, avg: nat, left: nat)
    requires t <= u
    ensures ChunkStart(t, avg, left) <= ChunkStart(u, avg, left)
    decreases u - t
  {
    if t < u {
      NextStart(t, avg, left);
      StartsAscend(t + 1, u, avg, left);
    }
  }

  /** The start of a thread past the last one would be the length of the list. */
  lemma StartPastLast(total: nat, n: nat)
    requires 0 < n
    ensures ChunkStart(n, total / n, total % n) == total
  {
    var avg, left := total / n, total % n;
    assert avg * n + left == total;
    assert (avg + 1) * left == avg * left + left;
    assert avg * (n - left) == avg * n - avg * left;
  }

  /** Each chunk ends where the next one starts, and the last one at the end of the list: the clamp of
      the end never fires. */
  lemma ChunksAreConsecutive(total: nat, n: nat, t: nat)
    requires t < n
    ensures var avg, left := total / n, total % n;
      ChunkStart(0, avg, left) == 0
      && ChunkEnd(t, avg, left, total) == ChunkStart(t + 1, avg, left) <= total
      && (t == n - 1 ==> ChunkEnd(t, avg, left, total) == total)
  {
    var avg, left := total / n, total % n;
    StartPastLast(total, n);
    StartsAscend(t + 1, n, avg, left);
    NextStart(t, avg, left);
  }

  /** The chunks are as even as they can be: the first total % n threads have one entry more than the others. */
  lemma ChunksAreEven(total: nat, n: nat, t: nat)
    requires t < n
    ensures var avg, left := total / n, total % n;
      ChunkEnd(t, avg, left, total) - ChunkStart(t, avg, left) == if t < left then avg + 1 else avg
  {
    ChunksAreConsecutive(total, n, t);
    NextStart(t, total / n, total % n);
  }

  predicate InChunk(i: nat, t: nat, total: nat, n: nat)
    requires 0 < n
  {
    t < n && ChunkStart(t, total / n, total % n) <= i < ChunkEnd(t, total / n, total % n, total)
  }

  /** No index is filled by two threads. */
  lemma OneChunkOnly(total: nat, n: nat, i: nat, t: nat, u: nat)
    requires 0 < n && InChunk(i, t, total, n) && InChunk(i, u, total, n)
    ensures t == u
  {
    hide ChunkStart, ChunkEnd;
    ChunksAreConsecutive(total, n, u);
    ChunksAreConsecutive(total, n, t);
    if u < t { StartsAscend(u + 1, t, total / n, total % n); }
    if t < u { StartsAscend(t + 1, u, total / n, total % n); }
  }

  /** Every index is filled by some thread. */
  lemma {:induction false} ChunksCover(total: nat, n: nat, i: nat, m: nat) returns (t: nat)
    requires 0 < n && m <= n && i < ChunkStart(m, total / n, total % n)
    ensures InChunk(i, t, total, n)
    decreases m
  {
    hide ChunkStart, ChunkEnd;
    ChunksAreConsecutive(total, n, if m == 0 then 0 else m - 1);
    if ChunkStart(m - 1, total / n, total % n) <= i {
      t := m - 1;
    } else {
      t := ChunksCover(total, n, i, m - 1);
    }
  }

  /** The chunks tile the list: each index below its length lies in the chunk of exactly one thread, and
      no chunk reaches past the end. */
  lemma ChunksTile(total: nat, n: nat, i: nat)
    requires 0 < n
    ensures i < total <==> exists t :: InChunk(i, t, total, n)
    ensures forall t, u :: InChunk(i, t, total, n) && InChunk(i, u, total, n) ==> t == u
  {
    hide ChunkStart, ChunkEnd;
    if i < total {
      StartPastLast(total, n);
      var t := ChunksCover(total, n, i, n);
    }
    forall t | InChunk(i, t, total, n) ensures i < total {
      ChunksAreConsecutive(total, n, t);
    }
    forall t, u | InChunk(i, t, total, n) && InChunk(i, u, total, n) ensures t == u {
      OneChunkOnly(total, n, i, t, u);
    }
  }

  /** Where thread t writes next after nDone entries, and whether its chunk is complete. */
  function NextOf(t: nat, nDone: nat, total: nat, n: nat): nat
    requires 0 < n
  {
    ChunkStart(t, total / n, total % n) + nDone
  }

  predicate ChunkDone(t: nat, nDone: nat, total: nat, n: nat)
    requires 0 < n
  {
    NextOf(t, nDone, total, n) >= ChunkEnd(t, total / n, total % n, total)
  }

  /** What the threads have written so far is what the single-threaded loop writes. */
  ghost predicate Filled(buffer: seq<Entry>, target: seq<Entry>, nDone: seq<nat>)
    requires nDone != []
  {
    && |buffer| == |target|
    && forall t: nat, p: nat :: t < |nDone| && p < |buffer| ==>
      (NextOf(t, 0, |buffer|, |nDone|) <= p < NextOf(t, nDone[t], |buffer|, |nDone|) ==> buffer[p] == target[p])
  }

  lemma NothingFilled(buffer: seq<Entry>, target: seq<Entry>, nDone: seq<nat>)
    requires |buffer| == |target| && nDone != [] && forall t :: 0 <= t < |nDone| ==> nDone[t] == 0
    ensures Filled(buffer, target, nDone)
  {
    hide NextOf;
  }

  lemma FilledMore(buffer: seq<Entry>, target: seq<Entry>, nDone: seq<nat>, t: nat)
    requires nDone != [] && Filled(buffer, target, nDone) && t < |nDone|
    requires !ChunkDone(t, nDone[t], |target|, |nDone|)
    ensures var next := NextOf(t, nDone[t], |target|, |nDone|);
      next < |target| && Filled(buffer[next := target[next]], target, nDone[t := nDone[t] + 1])
  {
    ChunksAreConsecutive(|target|, |nDone|, t);
    hide ChunkStart;
  }

  lemma FilledByAll(buffer: seq<Entry>, target: seq<Entry>, nDone: seq<nat>)
    requires nDone != [] && Filled(buffer, target, nDone)
    requires forall t :: 0 <= t < |nDone| ==> ChunkDone(t, nDone[t], |target|, |nDone|)
    ensures buffer == target
  {
    hide ChunkStart, ChunkEnd;
    forall p | 0 <= p < |target| ensures buffer[p] == target[p] {
      StartPastLast(|target|, |nDone|);
      var t := ChunksCover(|target|, |nDone|, p, |nDone|);
      assert NextOf(t, 0, |target|, |nDone|) <= p < NextOf(t, nDone[t], |target|, |nDone|);
    }
  }

  /** The entry a worker computes for the cached page at a position of the list. */
  method CachedDistance(db: Database, query: Vec, next: nat) returns (e: Entry)
    requires db.Valid() && |query| == db.dim && next < |db.cachedMaxDists|
    ensures next < |AnchorEntriesUpTo(db.pages, query, |db.pages|)|
    ensures e == AnchorEntriesUpTo(db.pages, query, |db.pages|)[next]
  {
    hide PagesOk, AnchorsAgree, AnchorEntriesUpTo, RadiusEntriesUpTo;
    var i := db.cachedMaxDists[next].id;
    CachedAnchorEntry(db.pages, db.cachedVectors, db.dim, db.maxVectorsPerPage, query, next);
    var d := SquaredL2Distance(query, db.cachedVectors[i]);
    e := Entry(d, i);
  }

  /** The schedule names every thread often enough to reach the end of its chunk. */
  predicate EnoughTurns(sched: seq<nat>, total: nat, n: nat)
    requires 0 < n
  {
    forall t :: 0 <= t < n ==> ChunkDone(t, multiset(sched)[t], total, n)
  }

  /** Every thread has written one entry per turn, or is at the end of its chunk. */
  ghost predicate TurnsUsed(turns: seq<nat>, nDone: seq<nat>, total: nat)
    requires nDone != []
  {
    forall t :: 0 <= t < |nDone| ==> nDone[t] == multiset(turns)[t] || ChunkDone(t, nDone[t], total, |nDone|)
  }

  lemma OneMoreTurn(sched: seq<nat>, m: nat, nDone: seq<nat>, total: nat)
    requires m < |sched| && nDone != [] && sched[m] < |nDone| && TurnsUsed(sched[..m], nDone, total)
    ensures var t := sched[m];
      var now := if ChunkDone(t, nDone[t], total, |nDone|) then nDone else nDone[t := nDone[t] + 1];
      TurnsUsed(sched[..m + 1], now, total)
  {
    assert sched[..m + 1] == sched[..m] + [sched[m]];
    hide ChunkDone;
  }

  lemma AllTurnsUsed(sched: seq<nat>, nDone: seq<nat>, total: nat)
    requires nDone != [] && TurnsUsed(sched, nDone, total) && EnoughTurns(sched, total, |nDone|)
    ensures forall t :: 0 <= t < |nDone| ==> ChunkDone(t, nDone[t], total, |nDone|)
  {
    hide ChunkDone;
  }

  /** One turn of a thread that has entries left to write. */
  method WriteNext(db: Database, query: Vec, buffer: array<Entry>, nDone: seq<nat>, t: nat)
    requires db.Valid() && |query| == db.dim && buffer.Length == |db.cachedMaxDists|
    requires t < |nDone| && !ChunkDone(t, nDone[t], buffer.Length, |nDone|)
    requires Filled(buffer[..], AnchorEntriesUpTo(db.pages, query, |db.pages|), nDone)
    modifies buffer
    ensures Filled(buffer[..], AnchorEntriesUpTo(db.pages, query, |db.pages|), nDone[t := nDone[t] + 1])
  {
    ghost var target := AnchorEntriesUpTo(db.pages, query, |db.pages|);
    SameIds(db.pages, query, |db.pages|);
    assert |target| == buffer.Length;
    hide Filled, NextOf, ChunkDone, PagesOk, AnchorsAgree, AnchorEntriesUpTo, RadiusEntriesUpTo;
    FilledMore(buffer[..], target, nDone, t);
    var next := NextOf(t, nDone[t], buffer.Length, |nDone|);
    var e := CachedDistance(db, query, next);
    assert buffer[..][next := e] == buffer[..][next := target[next]];
    buffer[next] := e;
  }

  /** The m-th turn: its thread writes an entry, if it has one left. */
  method TakeTurn(db: Database, query: Vec, buffer: array<Entry>, nDone: seq<nat>, sched: seq<nat>, m: nat)
      returns (now: seq<nat>)
    requires db.Valid() && |query| == db.dim && buffer.Length == |db.cachedMaxDists| && nDone != []
    requires m < |sched| && sched[m] < |nDone|
    requires Filled(buffer[..], AnchorEntriesUpTo(db.pages, query, |db.pages|), nDone)
    requires TurnsUsed(sched[..m], nDone, buffer.Length)
    modifies buffer
    ensures |now| == |nDone| && Filled(buffer[..], AnchorEntriesUpTo(db.pages, query, |db.pages|), now)
    ensures TurnsUsed(sched[..m + 1], now, buffer.Length)
  {
    hide *;
    OneMoreTurn(sched, m, nDone, buffer.Length);
    now := nDone;
    var t := sched[m];
    if !ChunkDone(t, nDone[t], buffer.Length, |nDone|) {
      WriteNext(db, query, buffer, nDone, t);
      now := nDone[t := nDone[t] + 1];
    }
  }

  lemma FillStarts(db: Database, query: Vec, buffer: seq<Entry>, nDone: seq<nat>, sched: seq<nat>)
    requires db.Valid() && |buffer| == |db.cachedMaxDists|
    requires 0 < |nDone| && forall t :: 0 <= t < |nDone| ==> nDone[t] == 0
    ensures var target := AnchorEntriesUpTo(db.pages, query, |db.pages|);
      |target| == |db.cachedMaxDists| && Filled(buffer, target, nDone)
    ensures TurnsUsed(sched[..0], nDone, |db.cachedMaxDists|)
  {
    ghost var target := AnchorEntriesUpTo(db.pages, query, |db.pages|);
    SameIds(db.pages, query, |db.pages|);
    hide PagesOk, AnchorsAgree, AnchorEntriesUpTo, RadiusEntriesUpTo, Filled;
    NothingFilled(buffer, target, nDone);
  }

  /** Runs the fill under a schedule naming the thread that writes its next entry. Whatever the order of
      the turns, the buffer is the one of the single-threaded loop, and sorts into the visiting order. */
  method FillInterleaved(db: Database, query: Vec, nThreads: nat, sched: seq<nat>) returns (buffer: array<Entry>)
    requires db.Valid() && |query| == db.dim && 0 < nThreads
    requires (forall t :: t in sched ==> t < nThreads) && EnoughTurns(sched, |db.cachedMaxDists|, nThreads)
    ensures fresh(buffer)
    ensures buffer[..] == AnchorEntriesUpTo(db.pages, query, |db.pages|)
    ensures Sort(buffer[..]) == VisitOrder(db.pages, query)
  {
    var total := |db.cachedMaxDists|;
    buffer := new Entry[total](_ => Entry(0.0, 0));
    var nDone: seq<nat> := seq(nThreads, _ => 0);
    ghost var target := AnchorEntriesUpTo(db.pages, query, |db.pages|);
    hide *;
    FillStarts(db, query, buffer[..], nDone, sched);
    for m := 0 to |sched|
      invariant |nDone| == nThreads && Filled(buffer[..], target, nDone) && TurnsUsed(sched[..m], nDone, total)
    {
      assert sched[m] in sched;
      nDone := TakeTurn(db, query, buffer, nDone, sched, m);
    }
    assert sched[..|sched|] == sched;
    AllTurnsUsed(sched, nDone, total);
    FilledByAll(buffer[..], target, nDone);
  }
}
