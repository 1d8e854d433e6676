/** Batch search: the threads claim queries in morsels and write each answer to the row of its query.
    Under every interleaving, once all threads have exited, every row holds the search of its query. */
module BatchSearch {
  import opened Arithmetic
  import opened Vectors
  import opened Entries
  import opened Pages
  import opened TopK
  import opened Heaps
  import opened Probes
  import opened Baseline
  import opened Databases
  import opened Exactness

  /** The next query of a thread and the end of the morsel it claimed. */
  datatype BatchWorker = BatchWorker(current: nat, end: nat, exited: bool)

  /** A row holds the answer over the first pages, as many as the budget allows: the kept entries, in heap order,
      from its start. */
  ghost predicate Answers(row: seq<Entry>, pages: seq<Page>, query: Vec, k: nat, budget: nat)
    requires 0 < k
  {
    var ps := ProbesFor(pages, query);
    var kept := Search(if budget < |ps| then ps[..budget] else ps, k);
    |kept| <= |row| && IsHeap(row[..|kept|]) && Sort(row[..|kept|]) == kept
  }

  predicate HasRow(length: nat, i: nat, k: nat) {
    i * k + k <= length
  }

  function Row(result: seq<Entry>, i: nat, k: nat): seq<Entry>
    requires HasRow(|result|, i, k)
  {
    result[i * k..i * k + k]
  }

  lemma HeapAnswers(heap: seq<Entry>, n: nat, pages: seq<Page>, query: Vec, k: nat, budget: nat)
    requires 0 < k && n <= |heap| && IsHeap(heap[..n])
    requires var ps := ProbesFor(pages, query);
      Sort(heap[..n]) == Search(if budget < |ps| then ps[..budget] else ps, k)
    ensures Answers(heap, pages, query, k, budget)
  {
    hide Search, ProbesFor, IsHeap, Sort;
  }

  /** One query of the worker: its search in the thread's part of the local buffer, copied to its row;
      everything outside the row stays. */
  method SearchOne(db: Database, query: Vec, k: nat, budget: nat, local: array<Entry>, lo: nat,
                   result: array<Entry>, row: nat)
    requires db.Valid() && |query| == db.dim && 0 < k && lo + k <= local.Length && local != result
    requires row + k <= result.Length
    modifies local, result
    ensures Answers(result[row..row + k], db.pages, query, k, budget)
    ensures result[..row] == old(result[..row]) && result[row + k..] == old(result[row + k..])
    ensures forall j :: 0 <= j < local.Length && !(lo <= j < lo + k) ==> local[j] == old(local[j])
  {
    hide Answers, Search, ProbesFor, IsHeap, Sort, PagesOk, AnchorsAgree, RadiusEntriesUpTo;
    var nOutputs := db.FindKnnOne(query, k, budget, local, lo);
    assert Span(local, lo, k)[..nOutputs] == Span(local, lo, nOutputs);
    HeapAnswers(Span(local, lo, k), nOutputs, db.pages, query, k, budget);
    hide Span;
    CopyRow(local, lo, k, result, row);
  }

  method CopyRow(local: array<Entry>, lo: nat, k: nat, result: array<Entry>, row: nat)
    requires lo + k <= local.Length && row + k <= result.Length && local != result
    modifies result
    ensures result[row..row + k] == Span(local, lo, k)
    ensures result[..row] == old(result[..row]) && result[row + k..] == old(result[row + k..])
  {
    ghost var source := Span(local, lo, k);
    for j := 0 to k
      invariant forall p :: 0 <= p < j ==> result[row + p] == source[p]
      invariant forall p :: 0 <= p < result.Length && !(row <= p < row + j) ==> result[p] == old(result[p])
    {
      result[row + j] := local[lo + j];
    }
  }

  /** Every claimed query has its row, or still lies ahead in the morsel of some thread. */
  ghost predicate Claimed(workers: seq<BatchWorker>, next: nat, n: nat, done: set<nat>) {
    && (forall i :: 0 <= i < n && i < next && i !in done ==>
          exists w :: 0 <= w < |workers| && workers[w].current <= i < workers[w].end)
    && (forall w :: 0 <= w < |workers| && workers[w].exited ==> workers[w].current >= workers[w].end && next >= n)
  }

  /** Row i of the result answers query i. */
  ghost predicate RowHolds(result: seq<Entry>, pages: seq<Page>, queries: seq<Vec>, k: nat, budget: nat, i: int)
    requires 0 < k
  {
    0 <= i < |queries| && HasRow(|result|, i, k) && Answers(Row(result, i, k), pages, queries[i], k, budget)
  }

  ghost predicate RowsHold(result: seq<Entry>, pages: seq<Page>, queries: seq<Vec>, k: nat, budget: nat, done: set<nat>)
    requires 0 < k
  {
    forall i :: i in done ==> RowHolds(result, pages, queries, k, budget, i)
  }

  lemma SliceBefore<T>(a: seq<T>, b: seq<T>, lo: nat, hi: nat, x: nat)
    requires lo <= hi <= x <= |a| == |b| && a[..x] == b[..x]
    ensures a[lo..hi] == b[lo..hi]
  {
    forall i | lo <= i < hi ensures a[i] == b[i] {
      assert a[i] == a[..x][i] && b[i] == b[..x][i];
    }
  }

  lemma SliceAfter<T>(a: seq<T>, b: seq<T>, lo: nat, hi: nat, y: nat)
    requires y <= lo <= hi <= |a| == |b| && a[y..] == b[y..]
    ensures a[lo..hi] == b[lo..hi]
  {
    forall i | lo <= i < hi ensures a[i] == b[i] {
      assert a[i] == a[y..][i - y] && b[i] == b[y..][i - y];
    }
  }

  lemma OtherRowStays(a: seq<Entry>, b: seq<Entry>, i: nat, c: nat, k: nat)
    requires i != c && |a| == |b| && HasRow(|a|, i, k) && HasRow(|a|, c, k)
    requires a[..c * k] == b[..c * k] && a[c * k + k..] == b[c * k + k..]
    ensures Row(a, i, k) == Row(b, i, k)
  {
    if i < c {
      RegionsApart(i, c, k);
      SliceBefore(a, b, i * k, i * k + k, c * k);
    } else {
      RegionsApart(c, i, k);
      SliceAfter(a, b, i * k, i * k + k, c * k + k);
    }
  }

  /** The two results agree on every row but row c. */
  ghost predicate OtherRowsStay(a: seq<Entry>, b: seq<Entry>, k: nat, c: nat) {
    |a| == |b| && forall i: nat :: i != c && HasRow(|a|, i, k) ==> Row(a, i, k) == Row(b, i, k)
  }

  lemma OthersStay(a: seq<Entry>, b: seq<Entry>, k: nat, c: nat)
    requires |a| == |b| && HasRow(|a|, c, k)
    requires a[..c * k] == b[..c * k] && a[c * k + k..] == b[c * k + k..]
    ensures OtherRowsStay(a, b, k, c)
  {
    hide HasRow, Row;
    forall i: nat | i != c && HasRow(|a|, i, k) ensures Row(a, i, k) == Row(b, i, k) {
      OtherRowStays(a, b, i, c, k);
    }
  }

  lemma RowAdded(a: seq<Entry>, b: seq<Entry>, pages: seq<Page>, queries: seq<Vec>, k: nat, budget: nat,
                 done: set<nat>, c: nat)
    requires 0 < k && RowsHold(a, pages, queries, k, budget, done) && OtherRowsStay(a, b, k, c)
    requires RowHolds(b, pages, queries, k, budget, c)
    ensures RowsHold(b, pages, queries, k, budget, done + {c})
  {
    hide HasRow, Row, Answers;
  }

  predicate Ahead(wk: BatchWorker, i: nat) {
    wk.current <= i < wk.end
  }

  /** What is ahead of thread w is claimed, unanswered, and ahead of no other thread. */
  ghost predicate OwnAlone(workers: seq<BatchWorker>, next: nat, done: set<nat>, w: nat)
    requires w < |workers|
  {
    forall i: nat :: Ahead(workers[w], i) ==>
      i < next && i !in done && forall v :: 0 <= v < |workers| && v != w ==> !Ahead(workers[v], i)
  }

  /** No query ahead in a morsel belongs to another thread as well, or has been answered, or can still be claimed. */
  ghost predicate OnlyOnce(workers: seq<BatchWorker>, next: nat, done: set<nat>) {
    && (forall i :: i in done ==> i < next)
    && forall w :: 0 <= w < |workers| ==> OwnAlone(workers, next, done, w)
  }

  lemma NextQuery(workers: seq<BatchWorker>, next: nat, n: nat, done: set<nat>, w: nat)
    requires Claimed(workers, next, n, done) && OnlyOnce(workers, next, done)
    requires w < |workers| && workers[w].current < workers[w].end
    ensures workers[w].current !in done
    ensures var ws, now := workers[w := workers[w].(current := workers[w].current + 1)], done + {workers[w].current};
      Claimed(ws, next, n, now) && OnlyOnce(ws, next, now)
  {
    var c := workers[w].current;
    var ws := workers[w := workers[w].(current := c + 1)];
    assert OwnAlone(workers, next, done, w) && Ahead(workers[w], c);
    forall i | 0 <= i < n && i < next && i !in done + {c}
      ensures exists u :: 0 <= u < |ws| && ws[u].current <= i < ws[u].end
    {
      var u :| 0 <= u < |workers| && workers[u].current <= i < workers[u].end;
      assert ws[u].current <= i < ws[u].end;
    }
    NextQueryOnce(workers, next, done, w);
  }

  lemma NextQueryOnce(workers: seq<BatchWorker>, next: nat, done: set<nat>, w: nat)
    requires OnlyOnce(workers, next, done) && w < |workers| && workers[w].current < workers[w].end
    ensures OnlyOnce(workers[w := workers[w].(current := workers[w].current + 1)], next, done + {workers[w].current})
  {
    var c := workers[w].current;
    var ws := workers[w := workers[w].(current := c + 1)];
    assert OwnAlone(workers, next, done, w) && Ahead(workers[w], c);
    forall u | 0 <= u < |ws| ensures OwnAlone(ws, next, done + {c}, u) {
      assert OwnAlone(workers, next, done, u);
      forall i: nat | Ahead(ws[u], i)
        ensures i < next && i !in done + {c} && forall v :: 0 <= v < |ws| && v != u ==> !Ahead(ws[v], i)
      {
        assert Ahead(workers[u], i);
      }
    }
  }

  lemma NextMorselOnce(workers: seq<BatchWorker>, next: nat, n: nat, done: set<nat>, w: nat, step: nat)
    requires OnlyOnce(workers, next, done) && w < |workers| && workers[w].current >= workers[w].end
    ensures OnlyOnce(workers[w := ClaimedMorsel(next, step, n)], next + step, done)
  {
    var ws, bound := workers[w := ClaimedMorsel(next, step, n)], next + step;
    forall u | 0 <= u < |ws| ensures OwnAlone(ws, bound, done, u) {
      assert OwnAlone(workers, next, done, u);
      forall i: nat | Ahead(ws[u], i)
        ensures i < bound && i !in done && forall v :: 0 <= v < |ws| && v != u ==> !Ahead(ws[v], i)
      {
        forall v | 0 <= v < |ws| && v != u ensures !Ahead(ws[v], i) {
          assert OwnAlone(workers, next, done, v);
        }
      }
    }
  }

  /** A claim takes queries nobody has claimed, and leaves none out. */
  lemma NextMorsel(workers: seq<BatchWorker>, next: nat, n: nat, done: set<nat>, w: nat, step: nat)
    requires Claimed(workers, next, n, done) && OnlyOnce(workers, next, done)
    requires w < |workers| && workers[w].current >= workers[w].end && 0 < step
    ensures var ws := workers[w := ClaimedMorsel(next, step, n)];
      Claimed(ws, next + step, n, done) && OnlyOnce(ws, next + step, done)
  {
    var ws := workers[w := ClaimedMorsel(next, step, n)];
    forall i | 0 <= i < n && i < next + step && i !in done
      ensures exists u :: 0 <= u < |ws| && ws[u].current <= i < ws[u].end
    {
      if i < next {
        var u :| 0 <= u < |workers| && workers[u].current <= i < workers[u].end;
        assert ws[u].current <= i < ws[u].end;
      } else {
        assert next < n;
        assert ws[w].current <= i < ws[w].end;
      }
    }
    NextMorselOnce(workers, next, n, done, w, step);
  }

  /** The state of a thread that drew a morsel: at or past the last query it returns. */
  function ClaimedMorsel(morsel: nat, step: nat, n: nat): BatchWorker {
    if morsel >= n then BatchWorker(morsel, morsel, true)
    else BatchWorker(morsel, if n < step + morsel then n else step + morsel, false)
  }

  /** The batch call under a schedule naming the thread that moves: a thread answers the next query of
      its morsel in its own part of the local buffer, or claims another morsel. */
  method FindKnnBatch(db: Database, queries: seq<Vec>, k: nat, nPagesToProbe: nat, step: nat, nThreads: nat,
                      local: array<Entry>, size: nat, sched: seq<nat>)
      returns (result: array<Entry>, workers: seq<BatchWorker>)
    requires db.Valid() && 0 < k <= size && 0 < step && 0 < nThreads && local.Length == nThreads * size
    requires forall i :: 0 <= i < |queries| ==> |queries[i]| == db.dim
    requires forall w :: w in sched ==> w < nThreads
    modifies local
    ensures fresh(result) && result.Length == |queries| * k && |workers| == nThreads
    ensures var budget := if nPagesToProbe == 0 then |db.cachedMaxDists| else nPagesToProbe;
      (forall w :: 0 <= w < nThreads ==> workers[w].exited) ==>
        forall i :: 0 <= i < |queries| ==> RowHolds(result[..], db.pages, queries, k, budget, i)
  {
    hide RowHolds, PagesOk, AnchorsAgree, RadiusEntriesUpTo, Claimed, OnlyOnce, RowsHold;
    var n, budget := |queries|, if nPagesToProbe == 0 then |db.cachedMaxDists| else nPagesToProbe;
    result := new Entry[n * k](_ => Entry(0.0, 0));
    workers := seq(nThreads, _ => BatchWorker(0, 0, false));
    var next := 0;
    ghost var done: set<nat> := {};
    NothingClaimed(workers, n);
    NoRows(result[..], db.pages, queries, k, budget);
    for m := 0 to |sched|
      invariant fresh(result) && |workers| == nThreads
      invariant forall w :: 0 <= w < nThreads && !workers[w].exited ==> workers[w].end <= n
      invariant Claimed(workers, next, n, done) && OnlyOnce(workers, next, done)
      invariant RowsHold(result[..], db.pages, queries, k, budget, done)
    {
      var w := sched[m];
      assert w in sched;
      if workers[w].exited {
        continue;
      }
      var c := workers[w].current;
      if c < workers[w].end {
        RegionsApart(w, nThreads, size);
        AnswerNext(db, queries, k, budget, local, w * size, result, c, done);
        NextQuery(workers, next, n, done, w);
        done := done + {c};
        workers := workers[w := workers[w].(current := c + 1)];
      } else {
        NextMorsel(workers, next, n, done, w, step);
        workers := workers[w := ClaimedMorsel(next, step, n)];
        next := next + step;
      }
    }
    if forall w :: 0 <= w < nThreads ==> workers[w].exited {
      AllClaimed(workers, next, n, done);
      EveryRow(result[..], db.pages, queries, k, budget, done);
    }
  }

  /** Answers query c of the batch and keeps the rows already written. */
  method AnswerNext(db: Database, queries: seq<Vec>, k: nat, budget: nat, local: array<Entry>, lo: nat,
                    result: array<Entry>, c: nat, ghost done: set<nat>)
    requires db.Valid() && 0 < k && lo + k <= local.Length && local != result && c < |queries|
    requires result.Length == |queries| * k
    requires |queries[c]| == db.dim && RowsHold(result[..], db.pages, queries, k, budget, done)
    modifies local, result
    ensures RowsHold(result[..], db.pages, queries, k, budget, done + {c})
  {
    hide Answers, PagesOk, AnchorsAgree, RadiusEntriesUpTo, RowsHold;
    RegionsApart(c, |queries|, k);
    ghost var before := result[..];
    SearchOne(db, queries[c], k, budget, local, lo, result, c * k);
    assert Row(result[..], c, k) == result[c * k..c * k + k];
    assert before[..c * k] == result[..][..c * k] && before[c * k + k..] == result[..][c * k + k..];
    OthersStay(before, result[..], k, c);
    RowAdded(before, result[..], db.pages, queries, k, budget, done, c);
  }

  lemma NothingClaimed(workers: seq<BatchWorker>, n: nat)
    requires forall w :: 0 <= w < |workers| ==> !workers[w].exited
    ensures Claimed(workers, 0, n, {})
    ensures (forall w :: 0 <= w < |workers| ==> workers[w].end == 0) ==> OnlyOnce(workers, 0, {})
  {
  }

  lemma NoRows(result: seq<Entry>, pages: seq<Page>, queries: seq<Vec>, k: nat, budget: nat)
    requires 0 < k
    ensures RowsHold(result, pages, queries, k, budget, {})
  {
  }

  lemma AllClaimed(workers: seq<BatchWorker>, next: nat, n: nat, done: set<nat>)
    requires Claimed(workers, next, n, done) && workers != [] && forall w :: 0 <= w < |workers| ==> workers[w].exited
    ensures forall i :: 0 <= i < n ==> i in done
  {
    assert workers[0].exited;
  }

  lemma EveryRow(result: seq<Entry>, pages: seq<Page>, queries: seq<Vec>, k: nat, budget: nat, done: set<nat>)
    requires 0 < k && RowsHold(result, pages, queries, k, budget, done) && forall i :: 0 <= i < |queries| ==> i in done
    ensures forall i :: 0 <= i < |queries| ==> RowHolds(result, pages, queries, k, budget, i)
  {
    hide RowHolds;
  }

  lemma AllPagesInBudget(pages: seq<Page>, q: Vec)
    ensures |RadiusEntriesUpTo(pages, |pages|)| == |ProbesFor(pages, q)|
  {
    SameIds(pages, q, |pages|);
    hide Sort, AnchorEntriesUpTo, RadiusEntriesUpTo;
  }

  /** With all cached pages in budget a row holds the distances brute force finds over the stored vectors. */
  lemma RowAgreesWithScan(row: seq<Entry>, pages: seq<Page>, dim: nat, capacity: nat, items: seq<Slot>, q: Vec, k: nat)
    requires PagesOk(pages, dim, capacity) && |q| == dim && 0 < k && Contents(pages) == multiset(items)
    requires Answers(row, pages, q, k, |RadiusEntriesUpTo(pages, |pages|)|)
    ensures |BruteForce(q, items, k)| <= |row|
    ensures Dists(Sort(row[..|BruteForce(q, items, k)|])) == Dists(BruteForce(q, items, k))
  {
    hide PagesOk, Contents, Search, BruteForce, ProbesFor, Sort, IsHeap, RadiusEntriesUpTo;
    IndexAgreesWithScan(pages, dim, capacity, items, q, k);
    AllPagesInBudget(pages, q);
  }
}
