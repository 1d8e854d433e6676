/** The parallel search on arrays: the context the threads share, each thread's used part of the local
    buffer as a heap, and one atomic step of a thread as a method. It refines the state machine step by
    step, so what is proved of its runs holds of the arrays. */
module ParallelRun {
  import opened Arithmetic
  import opened Vectors
  import opened Entries
  import opened Pages
  import opened SphereBound
  import opened TopK
  import opened Heaps
  import opened Probes
  import opened Databases
  import opened ParallelSearch

  /** The local variables of a thread and its entry of the output counts. */
  datatype Thread = Thread(pc: Pc, nOutputs: nat, nPruned: nat)

  /** A thread and its part of the local buffer show a worker of the state machine: the used entries are a
      heap of what the worker kept, and before the first push the first entry is what was left there. */
  ghost predicate ThreadAgrees(t: Thread, wk: Worker, part: seq<Entry>, k: nat) {
    && 0 < k == |part|
    && t.pc == wk.pc && t.nPruned == wk.nPruned
    && t.nOutputs == |wk.kept| <= k
    && IsHeap(part[..t.nOutputs]) && Sort(part[..t.nOutputs]) == wk.kept
    && (t.nOutputs == 0 ==> part[0].dist == wk.stale)
  }

  /** heap[0].first is the top of the worker's buffer, pushed or left over. */
  lemma TopIsFirst(t: Thread, wk: Worker, part: seq<Entry>, k: nat)
    requires ThreadAgrees(t, wk, part, k)
    ensures part[0].dist == Top(wk)
  {
    if t.nOutputs > 0 { RootIsLast(part[..t.nOutputs]); }
  }

  lemma SpanTake(h: array<Entry>, lo: nat, k: nat, n: nat)
    requires lo + k <= h.Length && n <= k
    ensures Span(h, lo, k)[..n] == Span(h, lo, n)
  {
  }

  /** The first k entries of the part of thread w. */
  function Part(buffer: seq<Entry>, w: nat, nThreads: nat, size: nat, k: nat): (r: seq<Entry>)
    requires w < nThreads && k <= size && |buffer| == nThreads * size
    ensures |r| == k
  {
    PartInside(w, nThreads, size, k, |buffer|);
    buffer[Offset(w, size)..Offset(w, size) + k]
  }

  /** No cell outside the part of thread w has changed. */
  ghost predicate OnlyItsPart(buffer: seq<Entry>, now: seq<Entry>, w: nat, size: nat, k: nat) {
    && |now| == |buffer|
    && forall j :: 0 <= j < |buffer| && !(Offset(w, size) <= j < Offset(w, size) + k) ==> now[j] == buffer[j]
  }

  ghost predicate AllAgree(threads: seq<Thread>, workers: seq<Worker>, buffer: seq<Entry>, size: nat, k: nat) {
    && |threads| == |workers| && 0 < k <= size && |buffer| == |threads| * size
    && forall w: nat :: w < |threads| ==> ThreadAgrees(threads[w], workers[w], Part(buffer, w, |threads|, size, k), k)
  }

  /** Whatever thread w does in its own part, the others still agree. */
  lemma OthersAgree(threads: seq<Thread>, workers: seq<Worker>, buffer: seq<Entry>, size: nat, k: nat,
                    w: nat, threads': seq<Thread>, workers': seq<Worker>, now: seq<Entry>)
    requires AllAgree(threads, workers, buffer, size, k) && w < |threads| && |now| == |buffer|
    requires |threads'| == |threads| && threads' == threads[w := threads'[w]]
    requires |workers'| == |workers| && workers' == workers[w := workers'[w]]
    requires OnlyItsPart(buffer, now, w, size, k)
    requires ThreadAgrees(threads'[w], workers'[w], Part(now, w, |threads|, size, k), k)
    ensures AllAgree(threads', workers', now, size, k)
  {
    hide ThreadAgrees;
    forall v: nat | v < |threads| && v != w
      ensures Part(now, v, |threads|, size, k) == Part(buffer, v, |threads|, size, k)
    {
      SamePart(buffer, now, |threads|, size, k, w, v);
    }
  }

  lemma SamePart(buffer: seq<Entry>, now: seq<Entry>, nThreads: nat, size: nat, k: nat, w: nat, v: nat)
    requires w < nThreads && v < nThreads && v != w && k <= size && |now| == |buffer| == nThreads * size
    requires OnlyItsPart(buffer, now, w, size, k)
    ensures Part(now, v, nThreads, size, k) == Part(buffer, v, nThreads, size, k)
  {
    PartsApart(w, v, size, k);
    PartInside(v, nThreads, size, k, |buffer|);
    hide Offset;
    SameSlice(buffer, now, Offset(v, size), Offset(v, size) + k, Offset(w, size), Offset(w, size) + k);
  }

  lemma SameSlice(a: seq<Entry>, b: seq<Entry>, lo: nat, hi: nat, from: nat, to: nat)
    requires lo <= hi <= |a| == |b| && (to <= lo || hi <= from)
    requires forall j :: 0 <= j < |a| && !(from <= j < to) ==> b[j] == a[j]
    ensures b[lo..hi] == a[lo..hi]
  {
  }

  lemma OneAgrees(threads: seq<Thread>, workers: seq<Worker>, buffer: seq<Entry>, size: nat, k: nat, w: nat)
    requires AllAgree(threads, workers, buffer, size, k) && w < |threads|
    ensures ThreadAgrees(threads[w], workers[w], Part(buffer, w, |threads|, size, k), k)
    ensures threads[w].pc == workers[w].pc
  {
  }

  class Context {
    const pages: seq<Page>
    const query: Vec
    const order: seq<Entry>  // the sorted distances to the anchors
    const maxMorsel: nat
    const step: nat
    const k: nat
    const guarded: bool
    const nThreads: nat
    const size: nat
    const local: array<Entry>
    var nextMorsel: nat
    var shared: Bound
    var nPruned: nat
    var threads: seq<Thread>
    ghost var s: State

    ghost function Search(): Config {
      Config(if forall e :: e in order ==> e.id < |pages| then ProbesOf(pages, query, order) else [],
             maxMorsel, step, k, nThreads, guarded)
    }

    ghost predicate Inputs() {
      && (forall e :: e in order ==> e.id < |pages| && CanVisit(pages, query, e))
      && (forall e :: e in order ==> forall i :: 0 <= i < |pages[e.id].slots| ==> |pages[e.id].slots[i].vec| == |query|)
      && maxMorsel <= |order| && 0 < step
      && 0 < k <= size && local.Length == nThreads * size
    }

    ghost predicate Valid()
      reads this, local
    {
      && Inputs()
      && |threads| == nThreads && |s.status| == maxMorsel
      && nextMorsel == s.nextMorsel && shared == s.shared && nPruned == s.nPruned
      && AllAgree(threads, s.workers, local[..], size, k)
    }

    /** Every thread claims first; the buffer is taken as earlier searches left it. */
    constructor (pages: seq<Page>, query: Vec, order: seq<Entry>, maxMorsel: nat, step: nat, k: nat, guarded: bool,
                 nThreads: nat, local: array<Entry>, size: nat, ghost stale: seq<real>)
      requires forall e :: e in order ==> e.id < |pages| && CanVisit(pages, query, e)
      requires forall e :: e in order ==>
        forall i :: 0 <= i < |pages[e.id].slots| ==> |pages[e.id].slots[i].vec| == |query|
      requires maxMorsel <= |order| && 0 < step && 0 < k <= size && local.Length == nThreads * size
      requires LeftOver(local[..], size, nThreads, stale)
      ensures Valid() && this.local == local && this.size == size && this.nThreads == nThreads && this.k == k
      ensures Search() == Config(ProbesOf(pages, query, order), maxMorsel, step, k, nThreads, guarded)
      ensures s == Init(Search(), stale)
    {
      this.pages, this.query, this.order, this.maxMorsel, this.step := pages, query, order, maxMorsel, step;
      this.k, this.guarded, this.nThreads, this.local, this.size := k, guarded, nThreads, local, size;
      nextMorsel, shared, nPruned := 0, Infinity, 0;
      threads := seq(nThreads, _ => Thread(Claiming, 0, 0));
      s := Init(Config(ProbesOf(pages, query, order), maxMorsel, step, k, nThreads, guarded), stale);
      new;
      forall w: nat | w < nThreads
        ensures ThreadAgrees(threads[w], s.workers[w], Part(local[..], w, nThreads, size, k), k)
      {
        MyPart(w);
      }
    }

    lemma SearchFields()
      ensures var cfg := Search();
        cfg.maxMorsel == maxMorsel && cfg.step == step && cfg.k == k && cfg.guarded == guarded
    {
    }

    lemma MyPart(w: nat)
      requires Inputs() && w < nThreads
      ensures Offset(w, size) + k <= local.Length
      ensures Span(local, Offset(w, size), k) == Part(local[..], w, nThreads, size, k)
      ensures local[Offset(w, size)] == Part(local[..], w, nThreads, size, k)[0]
    {
      PartInside(w, nThreads, size, k, local.Length);
    }

    /** One atomic step of thread w, which writes to no part of the buffer but its own. */
    method Turn(w: nat, spurious: bool)
      requires Valid() && w < nThreads
      modifies this`nextMorsel, this`shared, this`nPruned, this`threads, this`s, local
      ensures Valid() && s == Advance(Search(), old(s), Move(w, spurious))
      ensures OnlyItsPart(old(local[..]), local[..], w, size, k)
    {
      var t := threads[w];
      MyPart(w);
      TopIsFirst(t, s.workers[w], Part(local[..], w, nThreads, size, k), k);
      if t.pc.Scanning? && t.pc.current < (if t.pc.morsel + step < maxMorsel then t.pc.morsel + step else maxMorsel) {
        VisitNext(w, spurious);
      } else {
        QuietTurn(w, spurious, local[Offset(w, size)].dist);
      }
    }

    /** A step that leaves the buffers alone; top is heap[0].first. */
    method QuietTurn(w: nat, spurious: bool, top: real)
      requires Valid() && w < nThreads && top == Top(s.workers[w])
      requires threads[w].pc.Scanning? ==> threads[w].pc.current >= MorselEnd(Search(), threads[w].pc.morsel)
      modifies this`nextMorsel, this`shared, this`nPruned, this`threads, this`s
      ensures Valid() && s == Advance(Search(), old(s), Move(w, spurious))
    {
      ghost var t, wk, part := threads[w], s.workers[w], Part(local[..], w, nThreads, size, k);
      AgreesWithPc(t, wk, part, k);
      hide AllAgree, ThreadAgrees, Offset, Part, Inputs, Advance, Top, MorselEnd;
      Act(w, spurious, top);
      s := Advance(Search(), s, Move(w, spurious));
      NewPc(t, wk, part, k, threads[w].pc);
      OthersAgree(old(threads), old(s.workers), local[..], size, k, w, threads, s.workers, local[..]);
    }

    /** The step itself: the fields become those of the state machine, and only thread w moves. */
    method Act(w: nat, spurious: bool, top: real)
      requires Inputs() && |threads| == nThreads == |s.workers| && |s.status| == maxMorsel && w < nThreads
      requires nextMorsel == s.nextMorsel && shared == s.shared && nPruned == s.nPruned && top == Top(s.workers[w])
      requires threads[w].pc == s.workers[w].pc && threads[w].nPruned == s.workers[w].nPruned
      requires threads[w].nOutputs == |s.workers[w].kept|
      requires threads[w].pc.Scanning? ==> threads[w].pc.current >= MorselEnd(Search(), threads[w].pc.morsel)
      modifies this`nextMorsel, this`shared, this`nPruned, this`threads
      ensures var s' := Advance(Search(), s, Move(w, spurious));
        && nextMorsel == s'.nextMorsel && shared == s'.shared && nPruned == s'.nPruned
        && |s'.workers| == |s.workers| && |s'.status| == |s.status|
        && s'.workers == s.workers[w := s.workers[w].(pc := s'.workers[w].pc)]
        && threads == old(threads)[w := old(threads[w]).(pc := s'.workers[w].pc)]
    {
      SearchFields();
      hide Search, PageStep, Inputs, CanVisit, Top;
      var t := threads[w];
      match t.pc
      case Claiming =>
        var morsel := nextMorsel;
        nextMorsel := morsel + step;
        threads := threads[w := t.(pc := if morsel >= maxMorsel then Reporting else Snapshotting(morsel))];
      case Snapshotting(morsel) => threads := threads[w := t.(pc := Scanning(morsel, morsel, shared))];
      case Scanning(_, _, snapshot) => threads := threads[w := t.(pc := Comparing(snapshot))];
      case Comparing(snapshot) =>
        var publish := IsBelow(top, snapshot) && (!guarded || t.nOutputs == k);
        threads := threads[w := t.(pc := if publish then Reloading else Claiming)];
      case Reloading => threads := threads[w := t.(pc := Swapping(shared))];
      case Swapping(seen) =>
        if !IsBelow(top, seen) {
          threads := threads[w := t.(pc := Claiming)];
        } else if !spurious && shared == seen {
          shared := At(top);
          threads := threads[w := t.(pc := Claiming)];
        } else {
          threads := threads[w := t.(pc := Swapping(shared))];
        }
      case Reporting =>
        nPruned := nPruned + t.nPruned;
        threads := threads[w := t.(pc := Finished)];
      case Finished =>
    }

    lemma ValidParts()
      requires Valid()
      ensures Inputs() && |threads| == nThreads && |s.status| == maxMorsel && local.Length == nThreads * size
      ensures nextMorsel == s.nextMorsel && shared == s.shared && nPruned == s.nPruned
      ensures AllAgree(threads, s.workers, local[..], size, k)
    {
      hide AllAgree, CanVisit;
    }

    /** What a page visit finds, and what it makes of the state. */
    lemma VisitFacts(w: nat, spurious: bool)
      requires Valid() && w < nThreads && threads[w].pc.Scanning?
      requires threads[w].pc.current < MorselEnd(Search(), threads[w].pc.morsel)
      ensures |s.workers| == nThreads && threads[w].pc == s.workers[w].pc && 0 < k == Search().k
      ensures ThreadAgrees(threads[w], s.workers[w], Part(local[..], w, nThreads, size, k), k)
      ensures s.workers[w].pc.current < |s.status| && s.workers[w].pc.current < |Search().probes|
      ensures var next := PageStep(Search(), s, w);
        && next == Advance(Search(), s, Move(w, spurious))
        && |next.workers| == |s.workers| && |next.status| == |s.status|
        && next.nextMorsel == s.nextMorsel && next.shared == s.shared && next.nPruned == s.nPruned
        && next.workers == s.workers[w := next.workers[w]]
    {
      OneAgrees(threads, s.workers, local[..], size, k, w);
      hide AllAgree, ThreadAgrees, CanVisit;
      PageStepMoves(Search(), s, w);
    }

    /** One page of the morsel: pruned by the snapshot, pruned by the thread's own worst entry, or scanned. */
    method VisitNext(w: nat, spurious: bool)
      requires Valid() && w < nThreads && threads[w].pc.Scanning?
      requires threads[w].pc.current < MorselEnd(Search(), threads[w].pc.morsel)
      modifies this`threads, this`s, local
      ensures Valid() && s == Advance(Search(), old(s), Move(w, spurious))
      ensures OnlyItsPart(old(local[..]), local[..], w, size, k)
    {
      ghost var was, threadsWere, buffer := s, threads, local[..];
      ValidParts();
      hide *;
      VisitFacts(w, spurious);
      ghost var next := PageStep(Search(), was, w);
      VisitPage(w);
      s := next;
      VisitDone(was, threadsWere, buffer, w);
    }

    lemma VisitDone(was: State, threadsWere: seq<Thread>, buffer: seq<Entry>, w: nat)
      requires Inputs() && AllAgree(threadsWere, was.workers, buffer, size, k)
      requires |threadsWere| == nThreads && w < nThreads
      requires |buffer| == local.Length && |threads| == nThreads && threads == threadsWere[w := threads[w]]
      requires |s.status| == maxMorsel && nextMorsel == s.nextMorsel && shared == s.shared && nPruned == s.nPruned
      requires |s.workers| == |was.workers| && s.workers == was.workers[w := s.workers[w]]
      requires OnlyItsPart(buffer, local[..], w, size, k)
      requires ThreadAgrees(threads[w], s.workers[w], Part(local[..], w, nThreads, size, k), k)
      ensures Valid()
    {
      hide AllAgree, ThreadAgrees, Offset, Part;
      ghost var now := local[..];
      OthersAgree(threadsWere, was.workers, buffer, size, k, w, threads, s.workers, now);
    }

    method VisitPage(w: nat)
      requires Inputs() && |threads| == nThreads == |s.workers| && |s.status| == maxMorsel && w < nThreads
      requires ThreadAgrees(threads[w], s.workers[w], Part(local[..], w, nThreads, size, k), k)
      requires threads[w].pc.Scanning?
      requires threads[w].pc.current < MorselEnd(Search(), threads[w].pc.morsel)
      requires s.workers[w].pc == threads[w].pc
      modifies this`threads, local
      ensures |threads| == nThreads && threads == old(threads)[w := threads[w]]
      ensures ThreadAgrees(threads[w], PageStep(Search(), s, w).workers[w], Part(local[..], w, nThreads, size, k), k)
      ensures OnlyItsPart(old(local[..]), local[..], w, size, k)
    {
      MyPart(w);
      var t, lo := threads[w], Offset(w, size);
      ghost var wk, part := s.workers[w], Part(local[..], w, nThreads, size, k);
      var c := t.pc.current;
      var e := order[c];
      assert e in order;
      var page := pages[e.id];
      TopIsFirst(t, wk, part, k);
      PagePart(Search(), s, w, t, part, ProbeOf(pages, query, e));
      var pc := t.pc.(current := c + 1);
      if t.pc.snapshot.At? && Prune(e.dist, page.maxDist, t.pc.snapshot.d) {
        threads := threads[w := t.(pc := pc, nPruned := t.nPruned + 1)];
        return;
      }
      if t.nOutputs == k && Prune(e.dist, page.maxDist, local[lo].dist) {
        threads := threads[w := t.(pc := pc, nPruned := t.nPruned + 1)];
        return;
      }
      hide Prune, PageStep, Search, Offset;
      var n := ScanInto(t, wk, page, e.dist, lo);
      MyPart(w);
      threads := threads[w := t.(pc := pc, nOutputs := n)];
    }

    /** Scans a page into the part of the local buffer that starts at lo. */
    method ScanInto(t: Thread, ghost wk: Worker, page: Page, anchorDist: real, lo: nat) returns (n: nat)
      requires lo + k <= local.Length && ThreadAgrees(t, wk, Span(local, lo, k), k)
      requires page.slots != [] && forall i :: 0 <= i < |page.slots| ==> |page.slots[i].vec| == |query|
      requires anchorDist == Dist(query, page.slots[0].vec)
      modifies local
      ensures var kept := OfferAll(wk.kept, k, EntriesOf(query, page.slots));
        ThreadAgrees(t.(nOutputs := n), wk.(kept := kept), Span(local, lo, k), k)
      ensures forall j :: 0 <= j < local.Length && !(lo <= j < lo + k) ==> local[j] == old(local[j])
    {
      SpanTake(local, lo, k, t.nOutputs);
      OfferAllLength(wk.kept, k, EntriesOf(query, page.slots));
      hide IsHeap, Sort, OfferAll, Span;
      n := Database.ScanPage(query, k, page, anchorDist, local, lo, t.nOutputs);
      SpanTake(local, lo, k, n);
    }
  }

  /** What a page visit makes of the worker, as the thread sees it. */
  lemma PagePart(cfg: Config, s: State, w: nat, t: Thread, part: seq<Entry>, p: Probe)
    requires w < |s.workers| && s.workers[w].pc.Scanning? && ThreadAgrees(t, s.workers[w], part, cfg.k)
    requires s.workers[w].pc.current < |s.status| && s.workers[w].pc.current < |cfg.probes|
    requires p == cfg.probes[s.workers[w].pc.current] && part[0].dist == Top(s.workers[w])
    ensures var wk, wk' := s.workers[w], PageStep(cfg, s, w).workers[w];
      var pc := t.pc.(current := t.pc.current + 1);
      if (t.pc.snapshot.At? && Prune(p.anchorDist, p.maxDist, t.pc.snapshot.d))
          || (t.nOutputs == cfg.k && Prune(p.anchorDist, p.maxDist, part[0].dist))
      then ThreadAgrees(t.(pc := pc, nPruned := t.nPruned + 1), wk', part, cfg.k)
      else wk' == wk.(pc := pc, kept := OfferAll(wk.kept, cfg.k, p.entries))
  {
    hide Prune, OfferAll, IsHeap, Sort;
  }

  /** What earlier searches left in the first entry of every thread's part. */
  ghost predicate LeftOver(buffer: seq<Entry>, size: nat, nThreads: nat, stale: seq<real>) {
    && |stale| == nThreads
    && forall w: nat :: w < nThreads ==> Offset(w, size) < |buffer| && stale[w] == buffer[Offset(w, size)].dist
  }

  /** A page visit changes one worker and the status of its page. */
  lemma PageStepMoves(cfg: Config, s: State, w: nat)
    requires w < |s.workers| && s.workers[w].pc.Scanning? && 0 < cfg.k
    requires s.workers[w].pc.current < |s.status| && s.workers[w].pc.current < |cfg.probes|
    ensures var s' := PageStep(cfg, s, w);
      && |s'.workers| == |s.workers| && |s'.status| == |s.status|
      && s'.nextMorsel == s.nextMorsel && s'.shared == s.shared && s'.nPruned == s.nPruned
      && s'.workers == s.workers[w := s'.workers[w]]
  {
    hide OfferAll, Prune;
  }

  lemma AgreesWithPc(t: Thread, wk: Worker, part: seq<Entry>, k: nat)
    requires ThreadAgrees(t, wk, part, k)
    ensures t.pc == wk.pc && t.nPruned == wk.nPruned && t.nOutputs == |wk.kept|
  {
  }

  lemma NewPc(t: Thread, wk: Worker, part: seq<Entry>, k: nat, pc: Pc)
    requires ThreadAgrees(t, wk, part, k)
    ensures ThreadAgrees(t.(pc := pc), wk.(pc := pc), part, k)
  {
  }
}
