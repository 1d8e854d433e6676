/** The array max-heap behind every bounded buffer of the source: the two library calls it makes on the
    used part of a buffer, and the step that keeps the k nearest entries in place. A buffer is a span: it
    starts at some offset of an array that several threads may share. */
module Heaps {
  import opened Entries
  import opened TopK

  function Parent(i: int): int
    requires i >= 1
  {
    (i - 1) / 2
  }

  ghost predicate IsHeap(s: seq<Entry>) {
    forall i :: 1 <= i < |s| ==> Le(s[i], s[Parent(i)])
  }

  lemma {:induction false} RootDominates(s: seq<Entry>, i: nat)
    requires IsHeap(s) && i < |s|
    ensures Le(s[i], s[0])
    decreases i
  {
    if i > 0 {
      RootDominates(s, Parent(i));
      assert Le(s[i], s[Parent(i)]);
    }
  }

  function Swap(s: seq<Entry>, i: nat, j: nat): seq<Entry>
    requires i < |s| && j < |s|
  {
    s[i := s[j]][j := s[i]]
  }

  lemma SwapKeepsBag(s: seq<Entry>, i: nat, j: nat)
    requires i < |s| && j < |s|
    ensures multiset(Swap(s, i, j)) == multiset(s)
  {
  }

  /** The n entries of a buffer that starts at lo. */
  function Span(h: array<Entry>, lo: nat, n: nat): (s: seq<Entry>)
    requires lo + n <= h.Length
    reads h
    ensures |s| == n
  {
    h[lo..lo + n]
  }

  lemma SpanAt(h: array<Entry>, lo: nat, n: nat, i: nat)
    requires lo + n <= h.Length && i < n
    ensures Span(h, lo, n)[i] == h[lo + i]
  {
  }

  lemma SpanPrefix(h: array<Entry>, lo: nat, n: nat)
    requires lo + n <= h.Length && 0 < n
    ensures Span(h, lo, n - 1) == Span(h, lo, n)[..n - 1]
  {
  }

  method SwapEntries(h: array<Entry>, lo: nat, n: nat, i: nat, j: nat)
    requires i < n && j < n && lo + n <= h.Length
    modifies h
    ensures Span(h, lo, n) == Swap(old(Span(h, lo, n)), i, j)
    ensures forall m :: 0 <= m < h.Length && !(lo <= m < lo + n) ==> h[m] == old(h[m])
  {
    h[lo + i], h[lo + j] := h[lo + j], h[lo + i];
  }

  /** A heap but for entry i, which may outrank its parent. */
  ghost predicate HeapButUp(s: seq<Entry>, i: nat) {
    && i < |s|
    && (forall j :: 1 <= j < |s| && j != i ==> Le(s[j], s[Parent(j)]))
    && (forall j :: 1 <= j < |s| && i > 0 && Parent(j) == i ==> Le(s[j], s[Parent(i)]))
  }

  /** A heap but for entry i, which may be outranked by its children. */
  ghost predicate HeapButDown(s: seq<Entry>, i: nat) {
    && (forall j :: 1 <= j < |s| && Parent(j) != i ==> Le(s[j], s[Parent(j)]))
    && (forall j :: 1 <= j < |s| && i > 0 && Parent(j) == i ==> Le(s[j], s[Parent(i)]))
  }

  lemma SwapUp(s: seq<Entry>, i: nat)
    requires HeapButUp(s, i) && i > 0 && !Le(s[i], s[Parent(i)])
    ensures HeapButUp(Swap(s, i, Parent(i)), Parent(i))
  {
  }

  lemma SwapDown(s: seq<Entry>, i: nat, c: nat)
    requires HeapButDown(s, i) && 1 <= c < |s| && Parent(c) == i && !Le(s[c], s[i])
    requires forall j :: 1 <= j < |s| && Parent(j) == i ==> Le(s[j], s[c])
    ensures HeapButDown(Swap(s, i, c), c)
  {
  }

  /** push_heap on the first n entries of the buffer: the last of them joins a heap of n - 1. */
  method PushHeap(h: array<Entry>, lo: nat, n: nat)
    requires 1 <= n && lo + n <= h.Length && IsHeap(Span(h, lo, n - 1))
    modifies h
    ensures IsHeap(Span(h, lo, n))
    ensures multiset(Span(h, lo, n)) == old(multiset(Span(h, lo, n)))
    ensures forall j :: 0 <= j < h.Length && !(lo <= j < lo + n) ==> h[j] == old(h[j])
  {
    hide Swap, IsHeap, HeapButUp, Span;
    var i := n - 1;
    SpanPrefix(h, lo, n);
    LastMayRise(Span(h, lo, n));
    while i > 0 && !Le(h[lo + i], h[lo + (i - 1) / 2])
      invariant 0 <= i < n
      invariant HeapButUp(Span(h, lo, n), i)
      invariant multiset(Span(h, lo, n)) == old(multiset(Span(h, lo, n)))
      invariant forall j :: 0 <= j < h.Length && !(lo <= j < lo + n) ==> h[j] == old(h[j])
      decreases i
    {
      var p := (i - 1) / 2;
      SpanAt(h, lo, n, i);
      SpanAt(h, lo, n, p);
      SwapUp(Span(h, lo, n), i);
      SwapKeepsBag(Span(h, lo, n), i, p);
      SwapEntries(h, lo, n, i, p);
      i := p;
    }
    SpanAt(h, lo, n, i);
    if i > 0 { SpanAt(h, lo, n, (i - 1) / 2); }
    RisenIsHeap(Span(h, lo, n), i);
  }

  lemma LastMayRise(s: seq<Entry>)
    requires s != [] && IsHeap(s[..|s| - 1])
    ensures HeapButUp(s, |s| - 1)
  {
    forall j | 1 <= j < |s| - 1 ensures Le(s[j], s[Parent(j)]) {
      assert Le(s[..|s| - 1][j], s[..|s| - 1][Parent(j)]);
    }
  }

  lemma RisenIsHeap(s: seq<Entry>, i: nat)
    requires HeapButUp(s, i) && (i > 0 ==> Le(s[i], s[Parent(i)]))
    ensures IsHeap(s)
  {
  }

  lemma SunkIsHeap(s: seq<Entry>, i: nat)
    requires HeapButDown(s, i) && 2 * i + 1 >= |s|
    ensures IsHeap(s)
  {
  }

  /** Sinks the root of the first m entries of the buffer until they are a heap. */
  method SiftDown(h: array<Entry>, lo: nat, m: nat)
    requires lo + m <= h.Length && HeapButDown(Span(h, lo, m), 0)
    modifies h
    ensures IsHeap(Span(h, lo, m))
    ensures multiset(Span(h, lo, m)) == old(multiset(Span(h, lo, m)))
    ensures forall j :: 0 <= j < h.Length && !(lo <= j < lo + m) ==> h[j] == old(h[j])
  {
    hide Swap, IsHeap, HeapButDown, Span;
    var i := 0;
    while 2 * i + 1 < m
      invariant 0 <= i
      invariant HeapButDown(Span(h, lo, m), i)
      invariant multiset(Span(h, lo, m)) == old(multiset(Span(h, lo, m)))
      invariant forall j :: 0 <= j < h.Length && !(lo <= j < lo + m) ==> h[j] == old(h[j])
      decreases m - i
    {
      var c := if 2 * i + 2 < m && !Le(h[lo + 2 * i + 2], h[lo + 2 * i + 1]) then 2 * i + 2 else 2 * i + 1;
      SpanAt(h, lo, m, i);
      SpanAt(h, lo, m, 2 * i + 1);
      if 2 * i + 2 < m { SpanAt(h, lo, m, 2 * i + 2); }
      LargestChild(Span(h, lo, m), i, c);
      if Le(h[lo + c], h[lo + i]) {
        return;
      }
      SwapDown(Span(h, lo, m), i, c);
      SwapKeepsBag(Span(h, lo, m), i, c);
      SwapEntries(h, lo, m, i, c);
      i := c;
    }
    SunkIsHeap(Span(h, lo, m), i);
  }

  lemma RootToEnd(s: seq<Entry>)
    requires s != [] && IsHeap(s)
    ensures var t := Swap(s, 0, |s| - 1);
      && HeapButDown(t[..|s| - 1], 0)
      && multiset(t[..|s| - 1]) == multiset(s) - multiset{s[0]}
  {
    var n := |s| - 1;
    var t := Swap(s, 0, n);
    forall j | 1 <= j < n && Parent(j) != 0 ensures Le(t[j], t[Parent(j)]) {
      assert Le(s[j], s[Parent(j)]);
    }
    SwapKeepsBag(s, 0, n);
    assert t == t[..n] + [s[0]];
  }

  method RootToLast(h: array<Entry>, lo: nat, n: nat)
    requires 1 <= n && lo + n <= h.Length && IsHeap(Span(h, lo, n))
    modifies h
    ensures h[lo + n - 1] == old(h[lo])
    ensures HeapButDown(Span(h, lo, n - 1), 0)
    ensures multiset(Span(h, lo, n - 1)) == old(multiset(Span(h, lo, n))) - multiset{old(h[lo])}
    ensures forall j :: 0 <= j < h.Length && !(lo <= j < lo + n) ==> h[j] == old(h[j])
  {
    hide IsHeap, HeapButDown, Span;
    RootToEnd(Span(h, lo, n));
    SpanAt(h, lo, n, 0);
    SwapEntries(h, lo, n, 0, n - 1);
    SpanAt(h, lo, n, n - 1);
    SpanPrefix(h, lo, n);
  }

  /** pop_heap on the first n entries of the buffer: the largest moves to the end, the others stay a heap. */
  method PopHeap(h: array<Entry>, lo: nat, n: nat)
    requires 1 <= n && lo + n <= h.Length && IsHeap(Span(h, lo, n))
    modifies h
    ensures h[lo + n - 1] == old(h[lo])
    ensures IsHeap(Span(h, lo, n - 1))
    ensures multiset(Span(h, lo, n - 1)) == old(multiset(Span(h, lo, n))) - multiset{old(h[lo])}
    ensures forall j :: 0 <= j < h.Length && !(lo <= j < lo + n) ==> h[j] == old(h[j])
  {
    hide IsHeap, HeapButDown, Span;
    RootToLast(h, lo, n);
    SiftDown(h, lo, n - 1);
  }

  lemma LargestChild(s: seq<Entry>, i: nat, c: nat)
    requires HeapButDown(s, i) && 2 * i + 1 < |s|
    requires c == if 2 * i + 2 < |s| && !Le(s[2 * i + 2], s[2 * i + 1]) then 2 * i + 2 else 2 * i + 1
    ensures forall j :: 1 <= j < |s| && Parent(j) == i ==> Le(s[j], s[c])
    ensures Le(s[c], s[i]) ==> IsHeap(s)
  {
    forall j | 1 <= j < |s| && Parent(j) == i ensures Le(s[j], s[c]) {
      assert j == 2 * i + 1 || j == 2 * i + 2;
    }
  }

  /** The root of a heap is the entry sorting would put last. */
  lemma RootIsLast(s: seq<Entry>)
    requires IsHeap(s) && s != []
    ensures s[0] == Sort(s)[|s| - 1]
  {
    var t := Sort(s);
    var n := |s| - 1;
    SortedLast(t);
    assert s[0] in multiset(t);
    assert t[n] in multiset(s) && t[n] in s;
    var i :| 0 <= i < |s| && s[i] == t[n];
    RootDominates(s, i);
  }

  method Write(h: array<Entry>, lo: nat, n: nat, e: Entry)
    requires lo + n < h.Length
    modifies h
    ensures Span(h, lo, n) == old(Span(h, lo, n)) && Span(h, lo, n + 1) == old(Span(h, lo, n)) + [e]
    ensures forall j :: 0 <= j < h.Length && j != lo + n ==> h[j] == old(h[j])
  {
    h[lo + n] := e;
  }

  /** One entry is written behind a heap of n and pushed. */
  method Push(h: array<Entry>, lo: nat, n: nat, e: Entry)
    requires lo + n < h.Length && IsHeap(Span(h, lo, n))
    modifies h
    ensures IsHeap(Span(h, lo, n + 1))
    ensures multiset(Span(h, lo, n + 1)) == old(multiset(Span(h, lo, n))) + multiset{e}
    ensures forall j :: 0 <= j < h.Length && !(lo <= j < lo + n + 1) ==> h[j] == old(h[j])
  {
    hide IsHeap, Span;
    Write(h, lo, n, e);
    PushHeap(h, lo, n + 1);
  }

  /** heap[k-1] is overwritten and pushed once the worst entry has been popped there. */
  method ReplaceRoot(h: array<Entry>, lo: nat, k: nat, e: Entry)
    requires 0 < k && lo + k <= h.Length && IsHeap(Span(h, lo, k))
    modifies h
    ensures IsHeap(Span(h, lo, k))
    ensures multiset(Span(h, lo, k)) == old(multiset(Span(h, lo, k))) - multiset{old(h[lo])} + multiset{e}
    ensures forall j :: 0 <= j < h.Length && !(lo <= j < lo + k) ==> h[j] == old(h[j])
  {
    hide IsHeap, Span;
    PopHeap(h, lo, k);
    Push(h, lo, k - 1, e);
  }

  /** The step of every scan: while the buffer is short the entry is pushed, later it replaces the
      worst one if strictly nearer. In sorted order the buffer goes through Offer. */
  method OfferToHeap(h: array<Entry>, lo: nat, n: nat, k: nat, e: Entry) returns (m: nat)
    requires 0 < k && lo + k <= h.Length && n <= k && IsHeap(Span(h, lo, n))
    modifies h
    ensures m == (if n < k then n + 1 else k) && IsHeap(Span(h, lo, m))
    ensures Sort(Span(h, lo, m)) == Offer(old(Sort(Span(h, lo, n))), k, e)
    ensures forall j :: 0 <= j < h.Length && !(lo <= j < lo + k) ==> h[j] == old(h[j])
  {
    hide IsHeap, Sort, Insert, Offer, Span;
    ghost var s := Span(h, lo, n);
    if n < k {
      Push(h, lo, n, e);
      m := n + 1;
      OfferBag(s, k, e, Span(h, lo, m));
    } else {
      m := n;
      RootIsLast(s);
      SpanAt(h, lo, n, 0);
      if h[lo].dist > e.dist {
        ReplaceRoot(h, lo, k, e);
        OfferBag(s, k, e, Span(h, lo, m));
      } else {
        OfferNothing(s, k, e);
      }
    }
  }

  lemma OfferBag(s: seq<Entry>, k: nat, e: Entry, t: seq<Entry>)
    requires 0 < k && |s| <= k
    requires |s| < k ==> multiset(t) == multiset(s) + multiset{e}
    requires |s| == k ==> e.dist < s[0].dist && s[0] == Sort(s)[k - 1]
    requires |s| == k ==> multiset(t) == multiset(s) - multiset{s[0]} + multiset{e}
    ensures Sort(t) == Offer(Sort(s), k, e)
  {
    hide Sort, Insert;
    OfferSorted(Sort(s), k, e);
    if |s| == k { SortedLast(Sort(s)); }
    assert multiset(Offer(Sort(s), k, e)) == multiset(t);
    hide Offer;
    SortedUnique(Sort(t), Offer(Sort(s), k, e));
  }

  lemma OfferNothing(s: seq<Entry>, k: nat, e: Entry)
    requires 0 < k == |s| && s[0] == Sort(s)[k - 1] && !(s[0].dist > e.dist)
    ensures Sort(s) == Offer(Sort(s), k, e)
  {
  }
}
