/** The brute-force engine: a priority queue over every vector, unloaded from the back. */
module Baseline {
  import opened Vectors
  import opened Entries
  import opened Pages
  import opened TopK
  import opened Heaps
  import opened Probes

  /** The k nearest of a list of stored vectors, in order of distance and then id. */
  function BruteForce(q: Vec, items: seq<Slot>, k: nat): seq<Entry>
    requires 0 < k
  {
    OfferAll([], k, EntriesOf(q, items))
  }

  lemma BruteForceKeepsBest(q: Vec, items: seq<Slot>, k: nat)
    requires 0 < k
    ensures Sorted(BruteForce(q, items, k))
    ensures KeepsBest(multiset(BruteForce(q, items, k)), multiset(EntriesOf(q, items)), k)
  {
    assert KeepsBest(multiset{}, multiset{}, k);
    OfferAllKeepsBest([], multiset{}, k, EntriesOf(q, items));
  }

  /** The base vectors, numbered by position. */
  function Numbered(vectors: seq<Vec>): (r: seq<Slot>)
    ensures |r| == |vectors| && forall i :: 0 <= i < |vectors| ==> r[i] == Slot(i, vectors[i])
  {
    seq(|vectors|, i requires 0 <= i < |vectors| => Slot(i, vectors[i]))
  }

  method SquaredL2(x: Vec, y: Vec) returns (sum: real)
    requires |x| == |y|
    ensures sum == SqDist(x, y)
  {
    sum := 0.0;
    for i := 0 to |x|
      invariant sum == SqDistUpTo(x, y, i)
    {
      var difference := x[i] - y[i];
      sum := sum + Square(difference);
    }
  }

  /** One query: the ids of the k nearest base vectors, nearest first. */
  method Run(vectors: seq<Vec>, query: Vec, k: nat) returns (results: seq<nat>)
    requires 0 < k && forall i :: 0 <= i < |vectors| ==> |vectors[i]| == |query|
    ensures |results| == |BruteForce(query, Numbered(vectors), k)|
    ensures forall i :: 0 <= i < |results| ==> results[i] == BruteForce(query, Numbered(vectors), k)[i].id
  {
    var heap := new Entry[k](_ => Entry(0.0, 0));
    var size := 0;
    ghost var es := EntriesOf(query, Numbered(vectors));
    assert es[..0] == [] && Span(heap, 0, 0) == [];
    for i := 0 to |vectors|
      invariant size <= k && IsHeap(Span(heap, 0, size))
      invariant Sort(Span(heap, 0, size)) == OfferAll([], k, es[..i])
    {
      hide IsHeap, Sort, Offer, Span;
      OfferOneMore([], k, es, i);
      var distance := SquaredL2(vectors[i], query);
      size := OfferToHeap(heap, 0, size, k, Entry(distance, i));
    }
    assert es[..|vectors|] == es;
    results := Unload(heap, size);
  }

  /** Empties the queue, filling the result from the back with what the top yields. */
  method Unload(heap: array<Entry>, size: nat) returns (results: seq<nat>)
    requires size <= heap.Length && IsHeap(Span(heap, 0, size))
    modifies heap
    ensures |results| == size
    ensures forall i :: 0 <= i < size ==> results[i] == old(Sort(Span(heap, 0, size)))[i].id
  {
    hide IsHeap, Sort, Sorted, Span;
    ghost var sorted := Sort(Span(heap, 0, size));
    results := seq(size, _ => 0);
    var rank := size;
    while rank > 0
      invariant 0 <= rank <= size && |results| == size
      invariant IsHeap(Span(heap, 0, rank)) && Sort(Span(heap, 0, rank)) == sorted[..rank]
      invariant forall i :: rank <= i < size ==> results[i] == sorted[i].id
    {
      var top := PopWorst(heap, rank);
      results := results[rank - 1 := top.id];
      assert sorted[..rank][..rank - 1] == sorted[..rank - 1];
      rank := rank - 1;
    }
  }

  /** Reads the top of a non-empty queue and pops it. */
  method PopWorst(heap: array<Entry>, size: nat) returns (top: Entry)
    requires 0 < size <= heap.Length && IsHeap(Span(heap, 0, size))
    modifies heap
    ensures top == old(Sort(Span(heap, 0, size)))[size - 1]
    ensures IsHeap(Span(heap, 0, size - 1))
    ensures Sort(Span(heap, 0, size - 1)) == old(Sort(Span(heap, 0, size)))[..size - 1]
  {
    hide IsHeap, Sort, Sorted, Span;
    ghost var s := Span(heap, 0, size);
    RootIsLast(s);
    PopFromSorted(s);
    SpanAt(heap, 0, size, 0);
    top := heap[0];
    PopHeap(heap, 0, size);
    SortOfBag(Span(heap, 0, size - 1), Sort(s)[..size - 1]);
  }

  lemma PopFromSorted(s: seq<Entry>)
    requires IsHeap(s) && s != []
    ensures Sorted(Sort(s)[..|s| - 1])
    ensures multiset(Sort(s)[..|s| - 1]) == multiset(s) - multiset{s[0]}
  {
    RootIsLast(s);
    SortedLast(Sort(s));
  }

  lemma SortOfBag(s: seq<Entry>, t: seq<Entry>)
    requires Sorted(t) && multiset(s) == multiset(t)
    ensures Sort(s) == t
  {
    SortedUnique(Sort(s), t);
  }
}
