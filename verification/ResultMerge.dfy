/** The caller's last step: it copies the used part of every thread's local buffer into one, sorts it and
    returns the first k entries. */
module ResultMerge {
  import opened Arithmetic
  import opened Entries
  import opened ParallelSearch
  import opened ParallelExactness

  /** The used parts of the first n local buffers, one after another. */
  function UsedParts(buffers: seq<Entry>, size: nat, nOutputs: seq<nat>, n: nat): seq<Entry>
    requires n <= |nOutputs| && |buffers| == |nOutputs| * size
    requires forall t :: 0 <= t < |nOutputs| ==> nOutputs[t] <= size
  {
    if n == 0 then []
    else
      PartInside(n - 1, |nOutputs|, size, nOutputs[n - 1], |buffers|);
      UsedParts(buffers, size, nOutputs, n - 1) + buffers[Offset(n - 1, size)..Offset(n - 1, size) + nOutputs[n - 1]]
  }

  lemma NextPart(buffers: seq<Entry>, size: nat, nOutputs: seq<nat>, t: nat)
    requires t < |nOutputs| && |buffers| == |nOutputs| * size
    requires forall i :: 0 <= i < |nOutputs| ==> nOutputs[i] <= size
    ensures Offset(t, size) + nOutputs[t] <= |buffers|
    ensures UsedParts(buffers, size, nOutputs, t + 1)
      == UsedParts(buffers, size, nOutputs, t) + buffers[Offset(t, size)..Offset(t, size) + nOutputs[t]]
  {
    PartInside(t, |nOutputs|, size, nOutputs[t], |buffers|);
  }

  method AppendPart(front: seq<Entry>, buffers: array<Entry>, offset: nat, n: nat) returns (r: seq<Entry>)
    requires offset + n <= buffers.Length
    ensures r == front + buffers[..][offset..offset + n]
  {
    r := front + buffers[offset..offset + n];
    assert buffers[offset..offset + n] == buffers[..][offset..offset + n];
  }

  /** Copies the used part of every thread's buffer behind the ones before it. */
  method CopyParts(buffers: array<Entry>, size: nat, nOutputs: seq<nat>) returns (internalBuffer: seq<Entry>)
    requires buffers.Length == |nOutputs| * size
    requires forall t :: 0 <= t < |nOutputs| ==> nOutputs[t] <= size
    ensures internalBuffer == UsedParts(buffers[..], size, nOutputs, |nOutputs|)
  {
    internalBuffer := [];
    for t := 0 to |nOutputs|
      invariant internalBuffer == UsedParts(buffers[..], size, nOutputs, t)
    {
      NextPart(buffers[..], size, nOutputs, t);
      hide UsedParts;
      internalBuffer := AppendPart(internalBuffer, buffers, Offset(t, size), nOutputs[t]);
    }
  }

  method TakeFirst(s: seq<Entry>, k: nat) returns (result: seq<Entry>)
    requires k <= |s|
    ensures result == s[..k]
  {
    result := [];
    for i := 0 to k
      invariant result == s[..i]
    {
      result := result + [s[i]];
    }
  }

  method FindKNearestResult(buffers: array<Entry>, size: nat, nOutputs: seq<nat>, k: nat) returns (result: seq<Entry>)
    requires buffers.Length == |nOutputs| * size
    requires forall t :: 0 <= t < |nOutputs| ==> nOutputs[t] <= size
    requires k <= |UsedParts(buffers[..], size, nOutputs, |nOutputs|)|
    ensures result == Sort(UsedParts(buffers[..], size, nOutputs, |nOutputs|))[..k]
  {
    hide UsedParts, Sort;
    var internalBuffer := CopyParts(buffers, size, nOutputs);
    result := TakeFirst(Sort(internalBuffer), k);
  }

  /** The part of thread t holds what its worker kept, in heap order. */
  ghost predicate PartHolds(buffers: seq<Entry>, size: nat, t: nat, n: nat, wk: Worker) {
    && n <= size && Offset(t, size) + n <= |buffers|
    && multiset(buffers[Offset(t, size)..Offset(t, size) + n]) == multiset(wk.kept)
  }

  ghost predicate HoldsKept(buffers: seq<Entry>, size: nat, nOutputs: seq<nat>, workers: seq<Worker>) {
    && |workers| == |nOutputs| && |buffers| == |nOutputs| * size
    && forall t: nat :: t < |nOutputs| ==> PartHolds(buffers, size, t, nOutputs[t], workers[t])
  }

  lemma CountsFit(buffers: seq<Entry>, size: nat, nOutputs: seq<nat>, workers: seq<Worker>)
    requires HoldsKept(buffers, size, nOutputs, workers)
    ensures |buffers| == |nOutputs| * size && |workers| == |nOutputs|
    ensures forall t :: 0 <= t < |nOutputs| ==> nOutputs[t] <= size
  {
    forall t | 0 <= t < |nOutputs| ensures nOutputs[t] <= size {
      assert PartHolds(buffers, size, t, nOutputs[t], workers[t]);
    }
  }

  lemma OnePartMore(buffers: seq<Entry>, size: nat, nOutputs: seq<nat>, workers: seq<Worker>, n: nat)
    requires HoldsKept(buffers, size, nOutputs, workers) && n < |workers|
    requires forall t :: 0 <= t < |nOutputs| ==> nOutputs[t] <= size
    ensures multiset(UsedParts(buffers, size, nOutputs, n + 1))
      == multiset(UsedParts(buffers, size, nOutputs, n)) + multiset(workers[n].kept)
  {
    NextPart(buffers, size, nOutputs, n);
    assert PartHolds(buffers, size, n, nOutputs[n], workers[n]);
    hide UsedParts, Offset;
  }

  lemma {:induction false} UsedPartsAreKept(buffers: seq<Entry>, size: nat, nOutputs: seq<nat>, workers: seq<Worker>,
                                            n: nat)
    requires HoldsKept(buffers, size, nOutputs, workers) && n <= |workers|
    requires forall t :: 0 <= t < |nOutputs| ==> nOutputs[t] <= size
    ensures multiset(UsedParts(buffers, size, nOutputs, n)) == multiset(Collected(workers[..n]))
  {
    if n > 0 {
      hide HoldsKept, UsedParts, Collected;
      UsedPartsAreKept(buffers, size, nOutputs, workers, n - 1);
      OnePartMore(buffers, size, nOutputs, workers, n - 1);
      CollectedMore(workers, n - 1);
    }
  }

  /** What the caller sorts is what the workers kept, so the result does not depend on heap order. */
  lemma ResultIsMergedPrefix(buffers: seq<Entry>, size: nat, nOutputs: seq<nat>, s: State)
    requires HoldsKept(buffers, size, nOutputs, s.workers)
    requires forall t :: 0 <= t < |nOutputs| ==> nOutputs[t] <= size
    ensures Sort(UsedParts(buffers, size, nOutputs, |nOutputs|)) == Merged(s)
  {
    UsedPartsAreKept(buffers, size, nOutputs, s.workers, |s.workers|);
    assert s.workers[..|s.workers|] == s.workers;
    SortOfPermutation(UsedParts(buffers, size, nOutputs, |nOutputs|), Collected(s.workers));
  }
}
