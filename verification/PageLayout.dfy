/** Pages over a flat byte store: an 8-byte count, 8 bytes for the radius, then all ids, then all
    vectors. Slots neither overlap nor leave the page, so writing one slot changes nothing else. */
module PageLayout {
  import opened Arithmetic

  type Byte = b: int | 0 <= b < 256

  const ID_SIZE: nat := 8
  const HEADER: nat := 16

  /** Number of vectors of a given byte size that fit on a page. */
  function Capacity(pageSize: nat, vectorSize: nat): nat
    requires HEADER <= pageSize
  {
    (pageSize - HEADER) / (ID_SIZE + vectorSize)
  }

  /** As many vectors as fit, and not one less: a page has 16 bytes of header, and every vector takes 8 bytes for
      its id besides its own. */
  lemma CapacityIsLargest(pageSize: nat, vectorSize: nat)
    requires 16 <= pageSize
    ensures var c := Capacity(pageSize, vectorSize);
      16 + c * (8 + vectorSize) <= pageSize < 16 + (c + 1) * (8 + vectorSize)
  {
    var c := Capacity(pageSize, vectorSize);
    assert (c + 1) * (8 + vectorSize) == c * (8 + vectorSize) + (8 + vectorSize);
  }

  /** The regions follow one another without gaps: header, ids, vectors. */
  lemma RegionsAreAdjacent(pageSize: nat, vectorSize: nat, slot: nat)
    requires 16 <= pageSize
    ensures IdOffset(0) == 16 && IdOffset(slot + 1) == IdOffset(slot) + 8
    ensures VectorOffset(pageSize, vectorSize, 0) == IdOffset(Capacity(pageSize, vectorSize))
    ensures VectorOffset(pageSize, vectorSize, slot + 1) == VectorOffset(pageSize, vectorSize, slot) + vectorSize
  {
    assert (slot + 1) * vectorSize == slot * vectorSize + vectorSize;
  }

  function IdOffset(slot: nat): nat {
    HEADER + slot * ID_SIZE
  }

  function VectorOffset(pageSize: nat, vectorSize: nat, slot: nat): nat
    requires HEADER <= pageSize
  {
    HEADER + ID_SIZE * Capacity(pageSize, vectorSize) + slot * vectorSize
  }

  /** Where the regions of a slot lie: behind the header, ids before vectors, inside the page. */
  lemma SlotInsidePage(pageSize: nat, vectorSize: nat, slot: nat)
    requires HEADER <= pageSize && slot < Capacity(pageSize, vectorSize)
    ensures HEADER <= IdOffset(slot)
    ensures IdOffset(slot) + ID_SIZE <= HEADER + ID_SIZE * Capacity(pageSize, vectorSize)
    ensures HEADER + ID_SIZE * Capacity(pageSize, vectorSize) <= VectorOffset(pageSize, vectorSize, slot)
    ensures VectorOffset(pageSize, vectorSize, slot) + vectorSize <= pageSize
  {
    var c, v := Capacity(pageSize, vectorSize), vectorSize;
    MulMonotone(slot + 1, c, ID_SIZE);
    MulMonotone(slot + 1, c, v);
    assert (slot + 1) * v == slot * v + v;
    assert c * (ID_SIZE + v) <= pageSize - HEADER;
    assert c * (ID_SIZE + v) == c * ID_SIZE + c * v;
  }

  predicate Apart(a: nat, aSize: nat, b: nat, bSize: nat) {
    a + aSize <= b || b + bSize <= a
  }

  /** Different slots have disjoint ids and disjoint vectors, and no id overlaps a vector. */
  lemma SlotsApart(pageSize: nat, vectorSize: nat, s: nat, t: nat)
    requires HEADER <= pageSize && s < Capacity(pageSize, vectorSize) && t < Capacity(pageSize, vectorSize)
    ensures s != t ==> Apart(IdOffset(s), ID_SIZE, IdOffset(t), ID_SIZE)
    ensures s != t ==>
      Apart(VectorOffset(pageSize, vectorSize, s), vectorSize, VectorOffset(pageSize, vectorSize, t), vectorSize)
    ensures Apart(IdOffset(s), ID_SIZE, VectorOffset(pageSize, vectorSize, t), vectorSize)
  {
    SlotInsidePage(pageSize, vectorSize, s);
    SlotInsidePage(pageSize, vectorSize, t);
    if s < t {
      RegionsApart(s, t, ID_SIZE);
      RegionsApart(s, t, vectorSize);
    } else if t < s {
      RegionsApart(t, s, ID_SIZE);
      RegionsApart(t, s, vectorSize);
    }
  }

  method CopyBytes(store: array<Byte>, at: nat, bytes: seq<Byte>)
    requires at + |bytes| <= store.Length
    modifies store
    ensures store[at..at + |bytes|] == bytes
    ensures forall i :: 0 <= i < store.Length && !(at <= i < at + |bytes|) ==> store[i] == old(store[i])
  {
    for n := 0 to |bytes|
      invariant forall i :: 0 <= i < n ==> store[at + i] == bytes[i]
      invariant forall i :: 0 <= i < store.Length && !(at <= i < at + n) ==> store[i] == old(store[i])
    {
      store[at + n] := bytes[n];
    }
    assert forall i :: at <= i < at + |bytes| ==> store[i] == bytes[i - at];
  }

  function IdAt(page: seq<Byte>, slot: nat): seq<Byte>
    requires IdOffset(slot) + ID_SIZE <= |page|
  {
    page[IdOffset(slot)..IdOffset(slot) + ID_SIZE]
  }

  function VectorAt(page: seq<Byte>, vectorSize: nat, slot: nat): seq<Byte>
    requires HEADER <= |page| && VectorOffset(|page|, vectorSize, slot) + vectorSize <= |page|
  {
    page[VectorOffset(|page|, vectorSize, slot)..VectorOffset(|page|, vectorSize, slot) + vectorSize]
  }

  /** Writing a slot: it reads back, the header keeps its count and radius, and no other slot changes. */
  method PlaceNewVectorAt(page: array<Byte>, vectorSize: nat, slot: nat, id: seq<Byte>, vec: seq<Byte>)
    requires HEADER <= page.Length && slot < Capacity(page.Length, vectorSize)
    requires |id| == ID_SIZE && |vec| == vectorSize
    modifies page
    ensures IdOffset(slot) + ID_SIZE <= page.Length
    ensures VectorOffset(page.Length, vectorSize, slot) + vectorSize <= page.Length
    ensures IdAt(page[..], slot) == id && VectorAt(page[..], vectorSize, slot) == vec
    ensures page[..HEADER] == old(page[..HEADER])
    ensures forall t :: 0 <= t < Capacity(page.Length, vectorSize) && t != slot ==>
      SlotUnchanged(old(page[..]), page[..], vectorSize, t)
  {
    SlotInsidePage(page.Length, vectorSize, slot);
    SlotsApart(page.Length, vectorSize, slot, slot);
    ghost var before := page[..];
    CopyBytes(page, VectorOffset(page.Length, vectorSize, slot), vec);
    ghost var between := page[..];
    assert VectorAt(between, vectorSize, slot) == vec;
    CopyBytes(page, IdOffset(slot), id);
    ghost var after := page[..];
    SliceKept(between, after, IdOffset(slot), ID_SIZE, VectorOffset(page.Length, vectorSize, slot), vectorSize);
    forall t | 0 <= t < Capacity(page.Length, vectorSize) && t != slot
      ensures SlotUnchanged(before, after, vectorSize, t)
    {
      OtherSlotKept(before, between, after, vectorSize, slot, t);
    }
  }

  /** Slot t reads the same on both pages. */
  ghost predicate SlotUnchanged(before: seq<Byte>, after: seq<Byte>, vectorSize: nat, t: nat) {
    && |before| == |after| && HEADER <= |before|
    && IdOffset(t) + ID_SIZE <= |before| && VectorOffset(|before|, vectorSize, t) + vectorSize <= |before|
    && IdAt(after, t) == IdAt(before, t) && VectorAt(after, vectorSize, t) == VectorAt(before, vectorSize, t)
  }

  /** a and b agree outside [at, at + size). */
  ghost predicate AgreeOutside(a: seq<Byte>, b: seq<Byte>, at: nat, size: nat) {
    |a| == |b| && forall i :: 0 <= i < |a| && !(at <= i < at + size) ==> a[i] == b[i]
  }

  lemma SliceKept(a: seq<Byte>, b: seq<Byte>, at: nat, size: nat, from: nat, len: nat)
    requires AgreeOutside(a, b, at, size) && from + len <= |a| && Apart(at, size, from, len)
    ensures b[from..from + len] == a[from..from + len]
  {
  }

  lemma OtherSlotKept(before: seq<Byte>, between: seq<Byte>, after: seq<Byte>, vectorSize: nat, slot: nat, t: nat)
    requires HEADER <= |before| && t != slot
    requires slot < Capacity(|before|, vectorSize) && t < Capacity(|before|, vectorSize)
    requires AgreeOutside(before, between, VectorOffset(|before|, vectorSize, slot), vectorSize)
    requires AgreeOutside(between, after, IdOffset(slot), ID_SIZE)
    ensures SlotUnchanged(before, after, vectorSize, t)
  {
    var n := |before|;
    SlotInsidePage(n, vectorSize, t);
    SlotsApart(n, vectorSize, slot, t);
    SlotsApart(n, vectorSize, t, slot);
    SliceKept(before, between, VectorOffset(n, vectorSize, slot), vectorSize, IdOffset(t), ID_SIZE);
    SliceKept(between, after, IdOffset(slot), ID_SIZE, IdOffset(t), ID_SIZE);
    SliceKept(before, between, VectorOffset(n, vectorSize, slot), vectorSize, VectorOffset(n, vectorSize, t),
              vectorSize);
    SliceKept(between, after, IdOffset(slot), ID_SIZE, VectorOffset(n, vectorSize, t), vectorSize);
  }
}
