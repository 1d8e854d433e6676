/** A page as its bytes: what a mapped page stores is a Page, and the four operations that write to it change
    that page as the operations of the database say. */
module PageBytes {
  import opened Vectors
  import opened Pages
  import opened PageLayout
  import opened FilePlan

  /** How the machine reads a vector and a radius from their bytes. */
  datatype Decoder = Decoder(vec: seq<Byte> -> Vec, radius: seq<Byte> -> real)

  function Zeros(n: nat): (r: seq<Byte>)
    ensures |r| == n && forall i :: 0 <= i < n ==> r[i] == 0
  {
    seq(n, _ => 0)
  }

  /** Little-endian numbers. */
  function NatOf(bytes: seq<Byte>): nat {
    if bytes == [] then 0 else bytes[0] + 256 * NatOf(bytes[1..])
  }

  function BytesOf(n: nat, size: nat): (r: seq<Byte>)
    ensures |r| == size
  {
    if size == 0 then [] else [(n % 256) as Byte] + BytesOf(n / 256, size - 1)
  }

  function Power256(size: nat): (r: nat)
    ensures 0 < r
  {
    if size == 0 then 1 else 256 * Power256(size - 1)
  }

  lemma {:induction false} BytesRoundTrip(n: nat, size: nat)
    requires n < Power256(size)
    ensures NatOf(BytesOf(n, size)) == n
  {
    if size > 0 {
      BytesRoundTrip(n / 256, size - 1);
      assert BytesOf(n, size)[1..] == BytesOf(n / 256, size - 1);
    }
  }

  /** Byte i of a number, the lowest first. */
  lemma {:induction false} ByteOf(n: nat, size: nat, i: nat)
    requires i < size
    ensures BytesOf(n, size)[i] == n / Power256(i) % 256
  {
    if i > 0 {
      ByteOf(n / 256, size - 1, i - 1);
      DivTwice(n, Power256(i - 1));
    }
  }

  lemma DivTwice(n: nat, b: nat)
    requires 0 < b
    ensures n / 256 / b == n / (256 * b)
  {
    var m := n / 256;
    var q, r := m / b, m % b;
    assert m == q * b + r;
    assert q * (256 * b) == 256 * (q * b);
    QuotientIs(n, 256 * b, q, 256 * r + n % 256);
  }

  /** n_vectors: the first eight bytes. */
  function Count(store: seq<Byte>): nat
    requires HEADER <= |store|
  {
    NatOf(store[..ID_SIZE])
  }

  function RadiusBytes(store: seq<Byte>): seq<Byte>
    requires HEADER <= |store|
  {
    store[ID_SIZE..HEADER]
  }

  function SlotAt(store: seq<Byte>, vectorSize: nat, d: Decoder, t: nat): Slot
    requires HEADER <= |store| && t < Capacity(|store|, vectorSize)
  {
    SlotInsidePage(|store|, vectorSize, t);
    Slot(NatOf(IdAt(store, t)), d.vec(VectorAt(store, vectorSize, t)))
  }

  /** The store is a page: its count is within its capacity. */
  predicate IsPage(store: seq<Byte>, vectorSize: nat) {
    HEADER <= |store| && Count(store) <= Capacity(|store|, vectorSize)
  }

  /** The page that the bytes hold. */
  function PageOf(store: seq<Byte>, vectorSize: nat, d: Decoder): Page
    requires IsPage(store, vectorSize)
  {
    Page(seq(Count(store), t requires 0 <= t < Count(store) => SlotAt(store, vectorSize, d, t)),
         d.radius(RadiusBytes(store)))
  }

  lemma {:induction false} ZerosCountNothing(bytes: seq<Byte>)
    requires forall i :: 0 <= i < |bytes| ==> bytes[i] == 0
    ensures NatOf(bytes) == 0
  {
    if bytes != [] { ZerosCountNothing(bytes[1..]); }
  }

  /** A zeroed page of a new file is the empty page. */
  lemma ZeroedPage(store: seq<Byte>, vectorSize: nat, d: Decoder)
    requires HEADER <= |store| && forall i :: 0 <= i < |store| ==> store[i] == 0
    requires d.radius(Zeros(8)) == 0.0
    ensures IsPage(store, vectorSize) && PageOf(store, vectorSize, d) == EMPTY_PAGE
  {
    ZerosCountNothing(store[..ID_SIZE]);
    assert RadiusBytes(store) == Zeros(8);
  }

  lemma SameSlot(before: seq<Byte>, after: seq<Byte>, vectorSize: nat, d: Decoder, t: nat)
    requires HEADER <= |before| && t < Capacity(|before|, vectorSize) && SlotUnchanged(before, after, vectorSize, t)
    ensures SlotAt(after, vectorSize, d, t) == SlotAt(before, vectorSize, d, t)
  {
  }

  /** Writing slot v of a page replaces it and nothing else. */
  method PlaceVector(page: array<Byte>, vectorSize: nat, v: nat, id: seq<Byte>, vec: seq<Byte>, ghost d: Decoder)
    requires IsPage(page[..], vectorSize) && v < Count(page[..])
    requires |id| == ID_SIZE && |vec| == vectorSize
    modifies page
    ensures IsPage(page[..], vectorSize)
    ensures var was := PageOf(old(page[..]), vectorSize, d);
      PageOf(page[..], vectorSize, d) == Page(was.slots[v := Slot(NatOf(id), d.vec(vec))], was.maxDist)
  {
    ghost var before := page[..];
    PlaceNewVectorAt(page, vectorSize, v, id, vec);
    ghost var after := page[..];
    SameHeader(before, after);
    hide Count, RadiusBytes, Capacity, IdAt, VectorAt, SlotUnchanged;
    forall t | 0 <= t < Count(before) && t != v
      ensures SlotAt(after, vectorSize, d, t) == SlotAt(before, vectorSize, d, t)
    {
      SameSlot(before, after, vectorSize, d, t);
    }
  }

  lemma SameHeader(before: seq<Byte>, after: seq<Byte>)
    requires HEADER <= |before| == |after| && after[..HEADER] == before[..HEADER]
    ensures Count(after) == Count(before) && RadiusBytes(after) == RadiusBytes(before)
  {
    assert after[..ID_SIZE] == after[..HEADER][..ID_SIZE] && before[..ID_SIZE] == before[..HEADER][..ID_SIZE];
    assert after[ID_SIZE..HEADER] == after[..HEADER][ID_SIZE..];
    assert before[ID_SIZE..HEADER] == before[..HEADER][ID_SIZE..];
  }

  /** Writing into the header changes no slot. */
  lemma HeaderWrite(before: seq<Byte>, after: seq<Byte>, vectorSize: nat, d: Decoder, t: nat)
    requires HEADER <= |before| && t < Capacity(|before|, vectorSize) && AgreeOutside(before, after, 0, HEADER)
    ensures SlotAt(after, vectorSize, d, t) == SlotAt(before, vectorSize, d, t)
  {
    SlotInsidePage(|before|, vectorSize, t);
    SliceKept(before, after, 0, HEADER, IdOffset(t), ID_SIZE);
    SliceKept(before, after, 0, HEADER, VectorOffset(|before|, vectorSize, t), vectorSize);
  }

  /** A slot written behind the last one, and then a count one higher. */
  lemma Appended(before: seq<Byte>, placed: seq<Byte>, after: seq<Byte>, vectorSize: nat, s: Slot, d: Decoder)
    requires HEADER <= |before| == |placed| < Power256(ID_SIZE) && placed[..HEADER] == before[..HEADER]
    requires Count(before) < Capacity(|before|, vectorSize) && SlotAt(placed, vectorSize, d, Count(before)) == s
    requires forall t :: 0 <= t < Count(before) ==> SlotUnchanged(before, placed, vectorSize, t)
    requires AgreeOutside(placed, after, 0, ID_SIZE) && after[..ID_SIZE] == BytesOf(Count(before) + 1, ID_SIZE)
    ensures IsPage(after, vectorSize)
    ensures var was := PageOf(before, vectorSize, d);
      PageOf(after, vectorSize, d) == Page(was.slots + [s], was.maxDist)
  {
    var n := Count(before);
    SameHeader(before, placed);
    CountFits(|before|, vectorSize, n + 1);
    BytesRoundTrip(n + 1, ID_SIZE);
    assert Count(after) == n + 1 && RadiusBytes(after) == RadiusBytes(placed);
    hide Count, RadiusBytes, Capacity, IdAt, VectorAt, SlotUnchanged, SlotAt;
    forall t | 0 <= t < n + 1
      ensures SlotAt(after, vectorSize, d, t) == if t == n then s else SlotAt(before, vectorSize, d, t)
    {
      HeaderWrite(placed, after, vectorSize, d, t);
      if t < n { SameSlot(before, placed, vectorSize, d, t); }
    }
  }

  /** Appending a vector: it goes into the slot behind the last one, and the count rises. */
  method AppendVector(page: array<Byte>, vectorSize: nat, id: seq<Byte>, vec: seq<Byte>, ghost d: Decoder)
    requires IsPage(page[..], vectorSize) && Count(page[..]) < Capacity(page.Length, vectorSize)
    requires |id| == ID_SIZE && |vec| == vectorSize && page.Length < Power256(ID_SIZE)
    modifies page
    ensures IsPage(page[..], vectorSize)
    ensures var was := PageOf(old(page[..]), vectorSize, d);
      PageOf(page[..], vectorSize, d) == Page(was.slots + [Slot(NatOf(id), d.vec(vec))], was.maxDist)
  {
    ghost var before := page[..];
    var n := Count(page[..]);
    PlaceNewVectorAt(page, vectorSize, n, id, vec);
    ghost var placed := page[..];
    assert SlotAt(placed, vectorSize, d, n) == Slot(NatOf(id), d.vec(vec));
    hide Capacity, IdAt, VectorAt, SlotUnchanged, SlotAt, Count, PageOf, IsPage, BytesOf;
    CopyBytes(page, 0, BytesOf(n + 1, ID_SIZE));
    ghost var after := page[..];
    assert after[..ID_SIZE] == after[0..0 + ID_SIZE];
    Appended(before, placed, after, vectorSize, Slot(NatOf(id), d.vec(vec)), d);
  }

  lemma CountFits(pageSize: nat, vectorSize: nat, n: nat)
    requires HEADER <= pageSize < Power256(ID_SIZE) && n <= Capacity(pageSize, vectorSize)
    ensures n < Power256(ID_SIZE)
  {
  }

  lemma Padded(cleared: seq<Byte>, after: seq<Byte>, at: nat, bytes: seq<Byte>)
    requires |bytes| <= 8 && at + 8 <= |cleared| && cleared[at..at + 8] == Zeros(8)
    requires AgreeOutside(cleared, after, at, |bytes|) && after[at..at + |bytes|] == bytes
    ensures after[at..at + 8] == bytes + Zeros(8 - |bytes|)
  {
    var r, e := after[at..at + 8], bytes + Zeros(8 - |bytes|);
    forall i | 0 <= i < 8 ensures r[i] == e[i] {
      if i < |bytes| {
        assert after[at + i] == after[at..at + |bytes|][i];
      } else {
        assert cleared[at + i] == cleared[at..at + 8][i];
      }
    }
  }

  /** Storing a radius: its bytes, padded with zeros to eight. */
  method UpdateRadius(page: array<Byte>, vectorSize: nat, bytes: seq<Byte>, ghost d: Decoder)
    requires IsPage(page[..], vectorSize) && |bytes| <= 8
    modifies page
    ensures IsPage(page[..], vectorSize)
    ensures PageOf(page[..], vectorSize, d)
      == Page(PageOf(old(page[..]), vectorSize, d).slots, d.radius(bytes + Zeros(8 - |bytes|)))
  {
    ghost var before := page[..];
    CopyBytes(page, ID_SIZE, Zeros(8));
    ghost var cleared := page[..];
    CopyBytes(page, ID_SIZE, bytes);
    ghost var after := page[..];
    Padded(cleared, after, ID_SIZE, bytes);
    assert after[..ID_SIZE] == before[..ID_SIZE];
    hide Count, Capacity, IdAt, VectorAt, NatOf;
    forall t | 0 <= t < Count(before) ensures SlotAt(after, vectorSize, d, t) == SlotAt(before, vectorSize, d, t) {
      HeaderWrite(before, after, vectorSize, d, t);
    }
    SameCount(before, after);
  }

  lemma SameCount(before: seq<Byte>, after: seq<Byte>)
    requires HEADER <= |before| == |after| && after[..ID_SIZE] == before[..ID_SIZE]
    ensures Count(after) == Count(before)
  {
  }
}
