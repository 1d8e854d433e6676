/** Facts about products that several layouts share. */
module Arithmetic {

  lemma MulMonotone(a: nat, b: nat, c: nat)
    requires a <= b
    ensures a * c <= b * c
  {
  }

  /** Regions of one size, laid out one after another, do not overlap. */
  lemma RegionsApart(i: nat, j: nat, size: nat)
    requires i < j
    ensures i * size + size <= j * size
  {
    assert (i + 1) * size == i * size + size;
    MulMonotone(i + 1, j, size);
  }

  /** Where part w of a buffer of equal parts starts. */
  function Offset(w: nat, size: nat): nat {
    w * size
  }

  lemma PartInside(w: nat, nThreads: nat, size: nat, k: nat, length: nat)
    requires w < nThreads && k <= size && length == nThreads * size
    ensures Offset(w, size) + k <= length
  {
    RegionsApart(w, nThreads, size);
  }

  lemma PartsApart(w: nat, v: nat, size: nat, k: nat)
    requires w != v && k <= size
    ensures Offset(w, size) + k <= Offset(v, size) || Offset(v, size) + k <= Offset(w, size)
  {
    if w < v { RegionsApart(w, v, size); } else { RegionsApart(v, w, size); }
  }
}
