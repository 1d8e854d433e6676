/** How many files a prefill creates, when they hold all its pages, and how pages are addressed. */
module FilePlan {
  import opened Arithmetic

  /** The divisor of the file-count formula: vectors per file, as the source rounds it. */
  function VectorsPerFile(limit: nat, fileSize: nat, pageSize: nat): nat
    requires 0 < pageSize
  {
    limit * fileSize / pageSize
  }

  /** One file exists already; the loop adds n / VectorsPerFile more. */
  function FilesAfter(n: nat, limit: nat, fileSize: nat, pageSize: nat): nat
    requires 0 < pageSize && 0 < VectorsPerFile(limit, fileSize, pageSize)
  {
    1 + n / VectorsPerFile(limit, fileSize, pageSize)
  }

  /** Pages needed for n vectors, limit to a page. */
  function Rounds(n: nat, limit: nat): nat
    requires 0 < limit
  {
    (n + limit - 1) / limit
  }

  predicate Suffices(n: nat, limit: nat, fileSize: nat, pageSize: nat)
    requires 0 < limit && 0 < pageSize && 0 < VectorsPerFile(limit, fileSize, pageSize)
  {
    Rounds(n, limit) <= FilesAfter(n, limit, fileSize, pageSize) * (fileSize / pageSize)
  }

  /** The layout under which the files always suffice: whole pages, and a remainder too small to mislead the
      formula. */
  predicate FilesFit(limit: nat, fileSize: nat, pageSize: nat, pagesPerFile: nat) {
    0 < pageSize <= fileSize && pagesPerFile == fileSize / pageSize && limit * (fileSize % pageSize) < pageSize
  }

  lemma RoundsAtMost(n: nat, limit: nat, pages: nat)
    requires 0 < limit
    ensures Rounds(n, limit) <= pages <==> n <= pages * limit
  {
    var r := Rounds(n, limit);
    var rem := (n + limit - 1) % limit;
    assert n + limit - 1 == r * limit + rem;
    if r <= pages {
      MulMonotone(r, pages, limit);
    } else {
      MulMonotone(pages + 1, r, limit);
      assert (pages + 1) * limit == pages * limit + limit;
    }
  }

  /** VectorsPerFile exceeds what the pages of a file hold by the rounding of the file's remainder. */
  lemma VectorsPerFileIs(limit: nat, fileSize: nat, pageSize: nat)
    requires 0 < pageSize
    ensures VectorsPerFile(limit, fileSize, pageSize)
      == limit * (fileSize / pageSize) + limit * (fileSize % pageSize) / pageSize
  {
    var f, r := fileSize / pageSize, fileSize % pageSize;
    var e, rem := limit * r / pageSize, limit * r % pageSize;
    assert fileSize == f * pageSize + r;
    Distributed(limit, f, pageSize, r);
    assert limit * r == e * pageSize + rem;
    Collected(limit * f, e, pageSize);
    QuotientIs(limit * fileSize, pageSize, limit * f + e, rem);
  }

  lemma Distributed(a: nat, f: nat, p: nat, r: nat)
    ensures a * (f * p + r) == (a * f) * p + a * r
  {
    assert a * (f * p) == (a * f) * p;
  }

  lemma Collected(x: nat, e: nat, p: nat)
    ensures (x + e) * p == x * p + e * p
  {
  }

  lemma QuotientIs(x: nat, d: nat, q: nat, rem: nat)
    requires 0 < d && rem < d && x == q * d + rem
    ensures x / d == q
  {
    var p := x / d;
    assert x == p * d + x % d;
    assert (p + 1) * d == p * d + d && (q + 1) * d == q * d + d;
    if p < q { MulMonotone(p + 1, q, d); }
    if q < p { MulMonotone(q + 1, p, d); }
  }

  lemma EnoughWhenExact(n: nat, limit: nat, fileSize: nat, pageSize: nat)
    requires 0 < limit && 0 < pageSize <= fileSize
    requires VectorsPerFile(limit, fileSize, pageSize) == limit * (fileSize / pageSize) > 0
    ensures Suffices(n, limit, fileSize, pageSize)
  {
    var f, c := fileSize / pageSize, VectorsPerFile(limit, fileSize, pageSize);
    var q := n / c;
    assert n == q * c + n % c;
    assert (1 + q) * c == q * c + c;
    assert ((1 + q) * f) * limit == (1 + q) * (f * limit) == (1 + q) * c;
    RoundsAtMost(n, limit, (1 + q) * f);
  }

  lemma TooFewOtherwise(limit: nat, fileSize: nat, pageSize: nat)
    requires 0 < limit && 0 < pageSize <= fileSize
    requires VectorsPerFile(limit, fileSize, pageSize) > limit * (fileSize / pageSize)
    ensures !Suffices(2 * VectorsPerFile(limit, fileSize, pageSize) - 1, limit, fileSize, pageSize)
  {
    var f, c := fileSize / pageSize, VectorsPerFile(limit, fileSize, pageSize);
    QuotientIs(2 * c - 1, c, 1, c - 1);
    assert (2 * f) * limit == 2 * (limit * f);
    RoundsAtMost(2 * c - 1, limit, 2 * f);
  }

  /** The preallocated files are enough for every number of vectors if and only if the part of a file
      beyond its last page would not make room for one vector more. In particular they are enough
      whenever the page size divides the file size. */
  lemma FilesSufficeIff(limit: nat, fileSize: nat, pageSize: nat)
    requires 0 < limit && 0 < pageSize <= fileSize
    ensures 0 < VectorsPerFile(limit, fileSize, pageSize)
    ensures (forall n: nat :: Suffices(n, limit, fileSize, pageSize)) <==> limit * (fileSize % pageSize) < pageSize
  {
    var f, r, c := fileSize / pageSize, fileSize % pageSize, VectorsPerFile(limit, fileSize, pageSize);
    VectorsPerFileIs(limit, fileSize, pageSize);
    MulMonotone(1, f, limit);
    if limit * r < pageSize {
      QuotientIs(limit * r, pageSize, 0, limit * r);
      forall n: nat ensures Suffices(n, limit, fileSize, pageSize) {
        EnoughWhenExact(n, limit, fileSize, pageSize);
      }
    } else {
      var e := limit * r / pageSize;
      assert e >= 1;
      TooFewOtherwise(limit, fileSize, pageSize);
    }
  }

  lemma PerFileIs(limit: nat, fileSize: nat, pageSize: nat)
    requires 0 < pageSize
    ensures VectorsPerFile(limit, fileSize, pageSize) == limit * fileSize / pageSize
  {
  }

  lemma QuotientBounds(n: nat, d: nat)
    requires 0 < d
    ensures n / d * d <= n < (n / d + 1) * d
  {
    assert n == n / d * d + n % d;
    assert (n / d + 1) * d == n / d * d + d;
  }

  // ---------- Addressing ----------

  function FileIndex(page: nat, perFile: nat): nat
    requires 0 < perFile
  {
    page / perFile
  }

  function PageInFile(page: nat, perFile: nat): nat
    requires 0 < perFile
  {
    page % perFile
  }

  /** Page numbers below files * perFile and pairs of a file and a page in it correspond one to one. */
  lemma AddressingIsBijective(files: nat, perFile: nat, page: nat, file: nat, inFile: nat)
    requires 0 < perFile && inFile < perFile
    ensures page < files * perFile <==> FileIndex(page, perFile) < files
    ensures page == file * perFile + inFile <==> FileIndex(page, perFile) == file && PageInFile(page, perFile) == inFile
  {
    var f, p := FileIndex(page, perFile), PageInFile(page, perFile);
    assert page == f * perFile + p;
    if f < files {
      MulMonotone(f + 1, files, perFile);
      assert (f + 1) * perFile == f * perFile + perFile;
    } else {
      MulMonotone(files, f, perFile);
    }
    if page == file * perFile + inFile { QuotientIs(page, perFile, file, inFile); }
  }
}
