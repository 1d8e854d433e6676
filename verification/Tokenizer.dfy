/** The byte-level BPE tokenizer: bytes are mapped to printable UTF-8 characters, split into one view per
    character, and merged in place. Merged-away views stay behind as empty ones; on the list of the
    others each round is one step of textbook pair merging. */
module Tokenizer {

  type Byte = b: int | 0 <= b < 256

  // ---------- Byte mapping ----------

  /** The character a byte is shown as: itself when printable, otherwise one of the characters from 256 on. */
  function CodePoint(b: Byte): (c: nat)
    ensures c < 324
  {
    if 33 <= b <= 126 || 161 <= b <= 172 || 174 <= b then b
    else if b <= 32 then 256 + b
    else if b <= 160 then 162 + b
    else 323
  }

  /** The two UTF-8 bytes of a character from 128 up to 1023, lead byte in the low half. */
  function Utf8Pair(c: nat): nat {
    (192 + c / 64) + 256 * (128 + c % 64)
  }

  lemma PairHalves(c: nat)
    requires c < 1024
    ensures Utf8Pair(c) % 256 == 192 + c / 64 < 224
    ensures Utf8Pair(c) / 256 % 256 == Utf8Pair(c) / 256 == 128 + c % 64 < 192
  {
    var lo, hi := 192 + c / 64, 128 + c % 64;
    assert (lo + 256 * hi) % 256 == lo;
    assert (lo + 256 * hi) / 256 == hi;
  }

  /** The table entry of a byte. */
  function ByteToUnicode(b: Byte): nat {
    if CodePoint(b) < 128 then CodePoint(b) else Utf8Pair(CodePoint(b))
  }

  /** Inverse lookup: small codes stand for themselves, others are searched for in the table. */
  method UnicodeToByte(code: nat) returns (b: Byte)
    ensures code < 128 ==> b == code
    ensures code >= 128 ==>
      if exists i: Byte :: ByteToUnicode(i) == code then ByteToUnicode(b) == code else b == 0
  {
    if code < 128 {
      return code;
    }
    for i := 0 to 256
      invariant forall j: Byte :: j < i ==> ByteToUnicode(j) != code
    {
      if ByteToUnicode(i) == code {
        return i;
      }
    }
    return 0;
  }

  lemma CodePointInjective(a: Byte, b: Byte)
    requires CodePoint(a) == CodePoint(b)
    ensures a == b
  {
  }

  lemma Utf8PairInjective(c: nat, d: nat)
    requires c < 1024 && d < 1024 && Utf8Pair(c) == Utf8Pair(d)
    ensures c == d
  {
    PairHalves(c);
    PairHalves(d);
  }

  lemma ByteToUnicodeInjective(a: Byte, b: Byte)
    requires ByteToUnicode(a) == ByteToUnicode(b)
    ensures a == b
  {
    if CodePoint(a) >= 128 && CodePoint(b) >= 128 { Utf8PairInjective(CodePoint(a), CodePoint(b)); }
    CodePointInjective(a, b);
  }

  /** Mapping a byte and looking it up again gives the byte back. */
  method ByteRoundTrip(b: Byte) returns (r: Byte)
    ensures r == b
  {
    r := UnicodeToByte(ByteToUnicode(b));
    ByteToUnicodeInjective(r, b);
  }

  /** Length of a UTF-8 sequence by its first byte; -1 for bytes that start none. */
  function UseNBytes(c: Byte): int {
    if c == 0 then 0
    else if c < 128 then 1
    else if c < 192 then -1
    else if c < 224 then 2
    else if c < 240 then 3
    else if c < 248 then 4
    else -1
  }

  /** What one input byte becomes in the replaced text. */
  function Mapped(b: Byte): (r: seq<Byte>)
    ensures |r| == 1 || |r| == 2
    ensures UseNBytes(r[0]) == |r|
  {
    var code := ByteToUnicode(b);
    if code < 128 then [code]
    else
      PairHalves(CodePoint(b));
      [code % 256, code / 256 % 256]
  }

  function MappedText(text: seq<Byte>): seq<Byte> {
    if text == [] then [] else MappedText(text[..|text| - 1]) + Mapped(text[|text| - 1])
  }

  /** The characters of the replaced text, one per input byte. */
  function Characters(text: seq<Byte>): (r: seq<seq<Byte>>)
    ensures |r| == |text| && forall i :: 0 <= i < |text| ==> r[i] == Mapped(text[i])
  {
    seq(|text|, i requires 0 <= i < |text| => Mapped(text[i]))
  }

  method Replace(text: seq<Byte>) returns (replaced: seq<Byte>)
    ensures replaced == MappedText(text)
  {
    replaced := [];
    for i := 0 to |text|
      invariant replaced == MappedText(text[..i])
    {
      var code := ByteToUnicode(text[i]);
      if code < 128 {
        replaced := replaced + [code];
      } else {
        replaced := replaced + [code % 256];
        replaced := replaced + [code / 256 % 256];
      }
      assert text[..i + 1][..i] == text[..i];
    }
    assert text[..|text|] == text;
  }

  // ---------- Views ----------

  /** A string view into the replaced text; the default view is empty. */
  datatype View = View(start: nat, len: nat)

  function Slice(text: seq<Byte>, v: View): seq<Byte>
    requires v.start + v.len <= |text|
  {
    text[v.start..v.start + v.len]
  }

  /** The non-empty views among tokens[lo..hi]. */
  function Live(tokens: seq<View>, lo: nat, hi: nat): (r: seq<View>)
    requires lo <= hi <= |tokens|
    ensures |r| <= hi - lo
    ensures forall i :: 0 <= i < |r| ==> r[i].len > 0
  {
    if lo == hi then []
    else Live(tokens, lo, hi - 1) + (if tokens[hi - 1].len > 0 then [tokens[hi - 1]] else [])
  }

  lemma {:induction false} LiveSplit(tokens: seq<View>, lo: nat, mid: nat, hi: nat)
    requires lo <= mid <= hi <= |tokens|
    ensures Live(tokens, lo, hi) == Live(tokens, lo, mid) + Live(tokens, mid, hi)
  {
    if mid < hi {
      LiveSplit(tokens, lo, mid, hi - 1);
      var a, b := Live(tokens, lo, mid), Live(tokens, mid, hi - 1);
      var c := if tokens[hi - 1].len > 0 then [tokens[hi - 1]] else [];
      assert (a + b) + c == a + (b + c);
    }
  }

  lemma {:induction false} LiveSame(a: seq<View>, b: seq<View>, lo: nat, hi: nat)
    requires lo <= hi <= |a| == |b| && forall i :: lo <= i < hi ==> a[i] == b[i]
    ensures Live(a, lo, hi) == Live(b, lo, hi)
  {
    if lo < hi { LiveSame(a, b, lo, hi - 1); }
  }

  /** Consecutive views that cover a text from one end to the other. */
  ghost predicate Tiles(live: seq<View>, text: seq<Byte>) {
    && (forall i :: 0 <= i < |live| ==> live[i].start + live[i].len <= |text|)
    && (forall i :: 0 <= i < |live| - 1 ==> live[i].start + live[i].len == live[i + 1].start)
    && (live != [] ==> live[0].start == 0 && live[|live| - 1].start + live[|live| - 1].len == |text|)
    && (live == [] ==> text == [])
  }

  function Parts(live: seq<View>, text: seq<Byte>): (r: seq<seq<Byte>>)
    requires Tiles(live, text)
    ensures |r| == |live| && forall i :: 0 <= i < |live| ==> r[i] == Slice(text, live[i])
  {
    seq(|live|, i requires 0 <= i < |live| => Slice(text, live[i]))
  }

  // ---------- Textbook pair merging ----------

  /** Rank of the pair starting at part i, or -1 when it does not merge. */
  function PairRank(parts: seq<seq<Byte>>, rank: seq<Byte> -> int, i: nat): int
    requires i + 1 < |parts|
  {
    rank(parts[i] + parts[i + 1])
  }

  /** The leftmost pair of lowest rank among the first n pairs, or -1. */
  function Best(parts: seq<seq<Byte>>, rank: seq<Byte> -> int, n: nat): (b: int)
    requires n == 0 || n < |parts|
    ensures -1 <= b < n
    ensures b >= 0 ==> PairRank(parts, rank, b) != -1
  {
    if n == 0 then -1
    else
      var b := Best(parts, rank, n - 1);
      var r := PairRank(parts, rank, n - 1);
      if r != -1 && (b == -1 || r < PairRank(parts, rank, b)) then n - 1 else b
  }

  /** What Best finds, in full: nothing exactly when no pair merges, otherwise the leftmost minimum. */
  lemma {:induction false} BestIsLeftmostLowest(parts: seq<seq<Byte>>, rank: seq<Byte> -> int, n: nat)
    requires n == 0 || n < |parts|
    ensures var b := Best(parts, rank, n);
      && (b == -1 <==> forall j: nat :: j < n ==> PairRank(parts, rank, j) == -1)
      && (b >= 0 ==> forall j: nat :: j < n && PairRank(parts, rank, j) != -1 ==>
            PairRank(parts, rank, b) <= PairRank(parts, rank, j))
      && (b >= 0 ==> forall j: nat :: j < b && PairRank(parts, rank, j) != -1 ==>
            PairRank(parts, rank, b) < PairRank(parts, rank, j))
  {
    if n > 0 { BestIsLeftmostLowest(parts, rank, n - 1); }
  }

  function Pairs(parts: seq<seq<Byte>>): nat {
    if |parts| == 0 then 0 else |parts| - 1
  }

  function MergeAt(parts: seq<seq<Byte>>, i: nat): (r: seq<seq<Byte>>)
    requires i + 1 < |parts|
    ensures |r| == |parts| - 1
  {
    parts[..i] + [parts[i] + parts[i + 1]] + parts[i + 2..]
  }

  /** Merge the leftmost pair of lowest rank until no pair merges. */
  function ListBpe(parts: seq<seq<Byte>>, rank: seq<Byte> -> int): seq<seq<Byte>>
    decreases |parts|
  {
    var b := Best(parts, rank, Pairs(parts));
    if b == -1 then parts else ListBpe(MergeAt(parts, b), rank)
  }

  /** Pair j merges, at a rank lower than that of every pair before it and no higher than that of any other. */
  ghost predicate IsBest(parts: seq<seq<Byte>>, rank: seq<Byte> -> int, j: nat) {
    && j < Pairs(parts) && PairRank(parts, rank, j) != -1
    && (forall i: nat :: i < Pairs(parts) && PairRank(parts, rank, i) != -1 ==>
        PairRank(parts, rank, j) <= PairRank(parts, rank, i))
    && (forall i: nat :: i < j && PairRank(parts, rank, i) != -1 ==>
        PairRank(parts, rank, j) < PairRank(parts, rank, i))
  }

  lemma BestIs(parts: seq<seq<Byte>>, rank: seq<Byte> -> int, j: nat)
    requires IsBest(parts, rank, j)
    ensures Best(parts, rank, Pairs(parts)) == j
  {
    BestIsLeftmostLowest(parts, rank, Pairs(parts));
    hide Best, PairRank;
  }

  /** One round of merging, said on the list: the two parts of the best pair are joined. */
  lemma ListBpeMerges(parts: seq<seq<Byte>>, rank: seq<Byte> -> int, j: nat)
    requires IsBest(parts, rank, j)
    ensures ListBpe(parts, rank) == ListBpe(parts[..j] + [parts[j] + parts[j + 1]] + parts[j + 2..], rank)
  {
    BestIs(parts, rank, j);
    hide Best, ListBpe, IsBest, PairRank;
    OneRound(parts, rank, j);
  }

  lemma OneRound(parts: seq<seq<Byte>>, rank: seq<Byte> -> int, j: nat)
    requires j + 1 < |parts| && Best(parts, rank, Pairs(parts)) == j
    ensures ListBpe(parts, rank) == ListBpe(MergeAt(parts, j), rank)
  {
  }

  /** When no pair merges, the parts are what is left. */
  lemma ListBpeStops(parts: seq<seq<Byte>>, rank: seq<Byte> -> int)
    requires forall i: nat :: i < Pairs(parts) ==> PairRank(parts, rank, i) == -1
    ensures ListBpe(parts, rank) == parts
  {
    BestIsLeftmostLowest(parts, rank, Pairs(parts));
    hide Best, PairRank;
  }

  function Concat(parts: seq<seq<Byte>>): seq<Byte> {
    if parts == [] then [] else Concat(parts[..|parts| - 1]) + parts[|parts| - 1]
  }

  lemma {:induction false} ConcatAppend(a: seq<seq<Byte>>, b: seq<seq<Byte>>)
    ensures Concat(a + b) == Concat(a) + Concat(b)
  {
    if b == [] {
      assert a + b == a;
    } else {
      var n := |b| - 1;
      ConcatAppend(a, b[..n]);
      assert (a + b)[..|a + b| - 1] == a + b[..n];
      assert (Concat(a) + Concat(b[..n])) + b[n] == Concat(a) + (Concat(b[..n]) + b[n]);
    }
  }

  lemma ConcatSnoc(a: seq<seq<Byte>>, x: seq<Byte>)
    ensures Concat(a + [x]) == Concat(a) + x
  {
    assert (a + [x])[..|a|] == a;
  }

  lemma SplitAtPair<T>(s: seq<T>, i: nat)
    requires i + 1 < |s|
    ensures s == ((s[..i] + [s[i]]) + [s[i + 1]]) + s[i + 2..]
  {
  }

  lemma MergeKeepsText(parts: seq<seq<Byte>>, i: nat)
    requires i + 1 < |parts|
    ensures Concat(MergeAt(parts, i)) == Concat(parts)
  {
    hide Concat;
    var a, x, y, b := parts[..i], parts[i], parts[i + 1], parts[i + 2..];
    SplitAtPair(parts, i);
    ConcatAppend((a + [x]) + [y], b);
    ConcatSnoc(a + [x], y);
    ConcatSnoc(a, x);
    ConcatAppend(a + [x + y], b);
    ConcatSnoc(a, x + y);
    Associates(Concat(a), x, y);
  }

  lemma Associates<T>(a: seq<T>, b: seq<T>, c: seq<T>)
    ensures (a + b) + c == a + (b + c)
  {
  }

  /** Merging keeps the text, never grows the list, and ends with no mergeable pair. */
  lemma {:induction false} ListBpeResult(parts: seq<seq<Byte>>, rank: seq<Byte> -> int)
    ensures var r := ListBpe(parts, rank);
      && Concat(r) == Concat(parts) && |r| <= |parts|
      && forall j: nat :: j < Pairs(r) ==> PairRank(r, rank, j) == -1
    decreases |parts|
  {
    var b := Best(parts, rank, Pairs(parts));
    BestIsLeftmostLowest(parts, rank, Pairs(parts));
    if b != -1 {
      MergeKeepsText(parts, b);
      ListBpeResult(MergeAt(parts, b), rank);
    }
  }

  // ---------- The merge loop on views ----------

  /** tokens[ls] and tokens[rs] are neighbours among the non-empty views, the b-th and the next. */
  ghost predicate Neighbours(tokens: seq<View>, ls: nat, rs: nat, b: nat) {
    && ls < rs < |tokens|
    && tokens[ls].len > 0 && tokens[rs].len > 0
    && (forall i :: ls < i < rs ==> tokens[i].len == 0)
    && |Live(tokens, 0, ls)| == b
  }

  lemma {:induction false} LiveSkip(tokens: seq<View>, mid: nat, hi: nat)
    requires mid <= hi <= |tokens| && forall i :: mid <= i < hi ==> tokens[i].len == 0
    ensures Live(tokens, 0, hi) == Live(tokens, 0, mid)
  {
    if mid < hi { LiveSkip(tokens, mid, hi - 1); }
  }

  lemma LiveNext(tokens: seq<View>, i: nat)
    requires i < |tokens| && tokens[i].len > 0
    ensures Live(tokens, 0, i + 1) == Live(tokens, 0, i) + [tokens[i]]
  {
  }

  lemma PairInside<T>(s: seq<T>, a: seq<T>, x: T, y: T, b: seq<T>)
    requires s == ((a + [x]) + [y]) + b
    ensures |a| + 1 < |s| && s[|a|] == x && s[|a| + 1] == y && s[..|a|] == a && s[|a| + 2..] == b
  {
  }

  lemma NeighboursInLive(tokens: seq<View>, ls: nat, rs: nat, b: nat)
    requires Neighbours(tokens, ls, rs, b)
    ensures var live := Live(tokens, 0, |tokens|);
      && b + 1 < |live| && live[b] == tokens[ls] && live[b + 1] == tokens[rs]
      && live[..b] == Live(tokens, 0, ls) && live[b + 2..] == Live(tokens, rs + 1, |tokens|)
  {
    hide Live;
    LiveNext(tokens, ls);
    LiveSkip(tokens, ls + 1, rs);
    LiveNext(tokens, rs);
    LiveSplit(tokens, 0, rs + 1, |tokens|);
    PairInside(Live(tokens, 0, |tokens|), Live(tokens, 0, ls), tokens[ls], tokens[rs], Live(tokens, rs + 1, |tokens|));
  }

  /** The two assignments that end a round. */
  function MergeViews(tokens: seq<View>, ls: nat, rs: nat): seq<View>
    requires ls < rs < |tokens|
  {
    tokens[ls := View(tokens[ls].start, tokens[ls].len + tokens[rs].len)][rs := View(0, 0)]
  }

  /** live' has one view for the b-th view of live and the next. */
  ghost predicate Joined(live: seq<View>, live': seq<View>, b: nat) {
    && b + 1 < |live|
    && live' == live[..b] + [View(live[b].start, live[b].len + live[b + 1].len)] + live[b + 2..]
  }

  lemma MergeViewsLive(tokens: seq<View>, ls: nat, rs: nat, b: nat)
    requires Neighbours(tokens, ls, rs, b)
    ensures b + 1 < |Live(tokens, 0, |tokens|)|
    ensures Joined(Live(tokens, 0, |tokens|), Live(MergeViews(tokens, ls, rs), 0, |tokens|), b)
  {
    hide Live;
    var n, t := |tokens|, MergeViews(tokens, ls, rs);
    NeighboursInLive(tokens, ls, rs, b);
    LiveNext(t, ls);
    LiveSkip(t, ls + 1, rs + 1);
    LiveSplit(t, 0, rs + 1, n);
    LiveSame(t, tokens, 0, ls);
    LiveSame(t, tokens, rs + 1, n);
  }

  lemma SliceJoin(text: seq<Byte>, a: nat, b: nat, c: nat)
    requires a <= b <= c <= |text|
    ensures text[a..b] + text[b..c] == text[a..c]
  {
  }

  /** Joining two neighbours moves the views behind them one place to the front. */
  lemma JoinedAt(live: seq<View>, live': seq<View>, b: nat)
    requires Joined(live, live', b)
    ensures b + 1 < |live| && |live'| + 1 == |live|
    ensures live'[b] == View(live[b].start, live[b].len + live[b + 1].len)
    ensures forall j :: 0 <= j < b ==> live'[j] == live[j]
    ensures forall j :: b < j < |live'| ==> live'[j] == live[j + 1]
  {
  }

  /** Merging two neighbouring views merges the two parts they show. */
  lemma MergeViewsTiles(live: seq<View>, live': seq<View>, text: seq<Byte>, b: nat)
    requires Tiles(live, text) && Joined(live, live', b)
    ensures Tiles(live', text)
  {
    JoinedAt(live, live', b);
    hide Joined;
    forall i | 0 <= i < |live'| - 1 ensures live'[i].start + live'[i].len == live'[i + 1].start {
      if i < b - 1 {
        assert live[i].start + live[i].len == live[i + 1].start;
      } else if i == b {
        assert live[b].start + live[b].len == live[b + 1].start;
        assert live[b + 1].start + live[b + 1].len == live[b + 2].start;
      }
    }
  }

  lemma MergeAtIndex(parts: seq<seq<Byte>>, i: nat, j: nat)
    requires i + 1 < |parts| && j + 1 < |parts|
    ensures MergeAt(parts, i)[j] ==
      (if j < i then parts[j] else if j == i then parts[i] + parts[i + 1] else parts[j + 1])
  {
  }

  lemma PartAt(live: seq<View>, text: seq<Byte>, j: nat)
    requires Tiles(live, text) && j < |live|
    ensures |Parts(live, text)| == |live| && live[j].start + live[j].len <= |text|
    ensures Parts(live, text)[j] == text[live[j].start..live[j].start + live[j].len]
  {
  }

  /** The part that view j shows after the merge. */
  lemma MergedPartAt(live: seq<View>, live': seq<View>, text: seq<Byte>, b: nat, j: nat)
    requires Tiles(live, text) && Tiles(live', text) && b + 1 < |live| && Joined(live, live', b) && j < |live'|
    ensures |MergeAt(Parts(live, text), b)| == |live'| && Parts(live', text)[j] == MergeAt(Parts(live, text), b)[j]
  {
    assert live[b].start + live[b].len == live[b + 1].start;
    JoinedAt(live, live', b);
    hide Joined, Parts, Tiles;
    PartAt(live', text, j);
    PartAt(live, text, if j < b then j else b);
    PartAt(live, text, if j <= b then b + 1 else j + 1);
    MergeAtIndex(Parts(live, text), b, j);
    hide MergeAt;
    if j == b {
      SliceJoin(text, live[b].start, live[b].start + live[b].len, live[b + 1].start + live[b + 1].len);
    }
  }

  lemma MergeViewsParts(live: seq<View>, live': seq<View>, text: seq<Byte>, b: nat)
    requires Tiles(live, text) && Tiles(live', text) && b + 1 < |live| && Joined(live, live', b)
    ensures Parts(live', text) == MergeAt(Parts(live, text), b)
  {
    JoinedAt(live, live', b);
    hide Joined, MergeAt, Parts, Tiles;
    forall j: nat | j < |live'| ensures Parts(live', text)[j] == MergeAt(Parts(live, text), b)[j] {
      MergedPartAt(live, live', text, b, j);
    }
    MergedPartAt(live, live', text, b, b);
  }

  /** The next non-empty view after i, or the end. */
  method NextLive(tokens: seq<View>, i: nat) returns (k: nat)
    requires i < |tokens|
    ensures i < k <= |tokens|
    ensures forall j :: i < j < k ==> tokens[j].len == 0
    ensures k < |tokens| ==> tokens[k].len > 0
  {
    k := i + 1;
    while k < |tokens| && tokens[k].len == 0
      invariant i < k <= |tokens|
      invariant forall j :: i < j < k ==> tokens[j].len == 0
      decreases |tokens| - k
    {
      k := k + 1;
    }
  }

  /** Two neighbouring views show a pair of parts, and one contiguous stretch of text. */
  lemma NeighboursShowPair(tokens: seq<View>, text: seq<Byte>, i: nat, k: nat, p: nat)
    requires Tiles(Live(tokens, 0, |tokens|), text) && Neighbours(tokens, i, k, p)
    ensures var parts := Parts(Live(tokens, 0, |tokens|), text);
      && p + 1 < |parts| && tokens[i].start + tokens[i].len + tokens[k].len <= |text|
      && text[tokens[i].start..tokens[i].start + tokens[i].len + tokens[k].len] == parts[p] + parts[p + 1]
  {
    NeighboursInLive(tokens, i, k, p);
    SliceJoin(text, tokens[i].start, tokens[i].start + tokens[i].len, tokens[k].start + tokens[k].len);
  }

  lemma LastLive(tokens: seq<View>, text: seq<Byte>, i: nat)
    requires i < |tokens| && tokens[i].len > 0 && forall j :: i < j < |tokens| ==> tokens[j].len == 0
    requires Tiles(Live(tokens, 0, |tokens|), text)
    ensures |Live(tokens, 0, i)| == Pairs(Parts(Live(tokens, 0, |tokens|), text))
  {
    LiveNext(tokens, i);
    LiveSkip(tokens, i + 1, |tokens|);
  }

  /** Compares the pair shown by views i and k, the p-th pair, with the best one so far. */
  method ConsiderPair(tokens: seq<View>, text: seq<Byte>, rank: seq<Byte> -> int, i: nat, k: nat, ghost p: nat,
                      bestRank: int, ls: nat, rs: nat, ghost b: int)
    returns (bestRank': int, ls': nat, rs': nat, ghost b': int)
    requires Tiles(Live(tokens, 0, |tokens|), text) && Neighbours(tokens, i, k, p)
    requires p == 0 || p < |Live(tokens, 0, |tokens|)|
    requires IsBestSoFar(tokens, text, rank, p, bestRank, ls, rs, b)
    ensures p + 1 < |Live(tokens, 0, |tokens|)|
    ensures IsBestSoFar(tokens, text, rank, p + 1, bestRank', ls', rs', b')
  {
    hide Live, Tiles, Parts;
    NeighboursShowPair(tokens, text, i, k, p);
    bestRank', ls', rs', b' := bestRank, ls, rs, b;
    var token := text[tokens[i].start..tokens[i].start + tokens[i].len + tokens[k].len];
    var r := rank(token);
    if r != -1 {
      if bestRank == -1 || r < bestRank {
        bestRank', ls', rs', b' := r, i, k, p;
      }
    }
  }

  ghost predicate IsBestSoFar(tokens: seq<View>, text: seq<Byte>, rank: seq<Byte> -> int, p: nat,
                              bestRank: int, ls: nat, rs: nat, b: int)
    requires Tiles(Live(tokens, 0, |tokens|), text)
    requires p == 0 || p < |Live(tokens, 0, |tokens|)|
  {
    var parts := Parts(Live(tokens, 0, |tokens|), text);
    && b == Best(parts, rank, p)
    && (bestRank == -1 <==> b == -1)
    && (b >= 0 ==> bestRank == PairRank(parts, rank, b) && Neighbours(tokens, ls, rs, b))
  }

  /** ls and rs are the views of the leftmost pair of lowest rank, found says whether any pair merges. */
  ghost predicate IsBestPair(tokens: seq<View>, text: seq<Byte>, rank: seq<Byte> -> int, found: bool, ls: nat, rs: nat)
    requires Tiles(Live(tokens, 0, |tokens|), text)
  {
    var parts := Parts(Live(tokens, 0, |tokens|), text);
    var b := Best(parts, rank, Pairs(parts));
    (found <==> b != -1) && (found ==> Neighbours(tokens, ls, rs, b))
  }

  lemma LiveCount(tokens: seq<View>, i: nat, k: nat)
    requires i < k <= |tokens| && tokens[i].len > 0
    requires forall j :: i < j < k ==> tokens[j].len == 0
    ensures |Live(tokens, 0, k)| == |Live(tokens, 0, i)| + 1
  {
    LiveNext(tokens, i);
    LiveSkip(tokens, i + 1, k);
    hide Live;
  }

  lemma ToNeighbour(tokens: seq<View>, i: nat, k: nat)
    requires i < k < |tokens| && tokens[i].len > 0 && tokens[k].len > 0
    requires forall j :: i < j < k ==> tokens[j].len == 0
    ensures Neighbours(tokens, i, k, |Live(tokens, 0, i)|) && |Live(tokens, 0, k)| == |Live(tokens, 0, i)| + 1
  {
    hide Live, Neighbours;
    AreNeighbours(tokens, i, k);
    LiveCount(tokens, i, k);
  }

  /** One scan over the tokens, remembering the best pair so far. */
  method ScanPairs(tokens: seq<View>, text: seq<Byte>, rank: seq<Byte> -> int)
    returns (bestRank: int, ls: nat, rs: nat, ghost p: nat, ghost b: int)
    requires Tiles(Live(tokens, 0, |tokens|), text)
    requires |tokens| > 0 && tokens[0].len > 0
    ensures p == Pairs(Parts(Live(tokens, 0, |tokens|), text)) && (p == 0 || p < |Live(tokens, 0, |tokens|)|)
    ensures IsBestSoFar(tokens, text, rank, p, bestRank, ls, rs, b)
  {
    hide Live, Parts, Tiles, Neighbours, Best, IsBestSoFar, Pairs;
    bestRank, ls, rs, p, b := -1, 0, 0, 0, -1;
    var i := 0;
    NothingBest(tokens, text, rank);
    while true  // the next view is always inside the token list
      invariant i < |tokens| && tokens[i].len > 0
      invariant p == |Live(tokens, 0, i)| && (p == 0 || p < |Live(tokens, 0, |tokens|)|)
      invariant IsBestSoFar(tokens, text, rank, p, bestRank, ls, rs, b)
      decreases |tokens| - i
    {
      var k := NextLive(tokens, i);
      if k >= |tokens| {
        LastLive(tokens, text, i);
        break;
      }
      ToNeighbour(tokens, i, k);
      bestRank, ls, rs, b := ConsiderPair(tokens, text, rank, i, k, p, bestRank, ls, rs, b);
      i := k;
      p := p + 1;
    }
  }

  /** The views to merge, if any pair merges. */
  method FindBestPair(tokens: seq<View>, text: seq<Byte>, rank: seq<Byte> -> int)
    returns (found: bool, ls: nat, rs: nat)
    requires Tiles(Live(tokens, 0, |tokens|), text)
    requires |tokens| > 0 && tokens[0].len > 0
    ensures IsBestPair(tokens, text, rank, found, ls, rs)
  {
    hide Live, Parts, Tiles, Neighbours, Best, IsBestSoFar, IsBestPair, Pairs;
    var bestRank, l, r, p, b := ScanPairs(tokens, text, rank);
    BestInAll(tokens, text, rank, p, bestRank, l, r, b);
    found, ls, rs := bestRank != -1, l, r;
  }

  lemma BestInAll(tokens: seq<View>, text: seq<Byte>, rank: seq<Byte> -> int, p: nat,
                  bestRank: int, ls: nat, rs: nat, b: int)
    requires Tiles(Live(tokens, 0, |tokens|), text)
    requires p == Pairs(Parts(Live(tokens, 0, |tokens|), text)) && (p == 0 || p < |Live(tokens, 0, |tokens|)|)
    requires IsBestSoFar(tokens, text, rank, p, bestRank, ls, rs, b)
    ensures IsBestPair(tokens, text, rank, bestRank != -1, ls, rs)
  {
    hide Live, Parts, Tiles, Neighbours;
  }

  lemma NothingBest(tokens: seq<View>, text: seq<Byte>, rank: seq<Byte> -> int)
    requires Tiles(Live(tokens, 0, |tokens|), text)
    ensures IsBestSoFar(tokens, text, rank, 0, -1, 0, 0, -1) && |Live(tokens, 0, 0)| == 0
  {
    assert Live(tokens, 0, 0) == [];
    hide Live, Parts, Tiles;
  }

  lemma AreNeighbours(tokens: seq<View>, i: nat, k: nat)
    requires i < k < |tokens| && tokens[i].len > 0 && tokens[k].len > 0
    requires forall j :: i < j < k ==> tokens[j].len == 0
    ensures Neighbours(tokens, i, k, |Live(tokens, 0, i)|)
  {
  }

  // ---------- Segmentation and the whole encoder ----------

  lemma {:induction false} MappedTextSplit(text: seq<Byte>, j: nat)
    requires j < |text|
    ensures |MappedText(text[..j])| + |Mapped(text[j])| <= |MappedText(text)|
    ensures MappedText(text)[|MappedText(text[..j])|..|MappedText(text[..j])| + |Mapped(text[j])|] == Mapped(text[j])
  {
    hide Mapped;
    var n := |text| - 1;
    if j < n {
      MappedTextSplit(text[..n], j);
      assert text[..n][..j] == text[..j];
    }
  }

  lemma MappedTextNext(text: seq<Byte>, j: nat)
    requires j < |text|
    ensures MappedText(text[..j + 1]) == MappedText(text[..j]) + Mapped(text[j])
  {
    assert text[..j + 1][..j] == text[..j];
  }

  /** Where character j of the replaced text starts, and that its first byte tells its length. */
  lemma CharacterAt(text: seq<Byte>, j: nat)
    requires j < |text|
    ensures var i, size := |MappedText(text[..j])|, |Mapped(text[j])|;
      && i + size <= |MappedText(text)|
      && UseNBytes(MappedText(text)[i]) == size
      && Slice(MappedText(text), View(i, size)) == Mapped(text[j])
      && |MappedText(text[..j + 1])| == i + size
  {
    MappedTextSplit(text, j);
    MappedTextNext(text, j);
    hide MappedText, Mapped, UseNBytes;
    var i, size := |MappedText(text[..j])|, |Mapped(text[j])|;
    assert MappedText(text)[i..i + size][0] == MappedText(text)[i];
  }

  /** Views placed side by side from the start of the text up to position end, the m-th showing the
      m-th character. */
  ghost predicate SegmentedTo(tokens: seq<View>, text: seq<Byte>, end: nat) {
    && |tokens| <= |text| && end <= |MappedText(text)|
    && (forall i :: 0 <= i < |tokens| ==>
        tokens[i].start + tokens[i].len <= |MappedText(text)| && tokens[i].len > 0
        && Slice(MappedText(text), tokens[i]) == Mapped(text[i]))
    && (forall i :: 0 <= i < |tokens| - 1 ==> tokens[i].start + tokens[i].len == tokens[i + 1].start)
    && (if tokens == [] then end == 0
        else tokens[0].start == 0 && tokens[|tokens| - 1].start + tokens[|tokens| - 1].len == end)
  }

  lemma SegmentMore(tokens: seq<View>, text: seq<Byte>, end: nat, size: nat)
    requires SegmentedTo(tokens, text, end) && |tokens| < |text| && 0 < size && end + size <= |MappedText(text)|
    requires Slice(MappedText(text), View(end, size)) == Mapped(text[|tokens|])
    ensures SegmentedTo(tokens + [View(end, size)], text, end + size)
  {
    hide Slice, Mapped, MappedText;
  }

  lemma SegmentedAll(tokens: seq<View>, text: seq<Byte>)
    requires SegmentedTo(tokens, text, |MappedText(text)|) && |tokens| == |text|
    ensures Tiles(tokens, MappedText(text)) && Parts(tokens, MappedText(text)) == Characters(text)
  {
    hide Mapped, Slice;
  }

  lemma EndOfText(text: seq<Byte>, j: nat)
    requires j <= |text|
    ensures |MappedText(text[..j])| <= |MappedText(text)|
    ensures |MappedText(text[..j])| == |MappedText(text)| <==> j == |text|
  {
    if j < |text| { CharacterAt(text, j); } else { assert text[..j] == text; }
  }

  /** Splits the replaced text into characters by their first bytes: one view per input byte. */
  method Segment(replaced: seq<Byte>, ghost text: seq<Byte>) returns (tokens: seq<View>)
    requires replaced == MappedText(text)
    ensures |tokens| == |text| && forall i :: 0 <= i < |tokens| ==> tokens[i].len > 0
    ensures Tiles(tokens, replaced) && Parts(tokens, replaced) == Characters(text)
  {
    tokens := [];
    var i := 0;
    assert text[..0] == [];
    assert SegmentedTo(tokens, text, 0);
    hide SegmentedTo, Parts, Tiles, Mapped, MappedText, Slice, Characters, UseNBytes;
    ghost var j := 0;
    while i < |replaced|
      invariant |tokens| == j <= |text| && i == |MappedText(text[..j])|
      invariant SegmentedTo(tokens, text, i)
      decreases |replaced| - i
    {
      EndOfText(text, j);
      CharacterAt(text, j);
      var size := UseNBytes(replaced[i]);
      SegmentMore(tokens, text, i, size);
      tokens := tokens + [View(i, size)];
      i := i + size;
      j := j + 1;
    }
    EndOfText(text, j);
    SegmentedAll(tokens, text);
    SegmentsNonEmpty(tokens, text, i);
  }

  lemma SegmentsNonEmpty(tokens: seq<View>, text: seq<Byte>, end: nat)
    requires SegmentedTo(tokens, text, end)
    ensures forall i :: 0 <= i < |tokens| ==> tokens[i].len > 0
  {
  }

  lemma {:induction false} LiveAll(tokens: seq<View>, n: nat)
    requires n <= |tokens| && forall i :: 0 <= i < |tokens| ==> tokens[i].len > 0
    ensures Live(tokens, 0, n) == tokens[..n]
  {
    if n > 0 { LiveAll(tokens, n - 1); }
  }

  /** The merge loop: every round is one step of list merging on the non-empty views, and shortens
      that list by one. */
  method MergeAll(initial: seq<View>, text: seq<Byte>, rank: seq<Byte> -> int) returns (tokens: seq<View>)
    requires initial != [] && initial[0].len > 0
    requires Tiles(Live(initial, 0, |initial|), text)
    ensures Tiles(Live(tokens, 0, |tokens|), text)
    ensures Parts(Live(tokens, 0, |tokens|), text) == ListBpe(Parts(Live(initial, 0, |initial|), text), rank)
  {
    hide Live, Parts, Tiles, Neighbours, Best, MergeAt;
    tokens := initial;
    var changed := true;
    while changed
      invariant |tokens| == |initial| && tokens[0].len > 0
      invariant Tiles(Live(tokens, 0, |tokens|), text)
      invariant ListBpe(Parts(Live(tokens, 0, |tokens|), text), rank)
        == ListBpe(Parts(Live(initial, 0, |initial|), text), rank)
      invariant !changed ==>
        ListBpe(Parts(Live(tokens, 0, |tokens|), text), rank) == Parts(Live(tokens, 0, |tokens|), text)
      decreases |Live(tokens, 0, |tokens|)|, changed
    {
      var found, ls, rs := FindBestPair(tokens, text, rank);
      ghost var parts := Parts(Live(tokens, 0, |tokens|), text);
      ghost var b := Best(parts, rank, Pairs(parts));
      changed := found;
      if found {
        RoundIsOneMerge(tokens, text, ls, rs, b);
        var left, right := tokens[ls], tokens[rs];
        tokens := tokens[ls := View(left.start, left.len + right.len)];
        tokens := tokens[rs := View(0, 0)];
      }
    }
  }

  lemma RoundIsOneMerge(tokens: seq<View>, text: seq<Byte>, ls: nat, rs: nat, b: nat)
    requires Tiles(Live(tokens, 0, |tokens|), text) && Neighbours(tokens, ls, rs, b)
    requires tokens[0].len > 0
    ensures ls < rs < |tokens|
    ensures var live, live' := Live(tokens, 0, |tokens|), Live(MergeViews(tokens, ls, rs), 0, |tokens|);
      && b + 1 < |live| && |live'| + 1 == |live|
      && Tiles(live', text)
      && Parts(live', text) == MergeAt(Parts(live, text), b)
    ensures MergeViews(tokens, ls, rs)[0].len > 0
  {
    var live, live' := Live(tokens, 0, |tokens|), Live(MergeViews(tokens, ls, rs), 0, |tokens|);
    hide Live, Parts, Tiles, MergeAt, Joined;
    MergeViewsLive(tokens, ls, rs, b);
    MergeViewsTiles(live, live', text, b);
    MergeViewsParts(live, live', text, b);
  }

  method EraseEmpty(tokens: seq<View>) returns (live: seq<View>)
    ensures live == Live(tokens, 0, |tokens|)
  {
    live := [];
    for i := 0 to |tokens|
      invariant live == Live(tokens, 0, i)
    {
      if tokens[i].len > 0 {
        live := live + [tokens[i]];
      }
    }
  }

  /** Looks up the id of every view. */
  method LookUp(live: seq<View>, text: seq<Byte>, tokenId: seq<Byte> -> int) returns (ids: seq<int>)
    requires Tiles(live, text)
    ensures |ids| == |live| && forall i :: 0 <= i < |ids| ==> ids[i] == tokenId(Parts(live, text)[i])
  {
    ids := [];
    for i := 0 to |live|
      invariant |ids| == i && forall j :: 0 <= j < i ==> ids[j] == tokenId(Parts(live, text)[j])
    {
      ids := ids + [tokenId(text[live[i].start..live[i].start + live[i].len])];
    }
  }

  /** The encoder yields the ids of the parts textbook merging leaves of the text's characters. */
  method Encode(text: seq<Byte>, rank: seq<Byte> -> int, tokenId: seq<Byte> -> int) returns (ids: seq<int>)
    ensures var parts := ListBpe(Characters(text), rank);
      |ids| == |parts| && forall i :: 0 <= i < |ids| ==> ids[i] == tokenId(parts[i])
  {
    if |text| == 0 {
      return [];
    }
    var replaced := Replace(text);
    var tokens := Segment(replaced, text);
    LiveAll(tokens, |tokens|);
    assert tokens[..|tokens|] == tokens;
    hide ListBpe, Live, Tiles, Parts, MappedText;
    tokens := MergeAll(tokens, replaced, rank);
    tokens := EraseEmpty(tokens);
    ids := LookUp(tokens, replaced, tokenId);
  }

  lemma {:induction false} CharactersSpellText(text: seq<Byte>)
    ensures Concat(Characters(text)) == MappedText(text)
  {
    if text != [] {
      var n := |text| - 1;
      CharactersSpellText(text[..n]);
      assert Characters(text)[..n] == Characters(text[..n]);
    }
  }

  /** The parts behind the ids spell the mapped text, and no two neighbours could still merge. */
  lemma EncodedPartsSpellText(text: seq<Byte>, rank: seq<Byte> -> int)
    ensures var parts := ListBpe(Characters(text), rank);
      && Concat(parts) == MappedText(text) && |parts| <= |text|
      && forall j: nat :: j < Pairs(parts) ==> PairRank(parts, rank, j) == -1
  {
    CharactersSpellText(text);
    ListBpeResult(Characters(text), rank);
  }

  /** The last byte of a mapped character tells its length. */
  lemma MappedLast(b: Byte)
    ensures |Mapped(b)| == 2 <==> Mapped(b)[|Mapped(b)| - 1] >= 128
  {
    PairHalves(CodePoint(b));
  }

  lemma MappedInjective(a: Byte, b: Byte)
    requires Mapped(a) == Mapped(b)
    ensures a == b
  {
    PairHalves(CodePoint(a));
    PairHalves(CodePoint(b));
    assert Mapped(a)[0] == Mapped(b)[0];
    if |Mapped(a)| == 2 { assert Mapped(a)[1] == Mapped(b)[1]; }
    ByteToUnicodeInjective(a, b);
  }

  lemma SameTail<T>(x: seq<T>, s: seq<T>, y: seq<T>, t: seq<T>)
    requires x + s == y + t && |s| == |t|
    ensures x == y && s == t
  {
    assert x == (x + s)[..|x|] && y == (y + t)[..|y|];
    assert s == (x + s)[|x|..] && t == (y + t)[|y|..];
  }

  lemma {:induction false} MappedTextInjective(a: seq<Byte>, b: seq<Byte>)
    requires MappedText(a) == MappedText(b)
    ensures a == b
  {
    if a != [] && b != [] {
      var m, n := |a| - 1, |b| - 1;
      MappedLast(a[m]);
      MappedLast(b[n]);
      hide Mapped;
      var t := MappedText(a);
      assert t[|t| - 1] == Mapped(a[m])[|Mapped(a[m])| - 1];
      assert t[|t| - 1] == Mapped(b[n])[|Mapped(b[n])| - 1];
      SameTail(MappedText(a[..m]), Mapped(a[m]), MappedText(b[..n]), Mapped(b[n]));
      MappedInjective(a[m], b[n]);
      MappedTextInjective(a[..m], b[..n]);
      assert a == a[..m] + [a[m]] && b == b[..n] + [b[n]];
    }
  }

  /** Encoding loses nothing: whatever the merge ranks, two texts with the same tokens are the same text. */
  lemma EncodedPartsDetermineText(a: seq<Byte>, b: seq<Byte>, rank: seq<Byte> -> int)
    requires ListBpe(Characters(a), rank) == ListBpe(Characters(b), rank)
    ensures a == b
  {
    EncodedPartsSpellText(a, rank);
    EncodedPartsSpellText(b, rank);
    MappedTextInjective(a, b);
  }
}
