/** The page-pruning tests on squared distances, and what they say about the vectors of a page. */
module SphereBound {
  import opened Vectors

  /** Strict test used for squared distances: D and M are squared distances, W the squared worst kept one. */
  predicate Prune(d: real, m: real, w: real) {
    d > m && d + m > w && (d + m - w) * (d + m - w) > 4.0 * d * m
  }

  /** Test used for plain distances, and injected on squared ones by the legacy mode. */
  predicate PruneByDifference(d: real, m: real, w: real) {
    d - m > w
  }

  /** Sum over the first n coordinates of (q - a) * (v - a). */
  function CrossUpTo(q: Vec, a: Vec, v: Vec, n: nat): real
    requires n <= |q| == |a| == |v|
  {
    if n == 0 then 0.0 else CrossUpTo(q, a, v, n - 1) + (q[n - 1] - a[n - 1]) * (v[n - 1] - a[n - 1])
  }

  lemma {:induction false} CosineLaw(q: Vec, a: Vec, v: Vec, n: nat)
    requires n <= |q| == |a| == |v|
    ensures SqDistUpTo(q, v, n) == SqDistUpTo(q, a, n) + SqDistUpTo(v, a, n) - 2.0 * CrossUpTo(q, a, v, n)
  {
    if n > 0 {
      CosineLaw(q, a, v, n - 1);
      var s, t := q[n - 1] - a[n - 1], v[n - 1] - a[n - 1];
      assert q[n - 1] - v[n - 1] == s - t;
      assert Square(s - t) == Square(s) + Square(t) - 2.0 * (s * t);
    }
  }

  lemma SquareMonotone(x: real, y: real)
    requires y >= 0.0
    requires x * x <= y * y
    ensures x <= y
  {
    assert x * x - y * y == (x - y) * (x + y);
    if x > y { ProductPositive(x - y, x + y); }
  }

  lemma ProductNonNegative(x: real, y: real)
    requires x >= 0.0 && y >= 0.0
    ensures x * y >= 0.0
  {
  }

  /** One step of Cauchy-Schwarz: twice the mixed term is at most the sum of the two cross terms. */
  lemma MixedTerm(c: real, d: real, r: real, s: real, t: real)
    requires d >= 0.0 && r >= 0.0
    requires c * c <= d * r
    ensures 2.0 * c * (s * t) <= d * (t * t) + r * (s * s)
  {
    var x, y := d * (t * t), r * (s * s);
    assert x >= 0.0 by { ProductNonNegative(d, t * t); }
    assert y >= 0.0 by { ProductNonNegative(r, s * s); }
    var z := c * (s * t);
    assert z * z <= x * y by {
      var p := (s * t) * (s * t);
      assert p >= 0.0;
      assert z * z == (c * c) * p;
      assert x * y == (d * r) * p;
      ProductNonNegative(d * r - c * c, p);
    }
    assert 4.0 * (x * y) <= (x + y) * (x + y) by { assert (x - y) * (x - y) >= 0.0; }
    assert (2.0 * z) * (2.0 * z) == 4.0 * (z * z);
    SquareMonotone(2.0 * z, x + y);
  }

  lemma Unfold(q: Vec, a: Vec, v: Vec, n: nat)
    requires n <= |q| == |a| == |v|
    ensures n == 0 ==> CrossUpTo(q, a, v, n) == SqDistUpTo(q, a, n) == SqDistUpTo(v, a, n) == 0.0
    ensures n > 0 ==>
      var s, t := q[n - 1] - a[n - 1], v[n - 1] - a[n - 1];
      && CrossUpTo(q, a, v, n) == CrossUpTo(q, a, v, n - 1) + Times(s, t)
      && SqDistUpTo(q, a, n) == SqDistUpTo(q, a, n - 1) + Times(s, s)
      && SqDistUpTo(v, a, n) == SqDistUpTo(v, a, n - 1) + Times(t, t)
  {
  }

  ghost predicate CrossBounded(c: real, d: real, r: real) {
    c * c <= d * r
  }

  lemma {:induction false} CauchySchwarz(q: Vec, a: Vec, v: Vec, n: nat)
    requires n <= |q| == |a| == |v|
    ensures CrossBounded(CrossUpTo(q, a, v, n), SqDistUpTo(q, a, n), SqDistUpTo(v, a, n))
  {
    assert CrossBounded(0.0, 0.0, 0.0);
    hide SqDistUpTo, CrossUpTo, Times, CrossBounded;
    Unfold(q, a, v, n);
    if n > 0 {
      CauchySchwarz(q, a, v, n - 1);
      var c, d, r := CrossUpTo(q, a, v, n - 1), SqDistUpTo(q, a, n - 1), SqDistUpTo(v, a, n - 1);
      CauchySchwarzStep(c, d, r, q[n - 1] - a[n - 1], v[n - 1] - a[n - 1]);
    }
  }

  lemma CauchySchwarzStep(c: real, d: real, r: real, s: real, t: real)
    requires d >= 0.0 && r >= 0.0
    requires CrossBounded(c, d, r)
    ensures CrossBounded(c + Times(s, t), d + Times(s, s), r + Times(t, t))
  {
    MixedTerm(c, d, r, s, t);
    var p, ss, tt := s * t, s * s, t * t;
    SquareOfSum(c, p);
    SquareOfProduct(s, t);
    assert 2.0 * c * p == 2.0 * (c * p);
    assert (d + ss) * (r + tt) == d * r + d * tt + r * ss + ss * tt;
  }

  lemma PruneNeedsFarQuery(d: real, m: real, w: real)
    requires 0.0 <= m < d <= w < d + m
    ensures (d + m - w) * (d + m - w) <= 4.0 * d * m
  {
    SquareOfSmaller(d + m - w, m);
    ProductNonNegative(d - m, m);
    assert (d - m) * m == d * m - m * m;
    assert 4.0 * d * m == 4.0 * (d * m);
  }

  /** The prune test gets easier to pass as the radius shrinks. */
  lemma PruneShrinkingRadius(d: real, m: real, r: real, w: real)
    requires 0.0 <= r <= m && w >= 0.0
    requires Prune(d, m, w)
    ensures Prune(d, r, w) && d > w
  {
    if w >= d { PruneNeedsFarQuery(d, m, w); }
    // g(x) = (d + x - w)^2 - 4dx falls on [0, d + w]
    PruneQuadratic(d, r, w);
    PruneQuadratic(d, m, w);
    var e := d + w;
    assert (m - r) * (2.0 * e - m - r) == r * r - 2.0 * (r * e) - (m * m - 2.0 * (m * e));
    ProductNonNegative(m - r, 2.0 * e - m - r);
  }

  lemma PruneQuadratic(d: real, x: real, w: real)
    ensures (d + x - w) * (d + x - w) - 4.0 * d * x == x * x - 2.0 * (x * (d + w)) + (d - w) * (d - w)
  {
    var u := d - w;
    assert (u + x) * (u + x) == u * u + 2.0 * (u * x) + x * x;
    assert x * (d + w) == x * u + 2.0 * (x * w);
    assert 4.0 * d * x == 4.0 * (x * u) + 4.0 * (x * w);
  }

  lemma SquareOfSmaller(x: real, y: real)
    requires 0.0 <= x <= y
    ensures x * x <= y * y
  {
    assert x * x <= x * y <= y * y;
  }

  lemma PrunedBeyond(d: real, m: real, r: real, c: real, w: real, s: real)
    requires c * c <= d * r
    requires 0.0 <= r <= m && w >= 0.0
    requires Prune(d, m, w)
    requires s == d + r - 2.0 * c
    ensures s > w
  {
    PruneShrinkingRadius(d, m, r, w);
    var x, y := d + r - w, 2.0 * c;
    assert y * y == 4.0 * (c * c);
    assert 4.0 * d * r == 4.0 * (d * r);
    if y >= x { SquareOfSmaller(x, y); }
  }

  /** Soundness in any dimension: whatever the test prunes is strictly farther than the worst kept
      distance, even when the stored radius over-estimates the true one. */
  lemma SphereBoundSound(q: Vec, a: Vec, v: Vec, m: real, w: real)
    requires |q| == |a| == |v|
    requires SqDist(v, a) <= m && w >= 0.0
    requires Prune(SqDist(q, a), m, w)
    ensures SqDist(q, v) > w
  {
    hide SqDistUpTo, CrossUpTo, Square;
    CosineLaw(q, a, v, |q|);
    CauchySchwarz(q, a, v, |q|);
    var d, r, c, s := SqDist(q, a), SqDist(v, a), CrossUpTo(q, a, v, |q|), SqDist(q, v);
    PrunedBeyond(d, m, r, c, w, s);
  }

  /** On true distances d, radius m and worst w the squared test is exactly d - m > w. */
  lemma PruneOnSquares(d: real, m: real, w: real)
    requires d >= 0.0 && m >= 0.0 && w >= 0.0
    ensures Prune(d * d, m * m, w * w) <==> PruneByDifference(d, m, w)
  {
    var s := d * d + m * m - w * w;
    var p := 2.0 * (d * m);
    assert p >= 0.0 by { ProductNonNegative(d, m); }
    assert s - p == (d - m) * (d - m) - w * w;
    FourProducts(d, m);
    DifferenceOfSquares(s, p);
    if PruneByDifference(d, m, w) {
      assert (d - m) * (d - m) > w * w by { StrictSquares(w, d - m); }
      assert s > p;
      assert d * d > m * m by { StrictSquares(m, d); }
      assert (s - p) * (s + p) > 0.0 by { ProductPositive(s - p, s + p); }
    }
    if Prune(d * d, m * m, w * w) {
      assert s > 0.0 && s * s > p * p;
      if s <= p { SquareOfSmaller(s, p); assert false; }
      assert (d - m) * (d - m) > w * w;
      if d <= m { SquareOfSmaller(d, m); assert false; }
      if d - m <= w { SquareOfSmaller(d - m, w); assert false; }
    }
  }

  lemma FourProducts(d: real, m: real)
    ensures 4.0 * (d * d) * (m * m) == (2.0 * (d * m)) * (2.0 * (d * m))
  {
    var p := d * m;
    assert p * p == (d * d) * (m * m);
  }

  lemma SquareOfSum(x: real, y: real)
    ensures (x + y) * (x + y) == x * x + 2.0 * (x * y) + y * y
  {
  }

  lemma SquareOfProduct(x: real, y: real)
    ensures (x * y) * (x * y) == (x * x) * (y * y)
  {
  }

  lemma DifferenceOfSquares(x: real, y: real)
    ensures x * x - y * y == (x - y) * (x + y)
  {
  }

  lemma ProductPositive(x: real, y: real)
    requires x > 0.0 && y > 0.0
    ensures x * y > 0.0
  {
  }

  lemma StrictSquares(x: real, y: real)
    requires 0.0 <= x < y
    ensures x * x < y * y
  {
    ProductPositive(y - x, y + x);
    assert y * y - x * x == (y - x) * (y + x);
  }

  /** Every vector a page of squared radius at most mm could hold lies beyond ww from every query at
      squared anchor distance dd. */
  ghost predicate AllBeyond(dd: real, mm: real, ww: real) {
    forall q: Vec, a: Vec, v: Vec ::
      |q| == |a| && |a| == |v| && SqDist(q, a) == dd && SqDist(v, a) <= mm ==> SqDist(q, v) > ww
  }

  lemma DistOnALine(x: real, y: real)
    ensures SqDist([x], [y]) == (x - y) * (x - y)
  {
    assert SqDistUpTo([x], [y], 1) == SqDistUpTo([x], [y], 0) + Square(x - y);
  }

  /** Exactness: the test prunes a page if and only if no vector the page could hold is within w.
      It never drops a needed page, and no sound test on these three numbers prunes more. */
  lemma SphereBoundExact(d: real, m: real, w: real)
    requires d >= 0.0 && m >= 0.0 && w >= 0.0
    ensures Prune(d * d, m * m, w * w) <==> AllBeyond(d * d, m * m, w * w)
  {
    PruneOnSquares(d, m, w);
    if Prune(d * d, m * m, w * w) {
      PruneImpliesBeyond(d * d, m * m, w * w);
    } else {
      NearestPossibleMember(d, m, w);
    }
  }

  lemma PruneImpliesBeyond(dd: real, mm: real, ww: real)
    requires ww >= 0.0 && Prune(dd, mm, ww)
    ensures AllBeyond(dd, mm, ww)
  {
    hide SqDistUpTo, Square;
    forall q: Vec, a: Vec, v: Vec
      | |q| == |a| && |a| == |v| && SqDist(q, a) == dd && SqDist(v, a) <= mm
      ensures SqDist(q, v) > ww
    {
      SphereBoundSound(q, a, v, mm, ww);
    }
  }

  /** The closest possible member sits on the segment from the anchor to the query. */
  lemma NearestPossibleMember(d: real, m: real, w: real)
    requires d >= 0.0 && m >= 0.0 && w >= 0.0 && d - m <= w
    ensures !AllBeyond(d * d, m * m, w * w)
  {
    var t := if d <= m then d else m;
    var q, a, v := [d], [0.0], [t];
    DistOnALine(d, 0.0);
    DistOnALine(t, 0.0);
    DistOnALine(d, t);
    SquareOfSmaller(t, m);
    SquareOfSmaller(d - t, w);
    hide SqDist, Square;
    assert SqDist(q, a) == d * d && SqDist(v, a) <= m * m && SqDist(q, v) <= w * w;
  }

  /** Whether the legacy shortcut, the difference test on squared values, loses nothing at this bound. */
  ghost predicate LegacySafe(d: real, m: real, w: real) {
    PruneByDifference(d * d, m * m, w * w) ==> AllBeyond(d * d, m * m, w * w)
  }

  lemma LegacyFiresWheneverExactDoes(d: real, m: real, w: real)
    requires d >= 0.0 && m >= 0.0 && w >= 0.0
    requires Prune(d * d, m * m, w * w)
    ensures PruneByDifference(d * d, m * m, w * w)
  {
    PruneOnSquares(d, m, w);
    StrictSquares(w, d - m);
    ProductNonNegative(m, d - m);
    assert d * d - m * m == (d - m) * (d - m) + 2.0 * (m * (d - m));
  }

  lemma LegacyOnEmptyRange(d: real, m: real, w: real)
    requires d >= 0.0 && m >= 0.0 && w >= 0.0
    requires m == 0.0 || d <= m
    requires PruneByDifference(d * d, m * m, w * w)
    ensures PruneByDifference(d, m, w)
  {
    if d <= m { SquareOfSmaller(d, m); }
    if d <= w { SquareOfSmaller(d, w); }
    assert w * w >= 0.0;
  }

  lemma LegacyAtContact(d: real, m: real)
    requires m > 0.0 && d > m
    ensures PruneByDifference(d * d, m * m, (d - m) * (d - m))
  {
    ProductPositive(m, d - m);
    assert d * d - m * m == (d - m) * (d - m) + 2.0 * (m * (d - m));
  }

  /** The legacy shortcut is safe for every worst distance exactly where there is nothing to lose:
      on pages of radius zero and on pages whose sphere holds the query. */
  lemma LegacyIsMoreAggressive(d: real, m: real)
    requires d >= 0.0 && m >= 0.0
    ensures (forall w: real | w >= 0.0 :: LegacySafe(d, m, w)) <==> (m == 0.0 || d <= m)
  {
    if m == 0.0 || d <= m {
      forall w: real | w >= 0.0 ensures LegacySafe(d, m, w) {
        if PruneByDifference(d * d, m * m, w * w) {
          LegacyOnEmptyRange(d, m, w);
          PruneOnSquares(d, m, w);
          SphereBoundExact(d, m, w);
        }
      }
    } else {
      LegacyAtContact(d, m);
      PruneOnSquares(d, m, d - m);
      SphereBoundExact(d, m, d - m);
      assert !LegacySafe(d, m, d - m);
    }
  }

  /** The plain-distance test is sound for plain distances, stated on any non-negative roots. */
  lemma DifferenceBoundSound(q: Vec, a: Vec, v: Vec, d: real, m: real, w: real, dqv: real)
    requires |q| == |a| == |v|
    requires d >= 0.0 && m >= 0.0 && w >= 0.0 && dqv >= 0.0
    requires d * d == SqDist(q, a) && SqDist(v, a) <= m * m && dqv * dqv == SqDist(q, v)
    requires PruneByDifference(d, m, w)
    ensures dqv > w
  {
    PruneOnSquares(d, m, w);
    SphereBoundSound(q, a, v, m * m, w * w);
    if dqv <= w { SquareOfSmaller(dqv, w); }
  }
}
