/** Real vectors, the squared L2 distance and the dot product.
    The two methods keep the eight accumulators of the source; the functions are the plain sums. */
module Vectors {

  type Vec = seq<real>

  function Square(t: real): (r: real)
    ensures r >= 0.0
  {
    t * t
  }

  /** Sum of the first n squared differences. */
  function SqDistUpTo(x: Vec, y: Vec, n: nat): (r: real)
    requires n <= |x| == |y|
    ensures r >= 0.0
  {
    if n == 0 then 0.0 else SqDistUpTo(x, y, n - 1) + Square(x[n - 1] - y[n - 1])
  }

  function SqDist(x: Vec, y: Vec): (r: real)
    requires |x| == |y|
    ensures r >= 0.0
  {
    SqDistUpTo(x, y, |x|)
  }

  /** Sum of the first n products. */
  function DotUpTo(x: Vec, y: Vec, n: nat): real
    requires n <= |x| == |y|
  {
    if n == 0 then 0.0 else DotUpTo(x, y, n - 1) + x[n - 1] * y[n - 1]
  }

  function Dot(x: Vec, y: Vec): real
    requires |x| == |y|
  {
    DotUpTo(x, y, |x|)
  }

  lemma SqDistSymmetricUpTo(x: Vec, y: Vec, n: nat)
    requires n <= |x| == |y|
    ensures SqDistUpTo(x, y, n) == SqDistUpTo(y, x, n)
  {
    if n > 0 {
      SqDistSymmetricUpTo(x, y, n - 1);
      assert Square(x[n - 1] - y[n - 1]) == Square(y[n - 1] - x[n - 1]);
    }
  }

  lemma {:induction false} SqDistSymmetric(x: Vec, y: Vec)
    requires |x| == |y|
    ensures SqDist(x, y) == SqDist(y, x)
  {
    SqDistSymmetricUpTo(x, y, |x|);
  }

  /** The eight-lane loop with its scalar tail computes the plain sum of squared differences. */
  method SquaredL2Distance(x: Vec, y: Vec) returns (dist: real)
    requires |x| == |y|
    ensures dist == SqDist(x, y)
  {
    var i := 0;
    var xy0, xy1, xy2, xy3, xy4, xy5, xy6, xy7 := 0.0, 0.0, 0.0, 0.0, 0.0, 0.0, 0.0, 0.0;
    while i + 7 < |x|
      invariant 0 <= i <= |x|
      invariant xy0 + xy1 + xy2 + xy3 + xy4 + xy5 + xy6 + xy7 == SqDistUpTo(x, y, i)
    {
      SqDistEightMore(x, y, i);
      xy0 := Square(x[i] - y[i]) + xy0;
      xy1 := Square(x[i + 1] - y[i + 1]) + xy1;
      xy2 := Square(x[i + 2] - y[i + 2]) + xy2;
      xy3 := Square(x[i + 3] - y[i + 3]) + xy3;
      xy4 := Square(x[i + 4] - y[i + 4]) + xy4;
      xy5 := Square(x[i + 5] - y[i + 5]) + xy5;
      xy6 := Square(x[i + 6] - y[i + 6]) + xy6;
      xy7 := Square(x[i + 7] - y[i + 7]) + xy7;
      i := i + 8;
    }
    dist := ((xy0 + xy4) + (xy1 + xy5)) + ((xy2 + xy6) + (xy3 + xy7));
    while i < |x|
      invariant 0 <= i <= |x|
      invariant dist == SqDistUpTo(x, y, i)
    {
      dist := Square(x[i] - y[i]) + dist;
      i := i + 1;
    }
  }

  lemma SqDistEightMore(x: Vec, y: Vec, i: nat)
    requires i + 8 <= |x| == |y|
    ensures SqDistUpTo(x, y, i + 8) == SqDistUpTo(x, y, i)
      + Square(x[i] - y[i]) + Square(x[i + 1] - y[i + 1])
      + Square(x[i + 2] - y[i + 2]) + Square(x[i + 3] - y[i + 3])
      + Square(x[i + 4] - y[i + 4]) + Square(x[i + 5] - y[i + 5])
      + Square(x[i + 6] - y[i + 6]) + Square(x[i + 7] - y[i + 7])
  {
    assert SqDistUpTo(x, y, i + 4) == SqDistUpTo(x, y, i)
      + Square(x[i] - y[i]) + Square(x[i + 1] - y[i + 1])
      + Square(x[i + 2] - y[i + 2]) + Square(x[i + 3] - y[i + 3]) by {
      assert SqDistUpTo(x, y, i + 2) == SqDistUpTo(x, y, i) + Square(x[i] - y[i]) + Square(x[i + 1] - y[i + 1]);
    }
    assert SqDistUpTo(x, y, i + 6) == SqDistUpTo(x, y, i + 4)
      + Square(x[i + 4] - y[i + 4]) + Square(x[i + 5] - y[i + 5]);
  }

  function Times(s: real, t: real): real { s * t }

  lemma DotEightMore(x: Vec, y: Vec, i: nat)
    requires i + 8 <= |x| == |y|
    ensures DotUpTo(x, y, i + 8) == DotUpTo(x, y, i)
      + Times(x[i], y[i]) + Times(x[i + 1], y[i + 1]) + Times(x[i + 2], y[i + 2]) + Times(x[i + 3], y[i + 3])
      + Times(x[i + 4], y[i + 4]) + Times(x[i + 5], y[i + 5]) + Times(x[i + 6], y[i + 6]) + Times(x[i + 7], y[i + 7])
  {
    assert DotUpTo(x, y, i + 2) == DotUpTo(x, y, i) + Times(x[i], y[i]) + Times(x[i + 1], y[i + 1]);
    assert DotUpTo(x, y, i + 4) == DotUpTo(x, y, i + 2) + Times(x[i + 2], y[i + 2]) + Times(x[i + 3], y[i + 3]);
    assert DotUpTo(x, y, i + 6) == DotUpTo(x, y, i + 4) + Times(x[i + 4], y[i + 4]) + Times(x[i + 5], y[i + 5]);
  }

  /** The eight-lane dot product computes the plain sum of products. */
  method DotProductNaive(x: Vec, y: Vec) returns (dot: real)
    requires |x| == |y|
    ensures dot == Dot(x, y)
  {
    var i := 0;
    var xy0, xy1, xy2, xy3, xy4, xy5, xy6, xy7 := 0.0, 0.0, 0.0, 0.0, 0.0, 0.0, 0.0, 0.0;
    while i + 7 < |x|
      invariant 0 <= i <= |x|
      invariant xy0 + xy1 + xy2 + xy3 + xy4 + xy5 + xy6 + xy7 == DotUpTo(x, y, i)
    {
      DotEightMore(x, y, i);
      xy0 := Times(x[i], y[i]) + xy0;
      xy1 := Times(x[i + 1], y[i + 1]) + xy1;
      xy2 := Times(x[i + 2], y[i + 2]) + xy2;
      xy3 := Times(x[i + 3], y[i + 3]) + xy3;
      xy4 := Times(x[i + 4], y[i + 4]) + xy4;
      xy5 := Times(x[i + 5], y[i + 5]) + xy5;
      xy6 := Times(x[i + 6], y[i + 6]) + xy6;
      xy7 := Times(x[i + 7], y[i + 7]) + xy7;
      i := i + 8;
    }
    dot := ((xy0 + xy4) + (xy1 + xy5)) + ((xy2 + xy6) + (xy3 + xy7));
    while i < |x|
      invariant 0 <= i <= |x|
      invariant dot == DotUpTo(x, y, i)
    {
      dot := Times(x[i], y[i]) + dot;
      i := i + 1;
    }
  }

  lemma SqDistExpandsUpTo(x: Vec, y: Vec, n: nat)
    requires n <= |x| == |y|
    ensures SqDistUpTo(x, y, n) == DotUpTo(x, x, n) + DotUpTo(y, y, n) - 2.0 * DotUpTo(x, y, n)
  {
    if n > 0 {
      SqDistExpandsUpTo(x, y, n - 1);
      var s, t := x[n - 1], y[n - 1];
      assert Square(s - t) == s * s + t * t - 2.0 * (s * t);
    }
  }

  /** The distance on normalised vectors, computed from the dot product and clamped at zero. */
  method SquaredNormalizedL2Distance(x: Vec, y: Vec) returns (dist: real)
    requires |x| == |y|
    ensures dist >= 0.0
    ensures var d := SqDist(x, y) + 2.0 - Dot(x, x) - Dot(y, y); dist == if d <= 0.0 then 0.0 else d
    ensures Dot(x, x) == 1.0 && Dot(y, y) == 1.0 ==> dist == SqDist(x, y)
  {
    var dot := DotProductNaive(x, y);
    dist := 2.0 - 2.0 * dot;
    SqDistExpandsUpTo(x, y, |x|);
    if dist <= 0.0 {
      return 0.0;
    }
  }
}
