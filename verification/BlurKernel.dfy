/** The separable Gaussian of blur_kernel.h, over exact reals: planning the resampling chain,
    and folding whole-pixel Gaussian samples pairwise into bilinear taps. */
module BlurKernel {

  const MAX_RADIUS: nat := 32
  const MAX_TAP_COUNT: nat := 1 + 2 * ((MAX_RADIUS + 1) / 2)
  const MAX_LEVELS: nat := 5
  const COARSE_SIGMA: real := 2.0
  const RADIUS_IN_SIGMAS: real := 3.0

  datatype Tap = Tap(displacement: real, weight: real)

  function Ceil(x: real): (r: int)
    ensures r as real - 1.0 < x <= r as real
  {
    if x == x.Floor as real then x.Floor else x.Floor + 1
  }

  // ----- planning the chain

  function Pow2(n: nat): (r: real)
    ensures r >= 1.0
  {
    if n == 0 then 1.0 else 2.0 * Pow2(n - 1)
  }

  function Pow4(n: nat): (r: real)
    ensures r >= 1.0
  {
    if n == 0 then 1.0 else 4.0 * Pow4(n - 1)
  }

  lemma {:induction false} Pow4IsSquare(n: nat)
    ensures Pow4(n) == Pow2(n) * Pow2(n)
  {
    if n > 0 {
      Pow4IsSquare(n - 1);
      var p := Pow2(n - 1);
      assert (2.0 * p) * (2.0 * p) == 4.0 * (p * p);
    }
  }

  /** The variance that `levels` halvings and expansions add by themselves. */
  ghost function ChainVariance(levels: nat): real {
    if levels == 0 then 0.0 else ChainVariance(levels - 1) + Pow4(levels - 1)
  }

  lemma {:induction false} ChainVarianceClosed(levels: nat)
    ensures 3.0 * ChainVariance(levels) == Pow4(levels) - 1.0
  {
    if levels > 0 { ChainVarianceClosed(levels - 1); }
  }

  /** What `std::sqrt` promises. */
  ghost predicate IsSqrt(sqrt: real -> real) {
    forall v: real :: v >= 0.0 ==> sqrt(v) >= 0.0 && sqrt(v) * sqrt(v) == v
  }

  lemma MulLe(a: real, b: real, c: real)
    requires a <= b && c >= 0.0
    ensures a * c <= b * c
  {
    assert (b - a) * c >= 0.0;
  }

  lemma MulLess(a: real, b: real, c: real)
    requires a < b && c > 0.0
    ensures a * c < b * c
  {
    assert (b - a) * c > 0.0;
  }

  lemma SquareLe(a: real, b: real)
    requires 0.0 <= a <= b
    ensures a * a <= b * b
  {
    MulLe(a, b, a);
    MulLe(a, b, b);
  }

  lemma SquareLess(a: real, b: real)
    requires 0.0 <= a < b
    ensures a * a < b * b
  {
    var d := b - a;
    assert d * (a + b) > 0.0;
    assert b * b == a * a + d * (a + b);
  }

  lemma Scaled(sigma: real, p: real)
    requires p > 0.0
    ensures sigma / p >= COARSE_SIGMA <==> sigma >= COARSE_SIGMA * p
  {
    var q := sigma / p;
    assert sigma == q * p;
    if q >= COARSE_SIGMA { MulLe(COARSE_SIGMA, q, p); } else { MulLess(q, COARSE_SIGMA, p); }
  }

  /** The first loop of `PlanBlur`: the last level that leaves at least COARSE_SIGMA. */
  method Levels(sigma: real) returns (levels: nat)
    ensures levels <= MAX_LEVELS
    ensures forall n: nat :: 0 < n <= levels ==> sigma >= COARSE_SIGMA * Pow2(n)
    ensures levels < MAX_LEVELS ==> sigma < COARSE_SIGMA * Pow2(levels + 1)
  {
    levels := 0;
    while levels < MAX_LEVELS && sigma / Pow2(levels + 1) >= COARSE_SIGMA
      invariant levels <= MAX_LEVELS
      invariant forall n: nat :: 0 < n <= levels ==> sigma >= COARSE_SIGMA * Pow2(n)
    {
      Scaled(sigma, Pow2(levels + 1));
      levels := levels + 1;
    }
    Scaled(sigma, Pow2(levels + 1));
  }

  /** The second loop of `PlanBlur`: 4^levels. */
  method Scale(levels: nat) returns (scale: real)
    ensures scale == Pow4(levels) && scale >= 1.0
  {
    scale := 1.0;
    for i := 0 to levels
      invariant scale == Pow4(i) && scale >= 1.0
    {
      scale := scale * 4.0;
    }
  }

  /** Halving stops at the last level that leaves at least COARSE_SIGMA, and the variance of
      the chain is taken out again: the chain never makes a blur stronger or weaker. */
  method PlanBlur(sigma: real, sqrt: real -> real) returns (levels: nat, coarse: real)
    requires IsSqrt(sqrt)
    ensures levels <= MAX_LEVELS
    ensures forall n: nat :: 0 < n <= levels ==> sigma >= COARSE_SIGMA * Pow2(n)
    ensures levels < MAX_LEVELS ==> sigma < COARSE_SIGMA * Pow2(levels + 1)
    ensures coarse >= 0.0 && Pow4(levels) * (coarse * coarse) + ChainVariance(levels) == sigma * sigma
    ensures coarse >= COARSE_SIGMA <==> 3.0 * (sigma * sigma) >= 13.0 * Pow4(levels) - 1.0
  {
    levels := Levels(sigma);
    var scale := Scale(levels);
    RoomForChain(sigma, levels);
    coarse := Remainder(sigma * sigma, levels, scale, sqrt);
  }

  method Remainder(variance: real, ghost levels: nat, scale: real, sqrt: real -> real) returns (coarse: real)
    requires IsSqrt(sqrt) && scale == Pow4(levels) && variance >= ChainVariance(levels)
    ensures coarse >= 0.0 && scale * (coarse * coarse) + ChainVariance(levels) == variance
    ensures coarse >= COARSE_SIGMA <==> 3.0 * variance >= 13.0 * scale - 1.0
  {
    ChainVarianceClosed(levels);
    var resample := (scale - 1.0) / 3.0;
    var left := variance - resample;
    Quotient(left, scale);
    coarse := sqrt((if left > 0.0 then left else 0.0) / scale);
    AtLeastFour(scale, resample, left / scale, variance);
    AtLeastTwo(coarse);
  }

  lemma Quotient(a: real, scale: real)
    requires a >= 0.0 && scale >= 1.0
    ensures a / scale >= 0.0 && scale * (a / scale) == a
  {
    var q := a / scale;
    assert q * scale == a;
  }

  /** The clamp to a non-negative variance never bites. */
  lemma RoomForChain(sigma: real, levels: nat)
    requires levels > 0 ==> sigma >= COARSE_SIGMA * Pow2(levels)
    ensures sigma * sigma >= ChainVariance(levels)
  {
    if levels == 0 {
      SquareNonNegative(sigma);
    } else {
      ChainVarianceClosed(levels);
      Pow4IsSquare(levels);
      ChainBelow(sigma, Pow2(levels));
    }
  }

  lemma SquareNonNegative(a: real)
    ensures a * a >= 0.0
  {
  }

  lemma ChainBelow(sigma: real, p: real)
    requires p >= 1.0 && sigma >= 2.0 * p
    ensures sigma * sigma >= 4.0 * (p * p) && p * p >= 1.0
  {
    SquareLe(2.0 * p, sigma);
    SquareLe(1.0, p);
  }

  lemma ChainAbove(sigma: real, p: real)
    requires p >= 1.0 && 0.0 <= sigma < 4.0 * p
    ensures sigma * sigma < 16.0 * (p * p)
  {
    SquareLess(sigma, 4.0 * p);
  }

  /** What is left to the Gaussian below full resolution: more than 11/3 of variance, and for
      a chain that stopped by itself less than 16. */
  lemma CoarseRange(sigma: real, levels: nat, coarse: real)
    requires levels > 0 && sigma >= COARSE_SIGMA * Pow2(levels)
    requires Pow4(levels) * (coarse * coarse) + ChainVariance(levels) == sigma * sigma
    ensures coarse * coarse > 11.0 / 3.0
    ensures sigma < COARSE_SIGMA * Pow2(levels + 1) ==> coarse * coarse < 16.0
  {
    ChainVarianceClosed(levels);
    Pow4IsSquare(levels);
    ChainBelow(sigma, Pow2(levels));
    if sigma < COARSE_SIGMA * Pow2(levels + 1) { ChainAbove(sigma, Pow2(levels)); }
    Between(Pow4(levels), coarse * coarse, sigma * sigma);
  }

  lemma Between(q: real, c: real, v: real)
    requires q >= 1.0 && 3.0 * (q * c) + q - 1.0 == 3.0 * v && v >= 4.0 * q
    ensures c > 11.0 / 3.0
    ensures v < 16.0 * q ==> c < 16.0
  {
    if c <= 11.0 / 3.0 { MulLe(c, 11.0 / 3.0, q); }
    if c >= 16.0 { MulLe(16.0, c, q); }
  }

  /** The square of the remainder keeps to that of COARSE_SIGMA if and only if the requested
      variance is at least (13 * 4^levels - 1) / 3: the loop tests sigma before the chain is
      taken out. */
  lemma RemainderExact(levels: nat, scale: real, square: real, variance: real)
    requires scale == Pow4(levels) && scale * square + ChainVariance(levels) == variance
    ensures square >= COARSE_SIGMA * COARSE_SIGMA <==> 3.0 * variance >= 13.0 * scale - 1.0
  {
    ChainVarianceClosed(levels);
    AtLeastFour(scale, ChainVariance(levels), square, variance);
  }

  lemma AtLeastTwo(c: real)
    requires c >= 0.0
    ensures c >= 2.0 <==> c * c >= 4.0
  {
    if c >= 2.0 { SquareLe(2.0, c); } else { SquareLess(c, 2.0); }
  }

  lemma AtLeastFour(q: real, chain: real, c: real, v: real)
    requires q >= 1.0 && 3.0 * chain == q - 1.0 && q * c + chain == v
    ensures c >= 4.0 <==> 3.0 * v >= 13.0 * q - 1.0
  {
    if c >= 4.0 { MulLe(4.0, c, q); } else { MulLess(c, 4.0, q); }
  }

  /** So it falls below for a sigma of 4, which the loop accepts. */
  lemma RemainderBelowCoarse(coarse: real)
    requires Pow4(1) * (coarse * coarse) + ChainVariance(1) == 4.0 * 4.0
    ensures COARSE_SIGMA * Pow2(1) <= 4.0 < COARSE_SIGMA * Pow2(2) && coarse < COARSE_SIGMA
  {
    assert Pow2(1) == 2.0 && ChainVariance(1) == 1.0;
    assert coarse * coarse == 3.75;
    if coarse >= 2.0 { SquareLe(2.0, coarse); }
  }

  // ----- the taps

  function Clamped(sigma: real): (r: real)
    ensures 1.0 / RADIUS_IN_SIGMAS <= r <= MAX_RADIUS as real / RADIUS_IN_SIGMAS
  {
    var least, most := 1.0 / RADIUS_IN_SIGMAS, MAX_RADIUS as real / RADIUS_IN_SIGMAS;
    if sigma < least then least else if most < sigma then most else sigma
  }

  /** The reach of the kernel: three sigmas, at least one pixel and at most MAX_RADIUS. */
  function Radius(sigma: real): (r: nat)
    ensures 1 <= r <= MAX_RADIUS
    ensures r as real - 1.0 < RADIUS_IN_SIGMAS * Clamped(sigma) <= r as real
  {
    Ceil(Clamped(sigma) * RADIUS_IN_SIGMAS)
  }

  /** The whole-pixel samples of the Gaussian, from the centre outwards. */
  ghost function Weights(sigma: real, gauss: real -> real): seq<real> {
    seq(Radius(sigma) + 1, i requires 0 <= i => gauss(i as real / Clamped(sigma)))
  }

  ghost predicate Positive(gauss: real -> real) {
    forall d: real :: gauss(d) > 0.0
  }

  ghost predicate AllPositive(w: seq<real>) {
    |w| > 0 && forall i :: 0 <= i < |w| ==> w[i] > 0.0
  }

  /** The mass of the samples at distance less than `n`, on both sides. */
  ghost function Mass(w: seq<real>, n: nat): (r: real)
    requires n <= |w|
  {
    if n == 0 then 0.0 else Mass(w, n - 1) + if n == 1 then w[0] else 2.0 * w[n - 1]
  }

  lemma {:induction false} MassPositive(w: seq<real>, n: nat)
    requires AllPositive(w) && 1 <= n <= |w|
    ensures Mass(w, n) > 0.0
  {
    if n > 1 { MassPositive(w, n - 1); }
  }

  ghost function Total(w: seq<real>): real {
    Mass(w, |w|)
  }

  function Abs(k: int): nat {
    if k < 0 then -k else k
  }

  /** The normalised whole-pixel kernel. */
  ghost function Kernel(w: seq<real>, k: int): real
    requires Total(w) > 0.0
  {
    if Abs(k) < |w| then w[Abs(k)] / Total(w) else 0.0
  }

  ghost function Sum(g: int -> real, lo: int, hi: int): real
    decreases hi - lo
  {
    if lo >= hi then 0.0 else g(lo) + Sum(g, lo + 1, hi)
  }

  ghost function Term(w: seq<real>, f: int -> real, x: int): int -> real
    requires Total(w) > 0.0
  {
    k => Kernel(w, k) * f(x + k)
  }

  /** Direct convolution of the signal `f` around `x` with the whole-pixel kernel. */
  ghost function Convolution(w: seq<real>, f: int -> real, x: int): real
    requires Total(w) > 0.0
  {
    Sum(Term(w, f, x), 1 - |w|, |w|)
  }

  /** What a bilinear sampler returns between whole pixels. */
  ghost function Bilinear(f: int -> real, p: real): real {
    var t := p - p.Floor as real;
    (1.0 - t) * f(p.Floor) + t * f(p.Floor + 1)
  }

  ghost function TapTotal(taps: seq<Tap>, h: Tap -> real): real {
    if taps == [] then 0.0 else h(taps[0]) + TapTotal(taps[1..], h)
  }

  ghost function Fetch(f: int -> real, x: int): Tap -> real {
    (t: Tap) => t.weight * Bilinear(f, x as real + t.displacement)
  }

  /** The taps applied to the signal `f` around `x`, one bilinear fetch each. */
  ghost function TapSum(taps: seq<Tap>, f: int -> real, x: int): real {
    TapTotal(taps, Fetch(f, x))
  }

  ghost function WeightSum(taps: seq<Tap>): real {
    TapTotal(taps, (t: Tap) => t.weight)
  }

  /** The two taps that stand for the samples `i` and `i + 1` on either side. */
  ghost function PairAt(w: seq<real>, total: real, i: nat): (Tap, Tap)
    requires i < |w| && AllPositive(w) && total > 0.0
  {
    var mass := w[i] + if i + 1 < |w| then w[i + 1] else 0.0;
    var displacement := i as real + if i + 1 < |w| then w[i + 1] / mass else 0.0;
    (Tap(displacement, mass / total), Tap(-displacement, mass / total))
  }

  ghost function Pairs(w: seq<real>, total: real, i: nat): seq<Tap>
    requires AllPositive(w) && total > 0.0
    decreases |w| - i
  {
    if i >= |w| then [] else [PairAt(w, total, i).0, PairAt(w, total, i).1] + Pairs(w, total, i + 2)
  }

  ghost function Folded(w: seq<real>): seq<Tap>
    requires AllPositive(w)
  {
    MassPositive(w, |w|);
    [Tap(0.0, w[0] / Total(w))] + Pairs(w, Total(w), 1)
  }

  // ----- folding is exact

  lemma FloorOf(n: int, t: real)
    requires 0.0 <= t < 1.0
    ensures (n as real + t).Floor == n
  {
  }

  lemma BilinearAt(f: int -> real, n: int, t: real)
    requires 0.0 <= t < 1.0
    ensures Bilinear(f, n as real + t) == (1.0 - t) * f(n) + t * f(n + 1)
  {
    FloorOf(n, t);
  }

  /** One fetch between two pixels carries both their masses. */
  lemma Split(a: real, b: real, total: real, u: real, v: real)
    requires a > 0.0 && b > 0.0 && total > 0.0
    ensures 0.0 < b / (a + b) < 1.0
    ensures (a + b) / total * ((1.0 - b / (a + b)) * u + b / (a + b) * v) == a / total * u + b / total * v
  {
    var q := b / (a + b);
    assert q * (a + b) == b;
    if q >= 1.0 { MulLe(1.0, q, a + b); }
    if q <= 0.0 { MulLe(q, 0.0, a + b); }
    var s := (a + b) / total;
    assert s * q == b / total by {
      assert s * total == a + b;
      assert (s * q) * total == b;
    }
    assert s * (1.0 - q) == a / total by {
      assert a / total + b / total == s;
    }
    assert s * ((1.0 - q) * u + q * v) == (s * (1.0 - q)) * u + (s * q) * v;
  }

  /** The values at distance `i` and beyond, both sides together. */
  ghost function Sides(g: int -> real, n: int, i: int): real
    decreases n - i
  {
    if i >= n then 0.0 else g(i) + g(-i) + Sides(g, n, i + 1)
  }

  lemma {:induction false} SumLast(g: int -> real, lo: int, hi: int)
    requires lo <= hi
    ensures Sum(g, lo, hi + 1) == Sum(g, lo, hi) + g(hi)
    decreases hi - lo
  {
    if lo < hi { SumLast(g, lo + 1, hi); }
  }

  /** A window of reach `m` and what lies beyond it make up the whole. */
  lemma {:induction false} Rings(g: int -> real, n: int, m: int)
    requires 0 <= m < n
    ensures Sum(g, -m, m + 1) + Sides(g, n, m + 1) == g(0) + Sides(g, n, 1)
  {
    if m == 0 {
      assert Sum(g, 1, 1) == 0.0;
    } else {
      Rings(g, n, m - 1);
      SumLast(g, -m, m);
    }
  }

  lemma TwoTaps(a: Tap, b: Tap, rest: seq<Tap>, h: Tap -> real)
    ensures TapTotal([a, b] + rest, h) == h(a) + h(b) + TapTotal(rest, h)
  {
    assert ([a, b] + rest)[1..] == [b] + rest && ([b] + rest)[1..] == rest;
  }

  /** Whatever `h` reads off the taps, if each pair reads as its four samples under `g`, all
      pairs together read as all the samples. */
  lemma {:induction false} PairsTotal(w: seq<real>, total: real, h: Tap -> real, g: int -> real, i: int)
    requires AllPositive(w) && total > 0.0 && 1 <= i && g(|w|) == g(-|w|) == 0.0
    requires forall j: int {:trigger PairAt(w, total, j)} :: 1 <= j < |w| ==>
      h(PairAt(w, total, j).0) + h(PairAt(w, total, j).1) == g(j) + g(j + 1) + g(-j) + g(-j - 1)
    ensures TapTotal(Pairs(w, total, i), h) == Sides(g, |w|, i)
    decreases |w| - i
  {
    if i < |w| {
      var p := PairAt(w, total, i);
      TwoTaps(p.0, p.1, Pairs(w, total, i + 2), h);
      PairsTotal(w, total, h, g, i + 2);
    }
  }

  lemma FoldedTotal(w: seq<real>, h: Tap -> real, g: int -> real)
    requires AllPositive(w) && Total(w) > 0.0 && g(|w|) == g(-|w|) == 0.0
    requires forall j: int {:trigger PairAt(w, Total(w), j)} :: 1 <= j < |w| ==>
      h(PairAt(w, Total(w), j).0) + h(PairAt(w, Total(w), j).1) == g(j) + g(j + 1) + g(-j) + g(-j - 1)
    requires h(Tap(0.0, w[0] / Total(w))) == g(0)
    ensures TapTotal(Folded(w), h) == Sum(g, 1 - |w|, |w|)
  {
    PairsTotal(w, Total(w), h, g, 1);
    Rings(g, |w|, |w| - 1);
    var rest := Pairs(w, Total(w), 1);
    assert ([Tap(0.0, w[0] / Total(w))] + rest)[1..] == rest;
  }

  /** The tap to the right of the centre. */
  lemma RightTap(w: seq<real>, f: int -> real, x: int, i: int)
    requires AllPositive(w) && 1 <= i < |w| && Total(w) > 0.0
    ensures var t := PairAt(w, Total(w), i).0;
      t.weight * Bilinear(f, x as real + t.displacement) == Kernel(w, i) * f(x + i) + Kernel(w, i + 1) * f(x + i + 1)
  {
    if i + 1 < |w| {
      var a, b := w[i], w[i + 1];
      var q := b / (a + b);
      Split(a, b, Total(w), f(x + i), f(x + i + 1));
      BilinearAt(f, x + i, q);
      assert x as real + (i as real + q) == (x + i) as real + q;
    } else {
      BilinearAt(f, x + i, 0.0);
      assert x as real + (i as real + 0.0) == (x + i) as real + 0.0;
    }
  }

  /** And its mirror image. */
  lemma LeftTap(w: seq<real>, f: int -> real, x: int, i: int)
    requires AllPositive(w) && 1 <= i < |w| && Total(w) > 0.0
    ensures var t := PairAt(w, Total(w), i).1;
      t.weight * Bilinear(f, x as real + t.displacement) == Kernel(w, -i) * f(x - i) + Kernel(w, -i - 1) * f(x - i - 1)
  {
    if i + 1 < |w| {
      var a, b := w[i], w[i + 1];
      var q := b / (a + b);
      Split(a, b, Total(w), f(x - i), f(x - i - 1));
      BilinearAt(f, x - i - 1, 1.0 - q);
      assert x as real + -(i as real + q) == (x - i - 1) as real + (1.0 - q);
    } else {
      BilinearAt(f, x - i, 0.0);
      assert x as real + -(i as real + 0.0) == (x - i) as real + 0.0;
    }
  }

  lemma RightReads(w: seq<real>, f: int -> real, x: int, j: int)
    requires AllPositive(w) && 1 <= j < |w| && Total(w) > 0.0
    ensures Fetch(f, x)(PairAt(w, Total(w), j).0) == Term(w, f, x)(j) + Term(w, f, x)(j + 1)
  {
    RightTap(w, f, x, j);
  }

  lemma LeftReads(w: seq<real>, f: int -> real, x: int, j: int)
    requires AllPositive(w) && 1 <= j < |w| && Total(w) > 0.0
    ensures Fetch(f, x)(PairAt(w, Total(w), j).1) == Term(w, f, x)(-j) + Term(w, f, x)(-j - 1)
  {
    LeftTap(w, f, x, j);
    assert x + -j == x - j && x + (-j - 1) == x - j - 1;
  }

  lemma CentreReads(w: seq<real>, f: int -> real, x: int)
    requires AllPositive(w) && Total(w) > 0.0
    ensures Fetch(f, x)(Tap(0.0, w[0] / Total(w))) == Term(w, f, x)(0)
    ensures Term(w, f, x)(|w|) == Term(w, f, x)(-|w|) == 0.0
  {
    BilinearAt(f, x, 0.0);
  }

  /** Folding is exact: for every signal the folded taps, sampled bilinearly, give the direct
      convolution with the normalised whole-pixel weights. */
  lemma FoldingExact(w: seq<real>, f: int -> real, x: int)
    requires AllPositive(w)
    ensures Total(w) > 0.0 && TapSum(Folded(w), f, x) == Convolution(w, f, x)
  {
    MassPositive(w, |w|);
    forall j: int {:trigger PairAt(w, Total(w), j)} | 1 <= j < |w|
      ensures var h, g := Fetch(f, x), Term(w, f, x);
        h(PairAt(w, Total(w), j).0) + h(PairAt(w, Total(w), j).1) == g(j) + g(j + 1) + g(-j) + g(-j - 1)
    {
      RightReads(w, f, x, j);
      LeftReads(w, f, x, j);
    }
    CentreReads(w, f, x);
    FoldedTotal(w, Fetch(f, x), Term(w, f, x));
  }

  lemma Distribute(s: real, a: real, b: real, c: real, d: real)
    requires s == a + b + c
    ensures s * d == a * d + b * d + c * d
  {
    assert (a + b + c) * d == a * d + b * d + c * d;
  }

  lemma {:induction false} KernelMass(w: seq<real>, g: int -> real, total: real, n: int) returns (s: real)
    requires 1 <= n <= |w|
    requires forall k :: -|w| < k < |w| ==> g(k) * total == w[Abs(k)]
    ensures s == Sum(g, 1 - n, n) && s * total == Mass(w, n)
  {
    var a, b := g(n - 1), g(1 - n);
    assert a * total == w[n - 1] && b * total == w[n - 1];
    if n == 1 {
      assert Sum(g, 1, 1) == 0.0;
      s := a;
    } else {
      var inner := KernelMass(w, g, total, n - 1);
      SumLast(g, 1 - n, n - 1);
      s := b + inner + a;
      assert s == Sum(g, 1 - n, n);
      Distribute(s, b, inner, a, total);
    }
  }

  ghost function Normal(w: seq<real>, total: real): int -> real
    requires total > 0.0
  {
    k => if Abs(k) < |w| then w[Abs(k)] / total else 0.0
  }

  lemma PairWeighs(w: seq<real>, total: real, j: int)
    requires AllPositive(w) && 1 <= j < |w| && total > 0.0
    ensures var g := Normal(w, total);
      PairAt(w, total, j).0.weight + PairAt(w, total, j).1.weight == g(j) + g(j + 1) + g(-j) + g(-j - 1)
  {
    if j + 1 < |w| { AddQuotients(w[j], w[j + 1], total); }
  }

  lemma NormalMass(w: seq<real>, total: real)
    requires total == Total(w) > 0.0 && |w| > 0
    ensures Sum(Normal(w, total), 1 - |w|, |w|) == 1.0
  {
    var g := Normal(w, total);
    forall k | -|w| < k < |w| ensures g(k) * total == w[Abs(k)] {
      assert g(k) == w[Abs(k)] / total;
    }
    var s := KernelMass(w, g, total, |w|);
    Cancel(s, total, Mass(w, |w|));
  }

  /** The taps are normalised. */
  lemma TapsNormalised(w: seq<real>)
    requires AllPositive(w)
    ensures WeightSum(Folded(w)) == 1.0
  {
    MassPositive(w, |w|);
    var total, h := Total(w), (t: Tap) => t.weight;
    var g := Normal(w, total);
    forall j: int {:trigger PairAt(w, total, j)} | 1 <= j < |w|
      ensures h(PairAt(w, total, j).0) + h(PairAt(w, total, j).1) == g(j) + g(j + 1) + g(-j) + g(-j - 1)
    {
      PairWeighs(w, total, j);
    }
    FoldedTotal(w, h, g);
    NormalMass(w, total);
  }

  lemma AddQuotients(a: real, b: real, c: real)
    requires c > 0.0
    ensures (a + b) / c == a / c + b / c
  {
  }

  lemma Cancel(a: real, c: real, d: real)
    requires c > 0.0 && a * c == d == c
    ensures a == 1.0
  {
    assert (a - 1.0) * c == 0.0;
  }

  ghost predicate TapOk(t: Tap, radius: nat) {
    t.weight > 0.0 && -(radius as real) <= t.displacement <= radius as real
  }

  /** How many taps, and within what bounds. */
  ghost function Twos(n: int): nat {
    if n <= 0 then 0 else 2 + Twos(n - 2)
  }

  lemma {:induction false} TwosIs(n: int)
    ensures Twos(n) == if n > 0 then 2 * ((n + 1) / 2) else 0
  {
    if n > 0 { TwosIs(n - 2); }
  }

  lemma PairsCons(w: seq<real>, total: real, i: nat)
    requires AllPositive(w) && total > 0.0 && i < |w|
    ensures |Pairs(w, total, i)| == 2 + |Pairs(w, total, i + 2)|
  {
  }

  lemma {:induction false} PairsTwos(w: seq<real>, total: real, i: nat)
    requires AllPositive(w) && total > 0.0
    ensures |Pairs(w, total, i)| == Twos(|w| - i)
    decreases |w| - i
  {
    if i < |w| {
      PairsTwos(w, total, i + 2);
      PairsCons(w, total, i);
    }
  }

  lemma PairsCount(w: seq<real>, total: real, i: nat)
    requires AllPositive(w) && total > 0.0
    ensures |Pairs(w, total, i)| == if i < |w| then 2 * ((|w| - i + 1) / 2) else 0
  {
    PairsTwos(w, total, i);
    TwosIs(|w| - i);
  }

  lemma {:induction false} PairsOk(w: seq<real>, total: real, i: nat)
    requires AllPositive(w) && total > 0.0 && 1 <= i
    ensures AllTapsOk(Pairs(w, total, i), |w| - 1)
    decreases |w| - i
  {
    if i < |w| {
      PairsOk(w, total, i + 2);
      PairOk(w, total, i);
      ConsOk(PairAt(w, total, i).0, PairAt(w, total, i).1, Pairs(w, total, i + 2), |w| - 1);
    }
  }

  ghost predicate AllTapsOk(taps: seq<Tap>, radius: nat) {
    forall k :: 0 <= k < |taps| ==> TapOk(taps[k], radius)
  }

  lemma ConsOk(a: Tap, b: Tap, rest: seq<Tap>, radius: nat)
    requires TapOk(a, radius) && TapOk(b, radius) && AllTapsOk(rest, radius)
    ensures AllTapsOk([a, b] + rest, radius)
  {
    forall k | 0 <= k < |[a, b] + rest| ensures TapOk(([a, b] + rest)[k], radius) {
      if k >= 2 { assert ([a, b] + rest)[k] == rest[k - 2]; }
    }
  }

  lemma PairOk(w: seq<real>, total: real, i: nat)
    requires AllPositive(w) && total > 0.0 && 1 <= i < |w|
    ensures TapOk(PairAt(w, total, i).0, |w| - 1) && TapOk(PairAt(w, total, i).1, |w| - 1)
    ensures PairAt(w, total, i).0.displacement as real >= i as real
    ensures i + 1 < |w| ==> i as real < PairAt(w, total, i).0.displacement < (i + 1) as real
  {
    var mass := w[i] + if i + 1 < |w| then w[i + 1] else 0.0;
    if i + 1 < |w| { Split(w[i], w[i + 1], total, 0.0, 0.0); }
    PositiveQuotient(mass, total);
  }

  lemma PositiveQuotient(a: real, b: real)
    requires a > 0.0 && b > 0.0
    ensures a / b > 0.0
  {
    var q := a / b;
    assert q * b == a;
    if q <= 0.0 { MulLe(q, 0.0, b); }
  }

  lemma FoldedShape(w: seq<real>)
    requires AllPositive(w)
    ensures |Folded(w)| == 1 + 2 * (|w| / 2)
    ensures forall k :: 0 <= k < |Folded(w)| ==> TapOk(Folded(w)[k], |w| - 1)
  {
    MassPositive(w, |w|);
    PairsCount(w, Total(w), 1);
    PairsOk(w, Total(w), 1);
    PositiveQuotient(w[0], Total(w));
  }

  // ----- the builder

  lemma WeightsPositive(sigma: real, gauss: real -> real)
    requires Positive(gauss)
    ensures AllPositive(Weights(sigma, gauss)) && |Weights(sigma, gauss)| == Radius(sigma) + 1
  {
  }

  /** The first loop of `BuildBlurTaps`: the samples and their mass. */
  method SampleGaussian(sigma: real, gauss: real -> real, radius: nat, weights: array<real>) returns (total: real)
    requires Positive(gauss) && radius == Radius(sigma) && weights.Length == MAX_RADIUS + 1
    modifies weights
    ensures weights[..radius + 1] == Weights(sigma, gauss) && total == Total(Weights(sigma, gauss))
  {
    ghost var w := Weights(sigma, gauss);
    total := 0.0;
    var i := 0;
    while i <= radius
      invariant i <= radius + 1 && weights[..i] == w[..i] && total == Mass(w, i)
    {
      weights[i] := gauss(i as real / Clamped(sigma));
      total := total + if i == 0 then weights[0] else 2.0 * weights[i];
      assert weights[i] == w[i];
      assert weights[..i + 1] == weights[..i] + [weights[i]];
      i := i + 1;
    }
    assert w[..radius + 1] == w;
  }

  /** The second loop of `BuildBlurTaps`. */
  method FoldPairs(ghost w: seq<real>, weights: array<real>, radius: nat, total: real) returns (taps: seq<Tap>)
    requires radius < weights.Length && weights[..radius + 1] == w && AllPositive(w) && total == Total(w) > 0.0
    ensures taps == Folded(w)
  {
    assert forall k :: 0 <= k <= radius ==> weights[k] == w[k];
    taps := [Tap(0.0, weights[0] / total)];
    var i := 1;
    while i <= radius
      invariant 1 <= i && taps + Pairs(w, total, i) == Folded(w)
    {
      var paired := i + 1 <= radius;
      var mass := weights[i] + if paired then weights[i + 1] else 0.0;
      var displacement := i as real + if paired then weights[i + 1] / mass else 0.0;
      ghost var before := taps;
      taps := taps + [Tap(displacement, mass / total)];
      taps := taps + [Tap(-displacement, mass / total)];
      assert taps == before + [PairAt(w, total, i).0, PairAt(w, total, i).1];
      assert before + Pairs(w, total, i) == taps + Pairs(w, total, i + 2);
      i := i + 2;
    }
  }

  /** For every sigma and every positive bell: the taps are few enough for the shader, sum to
      one, and convolve every signal as the whole-pixel kernel does. */
  method BuildBlurTaps(sigma: real, gauss: real -> real) returns (taps: seq<Tap>)
    requires Positive(gauss)
    ensures |taps| == 1 + 2 * ((Radius(sigma) + 1) / 2) <= MAX_TAP_COUNT
    ensures forall k :: 0 <= k < |taps| ==> TapOk(taps[k], Radius(sigma))
    ensures WeightSum(taps) == 1.0 && Total(Weights(sigma, gauss)) > 0.0
    ensures AllPositive(Weights(sigma, gauss)) && taps == Folded(Weights(sigma, gauss))
    ensures forall f: int -> real, x: int :: TapSum(taps, f, x) == Convolution(Weights(sigma, gauss), f, x)
  {
    ghost var w := Weights(sigma, gauss);
    WeightsPositive(sigma, gauss);
    MassPositive(w, |w|);
    var radius := Ceil(Clamped(sigma) * RADIUS_IN_SIGMAS);
    if radius > MAX_RADIUS { radius := MAX_RADIUS; }
    var weights := new real[MAX_RADIUS + 1](_ => 0.0);
    var total := SampleGaussian(sigma, gauss, radius, weights);
    taps := FoldPairs(w, weights, radius, total);
    FoldedShape(w);
    TapsNormalised(w);
    forall f: int -> real, x: int ensures TapSum(taps, f, x) == Convolution(w, f, x) {
      FoldingExact(w, f, x);
    }
  }
}
