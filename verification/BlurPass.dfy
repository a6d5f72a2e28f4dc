/** One convolution pass of the two blur backends, over exact reals and one colour channel of
    an opaque image: the GLES2 fragment shader sums its taps, the Vulkan pass draws them one
    over the other. */
module BlurPass {
  import opened BlurKernel

  datatype Texture = Texture(width: nat, height: nat, texel: (int, int) -> real)

  datatype FBox = FBox(x: real, y: real, width: real, height: real)

  datatype Box = Box(x: int, y: int, width: int, height: int)

  // ----- sampling

  /** Clamp to edge. */
  function ClampIndex(i: int, n: int): (r: int)
    requires n >= 1
    ensures 0 <= r < n
  {
    if i < 0 then 0 else if i >= n then n - 1 else i
  }

  function Mix(a: real, b: real, t: real): real {
    (1.0 - t) * a + t * b
  }

  /** A linear filter over a line of `n` texels, clamped to its edges; the centre of texel `i`
      is at `i`. */
  function Sampled(f: int -> real, n: int, u: real): real
    requires n >= 1
  {
    Mix(f(ClampIndex(u.Floor, n)), f(ClampIndex(u.Floor + 1, n)), u - u.Floor as real)
  }

  function Row(t: Texture, y: int): int -> real {
    x => t.texel(x, y)
  }

  function Column(t: Texture, x: int): int -> real {
    y => t.texel(x, y)
  }

  /** What a draw reads at a point of its source. */
  type Sampler = (real, real) -> real

  /** A bilinear filter over a texture. */
  function Sample(t: Texture, u: real, v: real): real
    requires t.width >= 1 && t.height >= 1
  {
    Mix(Sampled(Row(t, ClampIndex(v.Floor, t.height)), t.width, u),
        Sampled(Row(t, ClampIndex(v.Floor + 1, t.height)), t.width, u), v - v.Floor as real)
  }

  lemma SampleRow(t: Texture, u: real, y: int)
    requires t.width >= 1 && 0 <= y < t.height
    ensures Sample(t, u, y as real) == Sampled(Row(t, y), t.width, u)
  {
    assert (y as real).Floor == y;
  }

  lemma SampleColumn(t: Texture, x: int, v: real)
    requires 0 <= x < t.width && t.height >= 1
    ensures Sample(t, x as real, v) == Sampled(Column(t, x), t.height, v)
  {
    assert (x as real).Floor == x;
  }

  // ----- drawing

  predicate Inside(b: Box, x: int, y: int) {
    b.x <= x < b.x + b.width && b.y <= y < b.y + b.height
  }

  /** Where the centre of pixel `p` of a destination span falls in the source span. */
  function Mapped(from: real, length: real, to: int, size: int, p: int): real
    requires size > 0
  {
    from + ((p - to) as real + 0.5) * length / size as real - 0.5
  }

  function Source(src: FBox, dst: Box, s: Sampler, x: int, y: int): real
    requires dst.width > 0 && dst.height > 0
  {
    s(Mapped(src.x, src.width, dst.x, dst.width, x), Mapped(src.y, src.height, dst.y, dst.height, y))
  }

  /** `add_sample`: a textured box drawn over the canvas with constant alpha. */
  method AddSample(canvas: array2<real>, s: Sampler, src: FBox, dst: Box, alpha: real)
    requires 0 <= dst.x && 0 <= dst.y && dst.x + dst.width <= canvas.Length0 && dst.y + dst.height <= canvas.Length1
    modifies canvas
    ensures forall x, y :: 0 <= x < canvas.Length0 && 0 <= y < canvas.Length1 ==>
      canvas[x, y] == if Inside(dst, x, y) then Mix(old(canvas[x, y]), Source(src, dst, s, x, y), alpha)
        else old(canvas[x, y])
  {
    if dst.width <= 0 || dst.height <= 0 { return; }
    for y := dst.y to dst.y + dst.height
      invariant forall i, j :: 0 <= i < canvas.Length0 && 0 <= j < canvas.Length1 ==>
        canvas[i, j] == if Inside(dst, i, j) && j < y then Mix(old(canvas[i, j]), Source(src, dst, s, i, j), alpha)
          else old(canvas[i, j])
    {
      for x := dst.x to dst.x + dst.width
        invariant forall i, j :: 0 <= i < canvas.Length0 && 0 <= j < canvas.Length1 ==>
          canvas[i, j] == if Inside(dst, i, j) && (j < y || (j == y && i < x))
                          then Mix(old(canvas[i, j]), Source(src, dst, s, i, j), alpha) else old(canvas[i, j])
      {
        canvas[x, y] := Mix(canvas[x, y], Source(src, dst, s, x, y), alpha);
      }
    }
  }

  // ----- one shifted sample

  datatype Size = Size(width: int, height: int)

  function Magnitude(dim: int, shift: real): real {
    var m := if shift < 0.0 then -shift else shift;
    if m < dim as real then m else dim as real
  }

  /** How many pixels at the border take the stretched edge. */
  function Edge(dim: int, shift: real): (r: int)
    requires dim >= 1
    ensures 0 <= r <= dim && (shift != 0.0 ==> 1 <= r)
    ensures r as real - 1.0 < Magnitude(dim, shift) <= r as real
  {
    Ceil(Magnitude(dim, shift))
  }

  /** Where pixel `p` of a span of `dim` pixels samples the source. */
  ghost function Position(dim: int, shift: real, p: int): real
    requires dim >= 1
  {
    var magnitude, edge := Magnitude(dim, shift), Edge(dim, shift);
    if shift > 0.0 then
      if p < dim - edge then p as real + magnitude
      else (dim - 1) as real + (2 * (p - (dim - edge)) + 1 - edge) as real / (2 * edge) as real
    else if shift < 0.0 then
      if p >= edge then p as real - magnitude
      else (2 * p + 1 - edge) as real / (2 * edge) as real
    else p as real
  }

  ghost predicate Fits(canvas: array2<real>, size: Size) {
    1 <= size.width <= canvas.Length0 && 1 <= size.height <= canvas.Length1
  }

  ghost function Along(s: Sampler, size: Size, horizontal: bool, shift: real, x: int, y: int): real
    requires 1 <= size.width && 1 <= size.height
  {
    if horizontal then s(Position(size.width, shift, x), y as real)
    else s(x as real, Position(size.height, shift, y))
  }

  /** A pixel of the image gets one sample blended in, other pixels are left alone. */
  ghost function Shifted(s: Sampler, size: Size, horizontal: bool, shift: real, alpha: real, x: int, y: int,
      before: real): real
    requires 1 <= size.width && 1 <= size.height
  {
    if 0 <= x < size.width && 0 <= y < size.height then Mix(before, Along(s, size, horizontal, shift, x, y), alpha)
      else before
  }

  lemma UnitMap(from: real, to: int, n: int, p: int)
    requires n > 0
    ensures Mapped(from, n as real, to, n, p) == from + (p - to) as real
  {
    var a, m := (p - to) as real + 0.5, n as real;
    assert a * m / m == a;
  }

  lemma StretchMap(from: real, to: int, edge: int, p: int)
    requires edge > 0
    ensures Mapped(from, 1.0, to, edge, p) == from + (2 * (p - to) + 1 - edge) as real / (2 * edge) as real
  {
    var a, m := (p - to) as real, edge as real;
    var q := (a + 0.5) / m;
    assert (2 * (p - to) + 1 - edge) as real == 2.0 * a + 1.0 - m && (2 * edge) as real == 2.0 * m;
    HalfStep(a, m);
  }

  lemma HalfStep(a: real, m: real)
    requires m > 0.0
    ensures (a + 0.5) * 1.0 / m - 0.5 == (2.0 * a + 1.0 - m) / (2.0 * m)
  {
    var q := (a + 0.5) / m;
    assert q * m == a + 0.5;
    var r := (2.0 * a + 1.0 - m) / (2.0 * m);
    assert r * (2.0 * m) == 2.0 * a + 1.0 - m;
    ZeroFactor(r - (q - 0.5), 2.0 * m);
  }

  lemma ZeroFactor(a: real, b: real)
    requires b > 0.0 && a * b == 0.0
    ensures a == 0.0
  {
    if a > 0.0 { MulLess(0.0, a, b); }
    if a < 0.0 { MulLess(a, 0.0, b); }
  }

  /** A span drawn at its own size samples at the texel centres. */
  lemma Unstretched(n: int, p: int)
    requires n > 0
    ensures Mapped(0.0, n as real, 0, n, p) == p as real
  {
    UnitMap(0.0, 0, n, p);
  }

  /** Both boxes sample where `Position` says. */
  lemma SpanPosition(dim: int, shift: real, p: int)
    requires dim >= 1 && 0 <= p < dim && shift != 0.0
    ensures var magnitude, edge := Magnitude(dim, shift), Edge(dim, shift); var content := dim - edge;
      Position(dim, shift, p) ==
        if shift > 0.0 then
          if p < content then Mapped(magnitude, content as real, 0, content, p)
          else Mapped((dim - 1) as real, 1.0, content, edge, p)
        else
          if p >= edge then Mapped(edge as real - magnitude, content as real, edge, content, p)
          else Mapped(0.0, 1.0, 0, edge, p)
  {
    var magnitude, edge := Magnitude(dim, shift), Edge(dim, shift);
    var content := dim - edge;
    if shift > 0.0 {
      if p < content { UnitMap(magnitude, 0, content, p); } else { StretchMap((dim - 1) as real, content, edge, p); }
    } else {
      if p >= edge { UnitMap(edge as real - magnitude, edge, content, p); } else { StretchMap(0.0, 0, edge, p); }
    }
  }

  /** The shifted content and the stretched edge of a horizontal sample. */
  method DrawHorizontal(canvas: array2<real>, s: Sampler, size: Size, shift: real, alpha: real)
    requires Fits(canvas, size) && shift != 0.0
    modifies canvas
    ensures forall x, y :: 0 <= x < canvas.Length0 && 0 <= y < canvas.Length1 ==>
      canvas[x, y] == Shifted(s, size, true, shift, alpha, x, y, old(canvas[x, y]))
  {
    var magnitude := Magnitude(size.width, shift);
    var edge := Edge(size.width, shift);
    var content := size.width - edge;
    if shift > 0.0 {
      AddSample(canvas, s, FBox(magnitude, 0.0, content as real, size.height as real), Box(0, 0, content, size.height),
        alpha);
      AddSample(canvas, s, FBox((size.width - 1) as real, 0.0, 1.0, size.height as real),
        Box(content, 0, edge, size.height), alpha);
    } else {
      AddSample(canvas, s, FBox(edge as real - magnitude, 0.0, content as real, size.height as real),
        Box(edge, 0, content, size.height), alpha);
      AddSample(canvas, s, FBox(0.0, 0.0, 1.0, size.height as real), Box(0, 0, edge, size.height), alpha);
    }
    forall x, y | 0 <= x < canvas.Length0 && 0 <= y < canvas.Length1
      ensures canvas[x, y] == Shifted(s, size, true, shift, alpha, x, y, old(canvas[x, y]))
    {
      if 0 <= x < size.width && 0 <= y < size.height {
        Unstretched(size.height, y); SpanPosition(size.width, shift, x);
      }
    }
  }

  /** The shifted content and the stretched edge of a vertical sample. */
  method DrawVertical(canvas: array2<real>, s: Sampler, size: Size, shift: real, alpha: real)
    requires Fits(canvas, size) && shift != 0.0
    modifies canvas
    ensures forall x, y :: 0 <= x < canvas.Length0 && 0 <= y < canvas.Length1 ==>
      canvas[x, y] == Shifted(s, size, false, shift, alpha, x, y, old(canvas[x, y]))
  {
    var magnitude := Magnitude(size.height, shift);
    var edge := Edge(size.height, shift);
    var content := size.height - edge;
    if shift > 0.0 {
      AddSample(canvas, s, FBox(0.0, magnitude, size.width as real, content as real), Box(0, 0, size.width, content),
        alpha);
      AddSample(canvas, s, FBox(0.0, (size.height - 1) as real, size.width as real, 1.0),
        Box(0, content, size.width, edge), alpha);
    } else {
      AddSample(canvas, s, FBox(0.0, edge as real - magnitude, size.width as real, content as real),
        Box(0, edge, size.width, content), alpha);
      AddSample(canvas, s, FBox(0.0, 0.0, size.width as real, 1.0), Box(0, 0, size.width, edge), alpha);
    }
    forall x, y | 0 <= x < canvas.Length0 && 0 <= y < canvas.Length1
      ensures canvas[x, y] == Shifted(s, size, false, shift, alpha, x, y, old(canvas[x, y]))
    {
      if 0 <= x < size.width && 0 <= y < size.height {
        Unstretched(size.width, x); SpanPosition(size.height, shift, y);
      }
    }
  }

  /** `DrawShiftedSample`: the content box and the edge box cover every pixel of the image
      exactly once, whatever the shift. */
  method DrawShiftedSample(canvas: array2<real>, s: Sampler, size: Size, horizontal: bool, shift: real, alpha: real)
    requires Fits(canvas, size)
    modifies canvas
    ensures forall x, y :: 0 <= x < canvas.Length0 && 0 <= y < canvas.Length1 ==>
      canvas[x, y] == Shifted(s, size, horizontal, shift, alpha, x, y, old(canvas[x, y]))
  {
    if shift == 0.0 {
      AddSample(canvas, s, FBox(0.0, 0.0, size.width as real, size.height as real), Box(0, 0, size.width, size.height),
        alpha);
      forall x, y | 0 <= x < canvas.Length0 && 0 <= y < canvas.Length1
        ensures canvas[x, y] == Shifted(s, size, horizontal, shift, alpha, x, y, old(canvas[x, y]))
      {
        Unstretched(size.width, x);
        Unstretched(size.height, y);
      }
    } else if horizontal {
      DrawHorizontal(canvas, s, size, shift, alpha);
    } else {
      DrawVertical(canvas, s, size, shift, alpha);
    }
  }

  // ----- the pass

  /** The share of each tap when `line` gives what is seen at each displacement. */
  ghost function Reading(line: real -> real): Tap -> real {
    (t: Tap) => t.weight * line(t.displacement)
  }

  ghost function Seen(s: Sampler, size: Size, horizontal: bool, x: int, y: int): real -> real
    requires 1 <= size.width && 1 <= size.height
  {
    shift => Along(s, size, horizontal, shift, x, y)
  }

  /** The share of each tap in the finished pass. */
  ghost function Contribution(s: Sampler, size: Size, horizontal: bool, x: int, y: int): Tap -> real
    requires 1 <= size.width && 1 <= size.height
  {
    Reading(Seen(s, size, horizontal, x, y))
  }

  lemma {:induction false} TapTotalAppend(taps: seq<Tap>, last: Tap, h: Tap -> real)
    ensures TapTotal(taps + [last], h) == TapTotal(taps, h) + h(last)
  {
    if taps == [] {
      assert TapTotal([], h) == 0.0;
    } else {
      assert (taps + [last])[1..] == taps[1..] + [last];
      TapTotalAppend(taps[1..], last, h);
    }
  }

  /** Drawing over with alpha = weight / accumulated weight keeps the canvas a weighted mean. */
  lemma OverBlend(acc: real, weight: real, before: real, sample: real)
    requires acc >= 0.0 && weight > 0.0
    ensures Mix(before, sample, weight / (acc + weight)) * (acc + weight) == acc * before + weight * sample
  {
    var alpha := weight / (acc + weight);
    assert alpha * (acc + weight) == weight;
    var m := acc + weight;
    assert (1.0 - alpha) * m == acc;
    assert ((1.0 - alpha) * before + alpha * sample) * m == ((1.0 - alpha) * m) * before + (alpha * m) * sample;
  }

  ghost predicate IsMean(acc: real, value: real, total: real) {
    acc * value == total
  }

  /** Every pixel of the image, scaled by the weight so far, is the sum of the taps so far. */
  ghost predicate MeanOf(canvas: array2<real>, s: Sampler, size: Size, horizontal: bool, taps: seq<Tap>, acc: real)
    requires Fits(canvas, size)
    reads canvas
  {
    forall x, y :: 0 <= x < size.width && 0 <= y < size.height ==>
      IsMean(acc, canvas[x, y], TapTotal(taps, Contribution(s, size, horizontal, x, y)))
  }

  lemma BlendedTotal(done: seq<Tap>, tap: Tap, h: Tap -> real, sample: real, acc: real, next: real, before: real,
      after: real)
    requires acc >= 0.0 && tap.weight > 0.0 && next == acc + tap.weight && h(tap) == tap.weight * sample
    requires IsMean(acc, before, TapTotal(done, h)) && after == Mix(before, sample, tap.weight / next)
    ensures IsMean(next, after, TapTotal(done + [tap], h))
  {
    OverBlend(acc, tap.weight, before, sample);
    TapTotalAppend(done, tap, h);
  }

  method DrawTap(canvas: array2<real>, s: Sampler, size: Size, horizontal: bool, ghost done: seq<Tap>, tap: Tap,
      ghost acc: real, next: real)
    requires Fits(canvas, size) && acc >= 0.0 && tap.weight > 0.0 && next == acc + tap.weight
    requires MeanOf(canvas, s, size, horizontal, done, acc)
    modifies canvas
    ensures MeanOf(canvas, s, size, horizontal, done + [tap], next)
    ensures forall x, y ::
      0 <= x < canvas.Length0 && 0 <= y < canvas.Length1 && !(x < size.width && y < size.height) ==>
      canvas[x, y] == old(canvas[x, y])
  {
    var alpha := tap.weight / next;
    DrawShiftedSample(canvas, s, size, horizontal, tap.displacement, alpha);
    forall x, y | 0 <= x < size.width && 0 <= y < size.height
      ensures IsMean(next, canvas[x, y], TapTotal(done + [tap], Contribution(s, size, horizontal, x, y)))
    {
      BlendedTotal(done, tap, Contribution(s, size, horizontal, x, y),
                   Along(s, size, horizontal, tap.displacement, x, y), acc, next, old(canvas[x, y]), canvas[x, y]);
    }
  }

  lemma NextTap(taps: seq<Tap>, i: nat)
    requires i < |taps|
    ensures taps[..i + 1] == taps[..i] + [taps[i]] && WeightSum(taps[..i + 1]) == WeightSum(taps[..i]) + taps[i].weight
  {
    assert taps[..i + 1] == taps[..i] + [taps[i]];
    TapTotalAppend(taps[..i], taps[i], (t: Tap) => t.weight);
  }

  /** The loop of `DrawConvolution`. */
  method DrawTaps(canvas: array2<real>, s: Sampler, size: Size, horizontal: bool, taps: seq<Tap>)
    requires Fits(canvas, size) && MeanOf(canvas, s, size, horizontal, [], 0.0)
    requires forall i :: 0 <= i < |taps| ==> taps[i].weight > 0.0
    modifies canvas
    ensures MeanOf(canvas, s, size, horizontal, taps, WeightSum(taps))
    ensures forall x, y ::
      0 <= x < canvas.Length0 && 0 <= y < canvas.Length1 && !(x < size.width && y < size.height) ==>
      canvas[x, y] == old(canvas[x, y])
  {
    var acc := 0.0;
    assert taps[..0] == [];
    for i := 0 to |taps|
      invariant acc >= 0.0 && acc == WeightSum(taps[..i]) && MeanOf(canvas, s, size, horizontal, taps[..i], acc)
      invariant forall x, y ::
        0 <= x < canvas.Length0 && 0 <= y < canvas.Length1 && !(x < size.width && y < size.height) ==>
        canvas[x, y] == old(canvas[x, y])
    {
      NextTap(taps, i);
      ghost var before := acc;
      acc := acc + taps[i].weight;
      DrawTap(canvas, s, size, horizontal, taps[..i], taps[i], before, acc);
    }
    assert taps[..|taps|] == taps;
  }

  /** `DrawConvolution`: whatever the sampler, the taps drawn over each other add up to the
      weighted sum. */
  method DrawConvolution(canvas: array2<real>, s: Sampler, size: Size, sigma: real, gauss: real -> real,
      horizontal: bool)
    returns (taps: seq<Tap>)
    requires Fits(canvas, size) && Positive(gauss)
    modifies canvas
    ensures AllPositive(Weights(sigma, gauss)) && taps == Folded(Weights(sigma, gauss))
    ensures forall x, y :: 0 <= x < size.width && 0 <= y < size.height ==>
      canvas[x, y] == TapTotal(taps, Contribution(s, size, horizontal, x, y))
    ensures forall x, y ::
      0 <= x < canvas.Length0 && 0 <= y < canvas.Length1 && !(x < size.width && y < size.height) ==>
      canvas[x, y] == old(canvas[x, y])
  {
    Clear(canvas, s, size, horizontal);
    taps := BuildBlurTaps(sigma, gauss);
    assert forall i :: 0 <= i < |taps| ==> TapOk(taps[i], Radius(sigma));
    DrawTaps(canvas, s, size, horizontal, taps);
  }

  method Clear(canvas: array2<real>, ghost s: Sampler, size: Size, ghost horizontal: bool)
    requires Fits(canvas, size)
    modifies canvas
    ensures MeanOf(canvas, s, size, horizontal, [], 0.0)
    ensures forall x, y :: 0 <= x < canvas.Length0 && 0 <= y < canvas.Length1 ==>
      canvas[x, y] == if x < size.width && y < size.height then 0.0 else old(canvas[x, y])
  {
    forall x, y | 0 <= x < size.width && 0 <= y < size.height {
      canvas[x, y] := 0.0;
    }
  }

  // ----- against the shader

  lemma AtCentre(f: int -> real, n: int, i: int)
    requires 0 <= i < n
    ensures Sampled(f, n, i as real) == f(i)
  {
    assert (i as real).Floor == i;
  }

  lemma Between(f: int -> real, n: int, i: int, t: real)
    requires n >= 1 && 0.0 <= t < 1.0
    ensures Sampled(f, n, i as real + t) == Mix(f(ClampIndex(i, n)), f(ClampIndex(i + 1, n)), t)
  {
    FloorOf(i, t);
  }

  lemma PastEnd(f: int -> real, n: int, u: real)
    requires n >= 1 && u >= (n - 1) as real
    ensures Sampled(f, n, u) == f(n - 1)
  {
  }

  lemma BeforeStart(f: int -> real, n: int, u: real)
    requires n >= 1 && u <= 0.0
    ensures Sampled(f, n, u) == f(0)
  {
    if u == 0.0 { AtCentre(f, n, 0); }
  }

  /** Inside the image it does not matter how far the texture goes on. */
  lemma LongerLine(f: int -> real, dim: int, len: int, u: real)
    requires 1 <= dim <= len && 0.0 <= u <= (dim - 1) as real
    ensures Sampled(f, len, u) == Sampled(f, dim, u)
  {
    if u == (dim - 1) as real {
      AtCentre(f, len, dim - 1);
      AtCentre(f, dim, dim - 1);
    }
  }

  /** When the drawn sample of pixel `p` is the clamped sample of the shader: away from the
      border, and on the outer half of the stretched edge as long as no texel lies beyond. */
  predicate Exact(dim: int, len: int, shift: real, p: int)
    requires 1 <= dim
  {
    var edge := Edge(dim, shift);
    var j := p - (dim - edge);
    && (shift > 0.0 ==> j < 0 || 2 * j + 1 == edge || (2 * j + 1 > edge && len == dim))
    && (shift < 0.0 ==> 2 * p + 1 <= edge || p >= edge)
  }

  lemma Content(f: int -> real, dim: int, len: int, shift: real, p: int)
    requires 0 <= p < dim <= len
    requires (shift > 0.0 ==> p < dim - Edge(dim, shift)) && (shift < 0.0 ==> p >= Edge(dim, shift))
    ensures Sampled(f, len, Position(dim, shift, p)) == Sampled(f, dim, p as real + shift)
  {
    LongerLine(f, dim, len, p as real + shift);
  }

  lemma Fraction(c: int, e: int)
    requires e > 0 && -e < 2 * c < e
    ensures -0.5 < c as real / e as real < 0.5
    ensures (c < 0 <==> c as real / e as real < 0.0) && (c > 0 <==> c as real / e as real > 0.0)
  {
    var q, m, d := c as real / e as real, e as real, c as real;
    assert q * m == d;
    LessByProduct(q, 0.5, m);
    LessByProduct(-0.5, q, m);
    SignByProduct(q, m, d);
  }

  lemma LessByProduct(a: real, b: real, m: real)
    requires m > 0.0 && a * m < b * m
    ensures a < b
  {
    if a >= b { MulLe(b, a, m); }
  }

  lemma SignByProduct(q: real, m: real, d: real)
    requires m > 0.0 && q * m == d
    ensures (d < 0.0 <==> q < 0.0) && (d > 0.0 <==> q > 0.0)
  {
    if q > 0.0 { MulLess(0.0, q, m); }
    if q < 0.0 { MulLess(q, 0.0, m); }
  }

  lemma RightEdge(f: int -> real, dim: int, len: int, shift: real, p: int) returns (q: real)
    requires 0 <= p < dim <= len && shift > 0.0 && p >= dim - Edge(dim, shift)
    ensures var c := 2 * (p - (dim - Edge(dim, shift))) + 1 - Edge(dim, shift);
      -0.5 < q < 0.5 && (c < 0 <==> q < 0.0) && (c > 0 <==> q > 0.0)
    ensures q < 0.0 ==> dim >= 2 && Sampled(f, len, Position(dim, shift, p)) == Mix(f(dim - 2), f(dim - 1), 1.0 + q)
    ensures q >= 0.0 ==> Sampled(f, len, Position(dim, shift, p)) == Mix(f(dim - 1), f(ClampIndex(dim, len)), q)
    ensures Sampled(f, dim, p as real + shift) == f(dim - 1)
  {
    var edge := Edge(dim, shift);
    var c := 2 * (p - (dim - edge)) + 1 - edge;
    q := c as real / (2 * edge) as real;
    Fraction(c, 2 * edge);
    PastEnd(f, dim, p as real + shift);
    if q < 0.0 {
      assert (dim - 1) as real + q == (dim - 2) as real + (1.0 + q);
      Between(f, len, dim - 2, 1.0 + q);
    } else {
      Between(f, len, dim - 1, q);
    }
  }

  lemma LeftEdge(f: int -> real, dim: int, len: int, shift: real, p: int) returns (q: real)
    requires 0 <= p < dim <= len && shift < 0.0 && p < Edge(dim, shift)
    ensures var c := 2 * p + 1 - Edge(dim, shift);
      -0.5 < q < 0.5 && (c < 0 <==> q < 0.0) && (c > 0 <==> q > 0.0)
    ensures q <= 0.0 ==> Sampled(f, len, Position(dim, shift, p)) == f(0)
    ensures q > 0.0 ==> dim >= 2 && Sampled(f, len, Position(dim, shift, p)) == Mix(f(0), f(1), q)
    ensures Sampled(f, dim, p as real + shift) == f(0)
  {
    var edge := Edge(dim, shift);
    var c := 2 * p + 1 - edge;
    q := c as real / (2 * edge) as real;
    Fraction(c, 2 * edge);
    BeforeStart(f, dim, p as real + shift);
    if q > 0.0 {
      assert 0.0 + q == 0 as real + q;
      Between(f, len, 0, q);
    } else {
      BeforeStart(f, len, q);
    }
  }

  lemma PixelAgrees(f: int -> real, dim: int, len: int, shift: real, p: int)
    requires 0 <= p < dim <= len && Exact(dim, len, shift, p)
    ensures Sampled(f, len, Position(dim, shift, p)) == Sampled(f, dim, p as real + shift)
  {
    if shift > 0.0 && p >= dim - Edge(dim, shift) {
      var q := RightEdge(f, dim, len, shift, p);
    } else if shift < 0.0 && p < Edge(dim, shift) {
      var q := LeftEdge(f, dim, len, shift, p);
    } else {
      Content(f, dim, len, shift, p);
    }
  }

  /** A line on which every inexact sample of pixel `p` comes out too large. */
  ghost function Witness(dim: int, p: int): int -> real {
    i => if dim >= 3 then (if i == 0 || i == dim - 1 then 0.0 else 1.0)
         else if p == 0 then (if i == 0 then 1.0 else 0.0)
         else i as real
  }

  lemma MixAbove(a: real, b: real, t: real)
    requires 0.0 < t < 1.0
    ensures a < b ==> a < Mix(a, b, t) && a < Mix(b, a, t)
    ensures Mix(a, a, t) == a
  {
    assert Mix(a, b, t) == a + t * (b - a);
    assert Mix(b, a, t) == a + (1.0 - t) * (b - a);
    if a < b {
      MulLess(0.0, b - a, t);
      MulLess(0.0, b - a, 1.0 - t);
    }
  }

  lemma PixelDiffers(dim: int, len: int, shift: real, p: int)
    requires 0 <= p < dim <= len && !Exact(dim, len, shift, p)
    ensures Sampled(Witness(dim, p), len, Position(dim, shift, p)) > Sampled(Witness(dim, p), dim, p as real + shift)
  {
    var f := Witness(dim, p);
    if shift > 0.0 {
      var q := RightEdge(f, dim, len, shift, p);
      if q < 0.0 { MixAbove(f(dim - 1), f(dim - 2), 1.0 + q); } else { MixAbove(f(dim - 1), f(dim), q); }
    } else {
      var q := LeftEdge(f, dim, len, shift, p);
      MixAbove(f(0), f(1), q);
    }
  }

  /** What pixel `p` of a line of the pass sees at each displacement. */
  ghost function PassLine(f: int -> real, dim: int, len: int, p: int): real -> real
    requires 1 <= dim && 1 <= len
  {
    shift => Sampled(f, len, Position(dim, shift, p))
  }

  /** And what it sees in the shader. */
  ghost function ShaderLine(f: int -> real, dim: int, p: int): real -> real
    requires 1 <= dim
  {
    shift => Sampled(f, dim, p as real + shift)
  }

  lemma {:induction false} SameTotal(taps: seq<Tap>, a: real -> real, b: real -> real)
    requires forall k :: 0 <= k < |taps| ==> a(taps[k].displacement) == b(taps[k].displacement)
    ensures TapTotal(taps, Reading(a)) == TapTotal(taps, Reading(b))
  {
    if taps != [] {
      var rest := taps[1..];
      forall k | 0 <= k < |rest| ensures a(rest[k].displacement) == b(rest[k].displacement) {
        assert rest[k] == taps[k + 1];
      }
      SameTotal(rest, a, b);
    }
  }

  lemma {:induction false} LargerTotal(taps: seq<Tap>, a: real -> real, b: real -> real)
    requires Weighted(taps) && forall k :: 0 <= k < |taps| ==> a(taps[k].displacement) >= b(taps[k].displacement)
    ensures TapTotal(taps, Reading(a)) >= TapTotal(taps, Reading(b))
    ensures forall k :: 0 <= k < |taps| && a(taps[k].displacement) > b(taps[k].displacement) ==>
      TapTotal(taps, Reading(a)) > TapTotal(taps, Reading(b))
  {
    if taps != [] {
      var rest, first := taps[1..], taps[0];
      forall k | 0 <= k < |rest| ensures rest[k].weight > 0.0 && a(rest[k].displacement) >= b(rest[k].displacement) {
        assert rest[k] == taps[k + 1];
      }
      LargerTotal(rest, a, b);
      LargerReading(first, a, b);
      forall k | 0 <= k < |taps| && a(taps[k].displacement) > b(taps[k].displacement)
        ensures TapTotal(taps, Reading(a)) > TapTotal(taps, Reading(b))
      {
        if k > 0 { assert rest[k - 1] == taps[k]; }
      }
    }
  }

  lemma LargerReading(t: Tap, a: real -> real, b: real -> real)
    requires t.weight > 0.0 && a(t.displacement) >= b(t.displacement)
    ensures Reading(a)(t) >= Reading(b)(t)
    ensures a(t.displacement) > b(t.displacement) ==> Reading(a)(t) > Reading(b)(t)
  {
    if a(t.displacement) > b(t.displacement) { MulLess(b(t.displacement), a(t.displacement), t.weight); }
  }

  ghost predicate Weighted(taps: seq<Tap>) {
    forall k :: 0 <= k < |taps| ==> taps[k].weight > 0.0
  }

  ghost predicate AllExact(taps: seq<Tap>, dim: int, len: int, p: int)
    requires 1 <= dim
  {
    forall k :: 0 <= k < |taps| ==> Exact(dim, len, taps[k].displacement, p)
  }

  lemma LineAgrees(taps: seq<Tap>, f: int -> real, dim: int, len: int, p: int)
    requires 0 <= p < dim <= len && AllExact(taps, dim, len, p)
    ensures TapTotal(taps, Reading(PassLine(f, dim, len, p))) == TapTotal(taps, Reading(ShaderLine(f, dim, p)))
  {
    var a, b := PassLine(f, dim, len, p), ShaderLine(f, dim, p);
    forall k | 0 <= k < |taps| ensures a(taps[k].displacement) == b(taps[k].displacement) {
      PixelAgrees(f, dim, len, taps[k].displacement, p);
    }
    SameTotal(taps, a, b);
  }

  /** One inexact tap spoils the sum: the errors on the witness line cannot cancel. */
  lemma LineDiffers(taps: seq<Tap>, dim: int, len: int, p: int)
    requires 0 <= p < dim <= len && Weighted(taps) && !AllExact(taps, dim, len, p)
    ensures var f := Witness(dim, p);
      TapTotal(taps, Reading(PassLine(f, dim, len, p))) > TapTotal(taps, Reading(ShaderLine(f, dim, p)))
  {
    var f := Witness(dim, p);
    var a, b := PassLine(f, dim, len, p), ShaderLine(f, dim, p);
    forall k | 0 <= k < |taps|
      ensures a(taps[k].displacement) >= b(taps[k].displacement)
      ensures !Exact(dim, len, taps[k].displacement, p) ==> a(taps[k].displacement) > b(taps[k].displacement)
    {
      if Exact(dim, len, taps[k].displacement, p) {
        PixelAgrees(f, dim, len, taps[k].displacement, p);
      } else {
        PixelDiffers(dim, len, taps[k].displacement, p);
      }
    }
    LargerTotal(taps, a, b);
  }

  /** One bright pixel in a line of three, shifted by two: the pass shows a quarter of it at
      the middle pixel, where the shader shows nothing. */
  lemma BleedExample()
    ensures var f: int -> real := i => if i == 1 then 1.0 else 0.0;
      Sampled(f, 3, Position(3, 2.0, 1)) == 0.25 && Sampled(f, 3, 1.0 + 2.0) == 0.0
  {
    var f: int -> real := i => if i == 1 then 1.0 else 0.0;
    assert Edge(3, 2.0) == 2;
    assert Position(3, 2.0, 1) == 1 as real + 0.75;
    Between(f, 3, 1, 0.75);
    PastEnd(f, 3, 3.0);
  }

  // ----- both passes on images

  ghost function TextureSampler(t: Texture): Sampler
    requires t.width >= 1 && t.height >= 1
  {
    (u, v) => Sample(t, u, v)
  }

  /** What the pass draws at a pixel of the image held in the corner of the texture `t`. */
  ghost function PassPixel(t: Texture, size: Size, horizontal: bool, taps: seq<Tap>, x: int, y: int): real
    requires 1 <= size.width <= t.width && 1 <= size.height <= t.height
  {
    TapTotal(taps, Contribution(TextureSampler(t), size, horizontal, x, y))
  }

  ghost function SeenByShader(t: Texture, horizontal: bool, x: int, y: int): real -> real
    requires t.width >= 1 && t.height >= 1
  {
    shift => if horizontal then Sample(t, x as real + shift, y as real) else Sample(t, x as real, y as real + shift)
  }

  /** What the fragment shader computes at a pixel from a texture that is just the image. */
  ghost function ShaderPixel(t: Texture, horizontal: bool, taps: seq<Tap>, x: int, y: int): real
    requires t.width >= 1 && t.height >= 1
  {
    TapTotal(taps, Reading(SeenByShader(t, horizontal, x, y)))
  }

  ghost function Image(t: Texture, size: Size): Texture
    requires size.width >= 0 && size.height >= 0
  {
    Texture(size.width, size.height, t.texel)
  }

  ghost predicate InImage(t: Texture, size: Size, x: int, y: int) {
    size.width <= t.width && size.height <= t.height && 0 <= x < size.width && 0 <= y < size.height
  }

  lemma HorizontalLines(t: Texture, size: Size, taps: seq<Tap>, x: int, y: int)
    requires InImage(t, size, x, y)
    ensures PassPixel(t, size, true, taps, x, y) == TapTotal(taps, Reading(PassLine(Row(t, y), size.width, t.width, x)))
    ensures ShaderPixel(Image(t, size), true, taps, x, y) ==
      TapTotal(taps, Reading(ShaderLine(Row(t, y), size.width, x)))
  {
    var image := Image(t, size);
    var a, c := Seen(TextureSampler(t), size, true, x, y), SeenByShader(image, true, x, y);
    var pass, shader := PassLine(Row(t, y), size.width, t.width, x), ShaderLine(Row(t, y), size.width, x);
    forall k | 0 <= k < |taps|
      ensures a(taps[k].displacement) == pass(taps[k].displacement)
      ensures c(taps[k].displacement) == shader(taps[k].displacement)
    {
      SampleRow(t, Position(size.width, taps[k].displacement, x), y);
      SampleRow(image, x as real + taps[k].displacement, y);
    }
    SameTotal(taps, a, pass);
    SameTotal(taps, c, shader);
  }

  lemma VerticalLines(t: Texture, size: Size, taps: seq<Tap>, x: int, y: int)
    requires InImage(t, size, x, y)
    ensures PassPixel(t, size, false, taps, x, y) ==
      TapTotal(taps, Reading(PassLine(Column(t, x), size.height, t.height, y)))
    ensures ShaderPixel(Image(t, size), false, taps, x, y) ==
      TapTotal(taps, Reading(ShaderLine(Column(t, x), size.height, y)))
  {
    var image := Image(t, size);
    var a, c := Seen(TextureSampler(t), size, false, x, y), SeenByShader(image, false, x, y);
    var pass, shader := PassLine(Column(t, x), size.height, t.height, y), ShaderLine(Column(t, x), size.height, y);
    forall k | 0 <= k < |taps|
      ensures a(taps[k].displacement) == pass(taps[k].displacement)
      ensures c(taps[k].displacement) == shader(taps[k].displacement)
    {
      SampleColumn(t, x, Position(size.height, taps[k].displacement, y));
      SampleColumn(image, x, y as real + taps[k].displacement);
    }
    SameTotal(taps, a, pass);
    SameTotal(taps, c, shader);
  }

  /** The taps that are exact at a pixel. */
  ghost predicate ExactAt(t: Texture, size: Size, horizontal: bool, taps: seq<Tap>, x: int, y: int)
    requires InImage(t, size, x, y)
  {
    if horizontal then AllExact(taps, size.width, t.width, x) else AllExact(taps, size.height, t.height, y)
  }

  lemma PixelEqual(t: Texture, size: Size, horizontal: bool, taps: seq<Tap>, x: int, y: int)
    requires InImage(t, size, x, y) && ExactAt(t, size, horizontal, taps, x, y)
    ensures PassPixel(t, size, horizontal, taps, x, y) == ShaderPixel(Image(t, size), horizontal, taps, x, y)
  {
    if horizontal {
      HorizontalLines(t, size, taps, x, y);
      LineAgrees(taps, Row(t, y), size.width, t.width, x);
    } else {
      VerticalLines(t, size, taps, x, y);
      LineAgrees(taps, Column(t, x), size.height, t.height, y);
    }
  }

  /** A texture of the same size on which an inexact pixel comes out different. */
  ghost function Striped(t: Texture, size: Size, horizontal: bool, x: int, y: int): Texture {
    Texture(t.width, t.height, (i, j) => if horizontal then Witness(size.width, x)(i) else Witness(size.height, y)(j))
  }

  lemma PixelUnequal(t: Texture, size: Size, horizontal: bool, taps: seq<Tap>, x: int, y: int)
    requires InImage(t, size, x, y) && Weighted(taps) && !ExactAt(t, size, horizontal, taps, x, y)
    ensures var u := Striped(t, size, horizontal, x, y);
      PassPixel(u, size, horizontal, taps, x, y) > ShaderPixel(Image(u, size), horizontal, taps, x, y)
  {
    var u := Striped(t, size, horizontal, x, y);
    if horizontal {
      HorizontalLines(u, size, taps, x, y);
      LineDiffers(taps, size.width, t.width, x);
      SameLine(taps, Row(u, y), Witness(size.width, x), size.width, t.width, x);
    } else {
      VerticalLines(u, size, taps, x, y);
      LineDiffers(taps, size.height, t.height, y);
      SameLine(taps, Column(u, x), Witness(size.height, y), size.height, t.height, y);
    }
  }

  lemma SameSampled(f: int -> real, g: int -> real, n: int, u: real)
    requires n >= 1 && forall i :: f(i) == g(i)
    ensures Sampled(f, n, u) == Sampled(g, n, u)
  {
  }

  lemma SameLine(taps: seq<Tap>, f: int -> real, g: int -> real, dim: int, len: int, p: int)
    requires 1 <= dim && 1 <= len && forall i :: f(i) == g(i)
    ensures TapTotal(taps, Reading(PassLine(f, dim, len, p))) == TapTotal(taps, Reading(PassLine(g, dim, len, p)))
    ensures TapTotal(taps, Reading(ShaderLine(f, dim, p))) == TapTotal(taps, Reading(ShaderLine(g, dim, p)))
  {
    forall k | 0 <= k < |taps|
      ensures PassLine(f, dim, len, p)(taps[k].displacement) == PassLine(g, dim, len, p)(taps[k].displacement)
      ensures ShaderLine(f, dim, p)(taps[k].displacement) == ShaderLine(g, dim, p)(taps[k].displacement)
    {
      SameSampled(f, g, len, Position(dim, taps[k].displacement, p));
      SameSampled(f, g, dim, p as real + taps[k].displacement);
    }
    SameTotal(taps, PassLine(f, dim, len, p), PassLine(g, dim, len, p));
    SameTotal(taps, ShaderLine(f, dim, p), ShaderLine(g, dim, p));
  }

  /** At each pixel: the pass draws what the shader computes for every image if and only if
      no tap reads the inner half of its stretched edge there. */
  lemma PassEqualsShader(t: Texture, size: Size, horizontal: bool, taps: seq<Tap>, x: int, y: int)
    requires InImage(t, size, x, y) && Weighted(taps)
    ensures (forall texel: (int, int) -> real ::
        PassPixel(t.(texel := texel), size, horizontal, taps, x, y) ==
          ShaderPixel(Image(t.(texel := texel), size), horizontal, taps, x, y))
      <==> ExactAt(t, size, horizontal, taps, x, y)
  {
    if ExactAt(t, size, horizontal, taps, x, y) {
      forall texel: (int, int) -> real
        ensures PassPixel(t.(texel := texel), size, horizontal, taps, x, y) ==
          ShaderPixel(Image(t.(texel := texel), size), horizontal, taps, x, y)
      {
        PixelEqual(t.(texel := texel), size, horizontal, taps, x, y);
      }
    } else {
      PixelUnequal(t, size, horizontal, taps, x, y);
      var u := Striped(t, size, horizontal, x, y);
      assert u == t.(texel := u.texel);
    }
  }

  lemma SmallShiftExact(dim: int, len: int, shift: real, p: int)
    requires 0 <= p < dim <= len && (dim == 1 || -1.0 <= shift <= 1.0)
    ensures Exact(dim, len, shift, p)
  {
    assert Edge(dim, shift) <= 1;
  }

  /** For the taps of the Gaussian, along a line: all samples are exact if and only if the
      kernel reaches one pixel or the line is one pixel long. */
  lemma KernelLineExact(w: seq<real>, dim: int, len: int)
    requires AllPositive(w) && 1 <= dim <= len
    ensures (forall p :: 0 <= p < dim ==> AllExact(Folded(w), dim, len, p)) <==> |w| <= 2 || dim == 1
  {
    var taps := Folded(w);
    FoldedShape(w);
    if |w| <= 2 || dim == 1 {
      forall p, k | 0 <= p < dim && 0 <= k < |taps| ensures Exact(dim, len, taps[k].displacement, p) {
        assert TapOk(taps[k], |w| - 1);
        SmallShiftExact(dim, len, taps[k].displacement, p);
      }
    } else {
      MassPositive(w, |w|);
      PairOk(w, Total(w), 1);
      var shift := PairAt(w, Total(w), 1).0.displacement;
      assert taps[1].displacement == shift;
      assert Edge(dim, shift) == 2;
      assert !Exact(dim, len, shift, dim - 2);
      assert !AllExact(taps, dim, len, dim - 2);
    }
  }

  /** Pass and shader give the same pixel for every image. */
  ghost predicate AgreesAt(t: Texture, size: Size, horizontal: bool, taps: seq<Tap>, x: int, y: int)
    requires InImage(t, size, x, y)
  {
    forall texel: (int, int) -> real ::
      PassPixel(t.(texel := texel), size, horizontal, taps, x, y) ==
        ShaderPixel(Image(t.(texel := texel), size), horizontal, taps, x, y)
  }

  lemma KernelWeighted(w: seq<real>)
    requires AllPositive(w)
    ensures Weighted(Folded(w))
  {
    FoldedShape(w);
    forall k | 0 <= k < |Folded(w)| ensures Folded(w)[k].weight > 0.0 { assert TapOk(Folded(w)[k], |w| - 1); }
  }

  /** Pixels agree throughout an image if and only if a line of it is exact throughout. */
  lemma ExactPixels(t: Texture, size: Size, horizontal: bool, taps: seq<Tap>)
    requires Weighted(taps) && InImage(t, size, 0, 0)
    ensures var dim, len := if horizontal then size.width else size.height, if horizontal then t.width else t.height;
      (forall x, y :: InImage(t, size, x, y) ==> AgreesAt(t, size, horizontal, taps, x, y)) <==>
        forall p :: 0 <= p < dim ==> AllExact(taps, dim, len, p)
  {
    var dim, len := if horizontal then size.width else size.height, if horizontal then t.width else t.height;
    forall x, y | InImage(t, size, x, y)
      ensures AgreesAt(t, size, horizontal, taps, x, y) <==> AllExact(taps, dim, len, if horizontal then x else y)
    {
      PassEqualsShader(t, size, horizontal, taps, x, y);
    }
    forall p | 0 <= p < dim &&
      AgreesAt(t, size, horizontal, taps, if horizontal then p else 0, if horizontal then 0 else p)
      ensures AllExact(taps, dim, len, p)
    {
      PassEqualsShader(t, size, horizontal, taps, if horizontal then p else 0, if horizontal then 0 else p);
    }
  }

  /** For the taps of the Gaussian and any texture that holds the image: the pass draws what
      the shader computes, for every image and every pixel, if and only if the kernel reaches
      one pixel or the image is one pixel long in the direction of the pass. */
  lemma KernelPassExact(t: Texture, size: Size, horizontal: bool, w: seq<real>)
    requires AllPositive(w) && InImage(t, size, 0, 0)
    ensures (forall x, y :: InImage(t, size, x, y) ==> AgreesAt(t, size, horizontal, Folded(w), x, y))
      <==> |w| <= 2 || (if horizontal then size.width else size.height) == 1
  {
    KernelWeighted(w);
    ExactPixels(t, size, horizontal, Folded(w));
    if horizontal { KernelLineExact(w, size.width, t.width); } else { KernelLineExact(w, size.height, t.height); }
  }

  /** Where pixel `p` would sample if the filter were confined to the box being drawn. */
  ghost function Confined(dim: int, shift: real, p: int): real
    requires dim >= 1
  {
    if shift > 0.0 && p >= dim - Edge(dim, shift) then (dim - 1) as real
    else if shift < 0.0 && p < Edge(dim, shift) then 0.0
    else Position(dim, shift, p)
  }

  /** The filter reaching out of the edge box is the only cause: confined to it, every pixel
      of every image would agree, however large the texture. */
  lemma ConfinedAgrees(f: int -> real, dim: int, len: int, shift: real, p: int)
    requires 0 <= p < dim <= len
    ensures Sampled(f, len, Confined(dim, shift, p)) == Sampled(f, dim, p as real + shift)
  {
    if shift > 0.0 && p >= dim - Edge(dim, shift) {
      AtCentre(f, len, dim - 1);
      PastEnd(f, dim, p as real + shift);
    } else if shift < 0.0 && p < Edge(dim, shift) {
      BeforeStart(f, len, 0.0);
      BeforeStart(f, dim, p as real + shift);
    } else {
      Content(f, dim, len, shift, p);
    }
  }
}
