/** The integer side of the viewer's pixel pipeline (imageView.py): the
    deep copy of the decoded grid, the optional low-pass filter for binary
    images, the RGB channel mask, the brightness step with its [0,255]
    clamp, and the bilinear resize, as gated by ImageView.rebuild.

    Grids are array2 values in the methods, as the source's lists of rows
    are rectangular buffers updated in place, and seq<seq<Pixel>> in the
    functions that specify them. Python floats are exact reals here; the
    two float computations whose values come from formulas this model
    does not interpret (the Gaussian kernel and the YUV round trip) are
    passed in as a Numerics value. */
module Pipeline {
  import opened Bitmap

  // ---------------------------------------------------------------------
  // Arithmetic

  function Min(a: int, b: int): int { if a < b then a else b }

  function Max(a: int, b: int): int { if a > b then a else b }

  function Abs(x: real): real { if x < 0.0 then -x else x }

  /** Python's int() of a float: truncation toward zero. */
  function Trunc(x: real): (i: int)
    ensures x >= 0.0 ==> i >= 0 && i as real <= x < i as real + 1.0
    ensures x < 0.0 ==> i <= 0 && i as real - 1.0 < x <= i as real
  {
    if x >= 0.0 then x.Floor else -((-x).Floor)
  }

  /** min(max(v, lo), hi): the edge clamp of both filters. */
  function ClampIndex(v: int, lo: int, hi: int): (c: int)
    requires lo <= hi
    ensures lo <= c <= hi
    ensures lo <= v <= hi ==> c == v
    ensures v < lo ==> c == lo
    ensures v > hi ==> c == hi
  {
    Min(Max(v, lo), hi)
  }

  /** max(0, min(255, v)): the channel clamp after the brightness step. */
  function ClampChannel(v: int): (c: int)
    ensures 0 <= c <= 255
    ensures 0 <= v <= 255 ==> c == v
    ensures v < 0 ==> c == 0
    ensures v > 255 ==> c == 255
  {
    Max(0, Min(255, v))
  }

  // ---------------------------------------------------------------------
  // Grids

  /** A grid the pipeline can index: at least one row, rows of one
      non-zero length (len(src) and len(src[0]) are both taken). */
  predicate Image(g: Grid)
  {
    |g| >= 1 && |g[0]| >= 1 && forall y :: 0 <= y < |g| ==> |g[y]| == |g[0]|
  }

  predicate Rect(g: Grid, h: nat, w: nat)
  {
    |g| == h && forall y :: 0 <= y < h ==> |g[y]| == w
  }

  function Height(g: Grid): nat { |g| }

  function Width(g: Grid): nat
    requires |g| >= 1
  {
    |g[0]|
  }

  predicate InRange(p: Pixel)
  {
    0 <= p.r <= 255 && 0 <= p.g <= 255 && 0 <= p.b <= 255
  }

  predicate AllInRange(g: Grid)
  {
    forall y, x :: 0 <= y < |g| && 0 <= x < |g[y]| ==> InRange(g[y][x])
  }

  /** The values of an array2 grid, row by row. */
  ghost function Rows(a: array2<Pixel>): (g: Grid)
    reads a
    ensures Rect(g, a.Length0, a.Length1)
  {
    seq(a.Length0, y requires 0 <= y < a.Length0 reads a =>
      seq(a.Length1, x requires 0 <= x < a.Length1 reads a => a[y, x]))
  }

  lemma RowsAre(a: array2<Pixel>, g: Grid)
    requires Rect(g, a.Length0, a.Length1)
    requires forall y, x :: 0 <= y < a.Length0 && 0 <= x < a.Length1 ==> a[y, x] == g[y][x]
    ensures Rows(a) == g
  {
    var r := Rows(a);
    forall y | 0 <= y < a.Length0
      ensures r[y] == g[y]
    {
    }
  }

  // ---------------------------------------------------------------------
  // Abstract numerics

  /** The float computations the model leaves uninterpreted: the kernel
      gaussian_kernel(1, 0.8) returns, and the YUV round trip of the
      brightness step (brightness scale and pixel to the channels before
      the clamp). */
  datatype Numerics = Numerics(kernel: seq<seq<real>>, yuv: (real, Pixel) -> Pixel)

  /** A (2*radius+1)-square kernel, as gaussian_kernel builds. */
  predicate KernelShape(kernel: seq<seq<real>>, radius: nat)
  {
    |kernel| == 2 * radius + 1 && forall j :: 0 <= j < |kernel| ==> |kernel[j]| == |kernel|
  }

  // ---------------------------------------------------------------------
  // RGB channel mask

  function MaskPixel(p: Pixel, mr: bool, mg: bool, mb: bool): Pixel
  {
    Pixel(if mr then p.r else 0, if mg then p.g else 0, if mb then p.b else 0)
  }

  /** Every pixel with the disabled channels set to 0. */
  function Masked(g: Grid, mr: bool, mg: bool, mb: bool): (m: Grid)
    ensures |m| == |g| && forall y :: 0 <= y < |g| ==> |m[y]| == |g[y]|
    ensures forall y, x :: 0 <= y < |g| && 0 <= x < |g[y]| ==>
              (mr ==> m[y][x].r == g[y][x].r) && (!mr ==> m[y][x].r == 0) &&
              (mg ==> m[y][x].g == g[y][x].g) && (!mg ==> m[y][x].g == 0) &&
              (mb ==> m[y][x].b == g[y][x].b) && (!mb ==> m[y][x].b == 0)
  {
    seq(|g|, y requires 0 <= y < |g| =>
      seq(|g[y]|, x requires 0 <= x < |g[y]| => MaskPixel(g[y][x], mr, mg, mb)))
  }

  /** With every channel enabled the mask is the identity, which is why
      rebuild skips it then. */
  lemma MaskAllEnabled(g: Grid)
    ensures Masked(g, true, true, true) == g
  {
    var m := Masked(g, true, true, true);
    forall y | 0 <= y < |g|
      ensures m[y] == g[y]
    {
    }
  }

  /** Masking twice with the same flags is masking once. */
  lemma MaskIdempotent(g: Grid, mr: bool, mg: bool, mb: bool)
    ensures Masked(Masked(g, mr, mg, mb), mr, mg, mb) == Masked(g, mr, mg, mb)
  {
    var m := Masked(g, mr, mg, mb);
    var mm := Masked(m, mr, mg, mb);
    forall y | 0 <= y < |g|
      ensures mm[y] == m[y]
    {
    }
  }

  // ---------------------------------------------------------------------
  // Brightness

  /** abs(gamma - 1.0) > 1e-6 */
  predicate BrightnessActive(gamma: real)
    ensures !BrightnessActive(gamma) <==> 0.999999 <= gamma <= 1.000001
  {
    Abs(gamma - 1.0) > 0.000001
  }

  /** The binary-image bump: each channel plus (gamma/1.5 - 1)*127,
      truncated; at gamma 1.5 the bump is 0. */
  function Bump(p: Pixel, gamma: real): (q: Pixel)
    ensures gamma == 1.5 ==> q == p
    ensures gamma >= 1.5 ==> q.r >= p.r && q.g >= p.g && q.b >= p.b
    ensures gamma <= 1.5 ==> q.r <= p.r && q.g <= p.g && q.b <= p.b
  {
    var factor := (gamma / 1.5 - 1.0) * 127.0;
    Pixel(Trunc(p.r as real + factor), Trunc(p.g as real + factor), Trunc(p.b as real + factor))
  }

  /** One pixel of the brightness step: YUV for palette and true-colour
      images, the bump for two-colour 1 bpp images, then the clamp. */
  function Brighten(p: Pixel, gamma: real, numColors: nat, bpp: nat, n: Numerics): (q: Pixel)
    ensures InRange(q)
    ensures InRange(p) && bpp == 1 && numColors <= 2 && gamma == 1.5 ==> q == p
  {
    var raw := if numColors > 2 || bpp != 1 then n.yuv(gamma / 1.5, p) else Bump(p, gamma);
    Pixel(ClampChannel(raw.r), ClampChannel(raw.g), ClampChannel(raw.b))
  }

  function Brightened(g: Grid, gamma: real, numColors: nat, bpp: nat, n: Numerics): (b: Grid)
    ensures |b| == |g| && forall y :: 0 <= y < |g| ==> |b[y]| == |g[y]|
    ensures AllInRange(b)
  {
    seq(|g|, y requires 0 <= y < |g| =>
      seq(|g[y]|, x requires 0 <= x < |g[y]| => Brighten(g[y][x], gamma, numColors, bpp, n)))
  }

  /** On a two-colour 1 bpp image a gamma above 1.5 never darkens a
      channel and one below 1.5 never brightens it. */
  lemma BumpDirection(p: Pixel, gamma: real, numColors: nat, n: Numerics)
    requires InRange(p) && numColors <= 2
    ensures gamma >= 1.5 ==> var q := Brighten(p, gamma, numColors, 1, n);
              q.r >= p.r && q.g >= p.g && q.b >= p.b
    ensures gamma <= 1.5 ==> var q := Brighten(p, gamma, numColors, 1, n);
              q.r <= p.r && q.g <= p.g && q.b <= p.b
  {
  }

  // ---------------------------------------------------------------------
  // Gaussian blur

  datatype Acc = Acc(r: real, g: real, b: real)

  const Zero := Acc(0.0, 0.0, 0.0)

  /** acc += channel * weight, for each channel. */
  function AddWeighted(a: Acc, p: Pixel, k: real): Acc
  {
    Acc(a.r + p.r as real * k, a.g + p.g as real * k, a.b + p.b as real * k)
  }

  /** The pixel under kernel cell (j, i) for output (y, x), its coordinates
      clamped to the grid. */
  function Sample(g: Grid, radius: nat, y: nat, x: nat, j: nat, i: nat): Pixel
    requires Image(g)
  {
    var yy := ClampIndex(y + j - radius, 0, Height(g) - 1);
    var xx := ClampIndex(x + i - radius, 0, Width(g) - 1);
    g[yy][xx]
  }

  /** The accumulators after cells (j, 0) .. (j, i-1) of kernel row j. */
  function RowAcc(g: Grid, kernel: seq<seq<real>>, radius: nat, y: nat, x: nat, j: nat, i: nat): Acc
    requires Image(g) && KernelShape(kernel, radius) && j < |kernel| && i <= |kernel|
    decreases i
  {
    if i == 0 then Zero
    else AddWeighted(RowAcc(g, kernel, radius, y, x, j, i - 1), Sample(g, radius, y, x, j, i - 1), kernel[j][i - 1])
  }

  /** The accumulators after kernel rows 0 .. j-1, starting from acc. */
  function KernelAcc(g: Grid, kernel: seq<seq<real>>, radius: nat, y: nat, x: nat, j: nat): Acc
    requires Image(g) && KernelShape(kernel, radius) && j <= |kernel|
  {
    if j == 0 then Zero
    else Plus(KernelAcc(g, kernel, radius, y, x, j - 1), RowAcc(g, kernel, radius, y, x, j - 1, |kernel|))
  }

  function Plus(a: Acc, b: Acc): Acc
  {
    Acc(a.r + b.r, a.g + b.g, a.b + b.b)
  }

  /** (int(r_acc + 0.5), int(g_acc + 0.5), int(b_acc + 0.5)) */
  function Round(a: Acc): Pixel
  {
    Pixel(Trunc(a.r + 0.5), Trunc(a.g + 0.5), Trunc(a.b + 0.5))
  }

  function Blurred(g: Grid, kernel: seq<seq<real>>, radius: nat): (b: Grid)
    requires Image(g) && KernelShape(kernel, radius)
    ensures Rect(b, Height(g), Width(g))
  {
    seq(Height(g), y requires 0 <= y < Height(g) =>
      seq(Width(g), x requires 0 <= x < Width(g) => Round(KernelAcc(g, kernel, radius, y, x, |kernel|))))
  }

  /** The sum of the first i weights of row j, and of the first j rows. */
  function RowWeight(kernel: seq<seq<real>>, j: nat, i: nat): real
    requires j < |kernel| && i <= |kernel[j]|
  {
    if i == 0 then 0.0 else RowWeight(kernel, j, i - 1) + kernel[j][i - 1]
  }

  function KernelWeight(kernel: seq<seq<real>>, j: nat): real
    requires j <= |kernel| && forall r :: 0 <= r < |kernel| ==> |kernel[r]| == |kernel|
  {
    if j == 0 then 0.0 else KernelWeight(kernel, j - 1) + RowWeight(kernel, j - 1, |kernel|)
  }

  predicate Uniform(g: Grid, c: Pixel)
  {
    forall y, x :: 0 <= y < |g| && 0 <= x < |g[y]| ==> g[y][x] == c
  }

  /** c with every channel multiplied by w. */
  function Scaled(c: Pixel, w: real): Acc
  {
    Acc(c.r as real * w, c.g as real * w, c.b as real * w)
  }

  lemma {:induction false} RowAccUniform(g: Grid, kernel: seq<seq<real>>, radius: nat, y: nat, x: nat, j: nat, i: nat, c: Pixel)
    requires Image(g) && KernelShape(kernel, radius) && j < |kernel| && i <= |kernel|
    requires Uniform(g, c)
    ensures RowAcc(g, kernel, radius, y, x, j, i) == Scaled(c, RowWeight(kernel, j, i))
  {
    if i == 0 {
      assert RowWeight(kernel, j, 0) == 0.0;
    } else {
      RowAccUniform(g, kernel, radius, y, x, j, i - 1, c);
      var w, k := RowWeight(kernel, j, i - 1), kernel[j][i - 1];
      assert Sample(g, radius, y, x, j, i - 1) == c;
      ScaledAdd(c, w, k);
    }
  }

  lemma ScaledAdd(c: Pixel, w: real, k: real)
    ensures AddWeighted(Scaled(c, w), c, k) == Scaled(c, w + k)
  {
    Distribute(c.r as real, w, k);
    Distribute(c.g as real, w, k);
    Distribute(c.b as real, w, k);
  }

  lemma {:induction false} KernelAccUniform(g: Grid, kernel: seq<seq<real>>, radius: nat, y: nat, x: nat, j: nat, c: Pixel)
    requires Image(g) && KernelShape(kernel, radius) && j <= |kernel|
    requires Uniform(g, c)
    ensures KernelAcc(g, kernel, radius, y, x, j) == Scaled(c, KernelWeight(kernel, j))
  {
    if j == 0 {
      assert KernelWeight(kernel, 0) == 0.0;
    } else {
      KernelAccUniform(g, kernel, radius, y, x, j - 1, c);
      RowAccUniform(g, kernel, radius, y, x, j - 1, |kernel|, c);
      ScaledPlus(c, KernelWeight(kernel, j - 1), RowWeight(kernel, j - 1, |kernel|));
    }
  }

  /** One `acc += channel * weight` step keeps the accumulators equal to
      the row sum so far, offset by what earlier rows contributed. */
  lemma AccumulateStep(before: Acc, row: Acc, r: real, g: real, b: real, p: Pixel, k: real)
    requires Acc(r, g, b) == Plus(before, row)
    ensures Acc(r + p.r as real * k, g + p.g as real * k, b + p.b as real * k) ==
            Plus(before, AddWeighted(row, p, k))
  {
    var pr, pg, pb := p.r as real * k, p.g as real * k, p.b as real * k;
    assert AddWeighted(row, p, k) == Acc(row.r + pr, row.g + pg, row.b + pb);
    assert r + pr == before.r + (row.r + pr);
    assert g + pg == before.g + (row.g + pg);
    assert b + pb == before.b + (row.b + pb);
  }

  lemma ScaledPlus(c: Pixel, w: real, k: real)
    ensures Plus(Scaled(c, w), Scaled(c, k)) == Scaled(c, w + k)
  {
    Distribute(c.r as real, w, k);
    Distribute(c.g as real, w, k);
    Distribute(c.b as real, w, k);
  }

  lemma Distribute(a: real, w: real, k: real)
    ensures a * w + a * k == a * (w + k)
  {
  }

  /** A normalised kernel (weights summing to 1, as gaussian_kernel
      divides by their sum) leaves a single-colour image unchanged. */
  lemma BlurUniform(g: Grid, kernel: seq<seq<real>>, radius: nat, c: Pixel)
    requires Image(g) && KernelShape(kernel, radius) && KernelWeight(kernel, |kernel|) == 1.0
    requires Uniform(g, c) && InRange(c)
    ensures Blurred(g, kernel, radius) == g
  {
    var b := Blurred(g, kernel, radius);
    forall y | 0 <= y < Height(g)
      ensures b[y] == g[y]
    {
      forall x | 0 <= x < Width(g)
        ensures b[y][x] == g[y][x]
      {
        KernelAccUniform(g, kernel, radius, y, x, |kernel|, c);
      }
    }
  }

  // ---------------------------------------------------------------------
  // Bilinear resize

  /** Where output pixel centre o falls in the source, for a scale factor. */
  function SourceCoord(o: nat, scale: real): real
    requires scale > 0.0
  {
    (o as real + 0.5) / scale - 0.5
  }

  /** The two source indices and the weight of the second along one axis. */
  datatype Taps = Taps(lo: int, hi: int, weight: real)

  /** The indices as bilinear_resize computes them: the upper one clamped
      into [0, dim-1], the lower one only raised to 0. */
  function TapsAsWritten(o: nat, scale: real, dim: nat): (t: Taps)
    requires scale > 0.0 && dim >= 1
    ensures 0 <= t.hi < dim && 0 <= t.lo
  {
    var s := SourceCoord(o, scale);
    var i0 := Trunc(s);
    var i1 := Min(Max(i0 + 1, 0), dim - 1);
    Taps(if i0 < 0 then 0 else i0, i1, s - i0 as real)
  }

  /** The indices with the lower one clamped into [0, dim-1] as well. */
  function AxisTaps(o: nat, scale: real, dim: nat): (t: Taps)
    requires scale > 0.0 && dim >= 1
    ensures 0 <= t.lo < dim && 0 <= t.hi < dim
    ensures TapsAsWritten(o, scale, dim).lo < dim ==> t == TapsAsWritten(o, scale, dim)
  {
    var t := TapsAsWritten(o, scale, dim);
    if t.lo > dim - 1 then t.(lo := dim - 1) else t
  }

  /** The source coordinate of a pixel centre is above -0.5, so its
      truncation is never negative: the `if y0 < 0` guard never fires. */
  lemma LowerGuardNeverFires(o: nat, scale: real)
    requires scale > 0.0
    ensures Trunc(SourceCoord(o, scale)) >= 0
  {
    assert (o as real + 0.5) / scale > 0.0;
  }

  /** max(1, int(dim * scale)): an output dimension. */
  function TargetDim(dim: nat, scale: real): (n: nat)
    requires scale > 0.0
    ensures n >= 1
  {
    Max(1, Trunc(dim as real * scale))
  }

  /** Unless it was forced up to 1, an output dimension is dim * scale
      rounded down. */
  lemma TargetDimBounds(dim: nat, scale: real)
    requires scale > 0.0 && dim as real * scale >= 1.0
    ensures TargetDim(dim, scale) as real <= dim as real * scale < TargetDim(dim, scale) as real + 1.0
  {
  }

  /** When the output dimension was not forced up to 1, every output pixel
      centre maps inside the source, so the lower index needs no clamp. */
  lemma LowerInRangeUnlessForced(o: nat, scale: real, dim: nat)
    requires scale > 0.0 && dim >= 1 && dim as real * scale >= 1.0
    requires o < TargetDim(dim, scale)
    ensures TapsAsWritten(o, scale, dim).lo < dim
  {
    var n := TargetDim(dim, scale);
    var s := SourceCoord(o, scale);
    TargetDimBounds(dim, scale);
    assert o as real + 0.5 <= n as real - 0.5;
    assert (o as real + 0.5) <= dim as real * scale - 0.5;
    assert (o as real + 0.5) / scale <= (dim as real * scale - 0.5) / scale by {
      DivMonotone(o as real + 0.5, dim as real * scale - 0.5, scale);
    }
    assert (dim as real * scale - 0.5) / scale == dim as real - 0.5 / scale;
    assert 0.5 / scale > 0.0;
    assert s < dim as real - 0.5;
  }

  lemma DivMonotone(a: real, b: real, c: real)
    requires a <= b && c > 0.0
    ensures a / c <= b / c
  {
    assert b / c - a / c == (b - a) / c;
  }

  /** The other direction: when the scale is at most 1/(2*dim+1), the first
      output pixel centre maps at or past the far edge, so the lower index
      as written is outside the source. */
  lemma LowerEscapesWhenForced(scale: real, dim: nat)
    requires scale > 0.0 && dim >= 1 && (2.0 * dim as real + 1.0) * scale <= 1.0
    ensures TargetDim(dim, scale) == 1
    ensures TapsAsWritten(0, scale, dim).lo >= dim
  {
    var d := dim as real;
    var q := 0.5 / scale;
    assert q * scale == 0.5;
    assert (d + 0.5) * scale == 0.5 * ((2.0 * d + 1.0) * scale);
    if q < d + 0.5 {
      MulStrict(q, d + 0.5, scale);
      assert false;
    }
    assert SourceCoord(0, scale) == q - 0.5;
    ForcedBelowOne(scale, d);
  }

  lemma ForcedBelowOne(scale: real, d: real)
    requires scale > 0.0 && d >= 0.0 && (2.0 * d + 1.0) * scale <= 1.0
    ensures d * scale < 1.0
  {
    assert (2.0 * d + 1.0) * scale == 2.0 * (d * scale) + scale;
  }

  lemma MulStrict(a: real, b: real, c: real)
    requires a < b && c > 0.0
    ensures a * c < b * c
  {
  }

  /** A one-row, eight-column image at scale 0.25 (slider value 50 of 200):
      rebuild resizes it, since its width becomes 2 while its height stays
      1, and bilinear_resize as written then reads source row 1 of a
      one-row image. */
  lemma ThinImageCounterexample()
    ensures TargetDim(8, 0.25) == 2 && TargetDim(1, 0.25) == 1
    ensures TapsAsWritten(0, 0.25, 1).lo == 1
    ensures AxisTaps(0, 0.25, 1).lo == 0
  {
    assert SourceCoord(0, 0.25) == 1.5;
    assert Trunc(1.5) == 1;
  }

  /** r = int((1-wx)(1-wy)c00 + wx(1-wy)c10 + (1-wx)wy c01 + wx wy c11):
      four equal corners give their value back, and with weights in [0,1]
      corners in [0,255] give a channel in [0,255]. */
  function Mix(c00: int, c10: int, c01: int, c11: int, wx: real, wy: real): (v: int)
    ensures c00 == c10 == c01 == c11 ==> v == c00
    ensures 0.0 <= wx <= 1.0 && 0.0 <= wy <= 1.0 &&
            0 <= c00 <= 255 && 0 <= c10 <= 255 && 0 <= c01 <= 255 && 0 <= c11 <= 255 ==>
              0 <= v <= 255
  {
    var blend := Blend(c00 as real, c10 as real, c01 as real, c11 as real, wx, wy);
    BlendUniform(c00 as real, wx, wy);
    if 0.0 <= wx <= 1.0 && 0.0 <= wy <= 1.0 && 0 <= c00 <= 255 && 0 <= c10 <= 255 &&
       0 <= c01 <= 255 && 0 <= c11 <= 255
    then
      BlendBounds(c00 as real, c10 as real, c01 as real, c11 as real, wx, wy, 0.0, 255.0);
      Trunc(blend)
    else
      Trunc(blend)
  }

  function Blend(c00: real, c10: real, c01: real, c11: real, wx: real, wy: real): real
  {
    (1.0 - wx) * (1.0 - wy) * c00 + wx * (1.0 - wy) * c10 + (1.0 - wx) * wy * c01 + wx * wy * c11
  }

  /** Linear interpolation between two corners. */
  function Lerp(x: real, y: real, w: real): real
  {
    (1.0 - w) * x + w * y
  }

  lemma LerpBetween(x: real, y: real, w: real, lo: real, hi: real)
    requires 0.0 <= w <= 1.0 && lo <= x <= hi && lo <= y <= hi
    ensures lo <= Lerp(x, y, w) <= hi
  {
    if x <= y {
      LerpRising(x, y, w);
    } else {
      LerpFalling(x, y, w);
    }
  }

  lemma LerpRising(x: real, y: real, w: real)
    requires 0.0 <= w <= 1.0 && x <= y
    ensures x <= Lerp(x, y, w) <= y
  {
    MulBetween(1.0 - w, y - x);
    assert Lerp(x, y, w) == y - (1.0 - w) * (y - x);
  }

  lemma LerpFalling(x: real, y: real, w: real)
    requires 0.0 <= w <= 1.0 && y < x
    ensures y <= Lerp(x, y, w) <= x
  {
    MulBetween(w, x - y);
    assert Lerp(x, y, w) == x - w * (x - y);
  }

  lemma MulBetween(w: real, d: real)
    requires 0.0 <= w <= 1.0 && d >= 0.0
    ensures 0.0 <= w * d <= d
  {
    assert d - w * d == (1.0 - w) * d;
  }

  /** The bilinear blend is a lerp of two lerps along the x axis. */
  lemma BlendNested(c00: real, c10: real, c01: real, c11: real, wx: real, wy: real)
    ensures Blend(c00, c10, c01, c11, wx, wy) == Lerp(Lerp(c00, c10, wx), Lerp(c01, c11, wx), wy)
  {
    var top, bottom := Lerp(c00, c10, wx), Lerp(c01, c11, wx);
    assert (1.0 - wy) * top == (1.0 - wx) * (1.0 - wy) * c00 + wx * (1.0 - wy) * c10;
    assert wy * bottom == (1.0 - wx) * wy * c01 + wx * wy * c11;
  }

  /** With weights in [0,1] the blend stays between the corners' bounds. */
  lemma BlendBounds(c00: real, c10: real, c01: real, c11: real, wx: real, wy: real, lo: real, hi: real)
    requires 0.0 <= wx <= 1.0 && 0.0 <= wy <= 1.0
    requires lo <= c00 <= hi && lo <= c10 <= hi && lo <= c01 <= hi && lo <= c11 <= hi
    ensures lo <= Blend(c00, c10, c01, c11, wx, wy) <= hi
  {
    BlendNested(c00, c10, c01, c11, wx, wy);
    LerpBetween(c00, c10, wx, lo, hi);
    LerpBetween(c01, c11, wx, lo, hi);
    LerpBetween(Lerp(c00, c10, wx), Lerp(c01, c11, wx), wy, lo, hi);
  }

  /** The four bilinear weights sum to 1. */
  lemma BlendUniform(c: real, wx: real, wy: real)
    ensures Blend(c, c, c, c, wx, wy) == c
  {
    BlendNested(c, c, c, c, wx, wy);
  }

  /** Output pixel (yOut, xOut) of the resize. */
  function ResizedPixel(g: Grid, scale: real, yOut: nat, xOut: nat): Pixel
    requires Image(g) && scale > 0.0
  {
    var ty := AxisTaps(yOut, scale, Height(g));
    var tx := AxisTaps(xOut, scale, Width(g));
    var c00 := g[ty.lo][tx.lo];
    var c10 := g[ty.lo][tx.hi];
    var c01 := g[ty.hi][tx.lo];
    var c11 := g[ty.hi][tx.hi];
    Pixel(Mix(c00.r, c10.r, c01.r, c11.r, tx.weight, ty.weight),
          Mix(c00.g, c10.g, c01.g, c11.g, tx.weight, ty.weight),
          Mix(c00.b, c10.b, c01.b, c11.b, tx.weight, ty.weight))
  }

  function Resized(g: Grid, newW: nat, newH: nat, scale: real): (out: Grid)
    requires Image(g) && scale > 0.0
    ensures Rect(out, newH, newW)
  {
    seq(newH, y requires 0 <= y < newH =>
      seq(newW, x requires 0 <= x < newW => ResizedPixel(g, scale, y, x)))
  }

  /** At a scale of at most 1 every pixel centre maps at or past source
      coordinate 0, so the weight of the upper tap lies in [0,1). */
  lemma TapWeight(o: nat, scale: real, dim: nat)
    requires 0.0 < scale <= 1.0 && dim >= 1
    ensures 0.0 <= AxisTaps(o, scale, dim).weight < 1.0
  {
    var s := SourceCoord(o, scale);
    assert 0.5 / scale >= 0.5 by {
      DivMonotone(0.5 * scale, 0.5, scale);
    }
    assert (o as real + 0.5) / scale >= 0.5 / scale by {
      DivMonotone(0.5, o as real + 0.5, scale);
    }
    assert s >= 0.0;
  }

  /** A shrinking resize of a grid of valid channels gives valid channels:
      each one is a convex blend of four source channels. */
  lemma ResizedInRange(g: Grid, newW: nat, newH: nat, scale: real)
    requires Image(g) && AllInRange(g) && 0.0 < scale <= 1.0
    ensures AllInRange(Resized(g, newW, newH, scale))
  {
    var out := Resized(g, newW, newH, scale);
    forall y, x | 0 <= y < |out| && 0 <= x < |out[y]|
      ensures InRange(out[y][x])
    {
      TapWeight(y, scale, Height(g));
      TapWeight(x, scale, Width(g));
      assert out[y][x] == ResizedPixel(g, scale, y, x);
    }
  }

  // ---------------------------------------------------------------------
  // The pipeline of rebuild

  /** rebuild replaces a scale of at most 0 by 0.01 before resizing. */
  function EffectiveScale(scale: real): (s: real)
    ensures s > 0.0
    ensures scale > 0.0 ==> s == scale
  {
    if scale <= 0.0 then 0.01 else scale
  }

  /** Low-pass filter for binary images shown below full size. */
  predicate BlurActive(bpp: nat, scale: real)
    ensures BlurActive(bpp, scale) <==> bpp == 1 && EffectiveScale(scale) < 1.0
  {
    bpp == 1 && scale < 1.0
  }

  predicate MaskActive(mr: bool, mg: bool, mb: bool)
    ensures !MaskActive(mr, mg, mb) ==> forall p :: MaskPixel(p, mr, mg, mb) == p
    ensures MaskActive(mr, mg, mb) ==> MaskPixel(Pixel(1, 1, 1), mr, mg, mb) != Pixel(1, 1, 1)
  {
    !(mr && mg && mb)
  }

  /** The stages of rebuild before the resize, each run only when its gate
      is open: blur, mask, brightness. */
  function Filtered(g: Grid, bpp: nat, numColors: nat, scale: real, mr: bool, mg: bool, mb: bool,
                    gamma: real, n: Numerics): (f: Grid)
    requires Image(g) && KernelShape(n.kernel, 1)
    ensures Rect(f, Height(g), Width(g))
  {
    var blurred := if BlurActive(bpp, scale) then Blurred(g, n.kernel, 1) else g;
    var masked := if MaskActive(mr, mg, mb) then Masked(blurred, mr, mg, mb) else blurred;
    if BrightnessActive(gamma) then Brightened(masked, gamma, numColors, bpp, n) else masked
  }

  /** The grid rebuild hands to the renderer, given the grid it copied:
      the filtered grid, resized only when a target dimension differs. */
  function Process(g: Grid, bpp: nat, numColors: nat, scale: real, mr: bool, mg: bool, mb: bool,
                   gamma: real, n: Numerics): (out: Grid)
    requires Image(g) && KernelShape(n.kernel, 1)
    ensures Rect(out, TargetDim(Height(g), EffectiveScale(scale)), TargetDim(Width(g), EffectiveScale(scale)))
  {
    var f := Filtered(g, bpp, numColors, scale, mr, mg, mb, gamma, n);
    var s := EffectiveScale(scale);
    var newW := TargetDim(Width(g), s);
    var newH := TargetDim(Height(g), s);
    if newW != Width(g) || newH != Height(g) then Resized(f, newW, newH, s) else f
  }

  /** With the settings render_bmp resets to, the pipeline shows the grid
      exactly as decoded. */
  lemma DefaultsShowGrid(g: Grid, bpp: nat, numColors: nat, n: Numerics)
    requires Image(g) && KernelShape(n.kernel, 1)
    ensures Process(g, bpp, numColors, 1.0, true, true, true, 1.0, n) == g
  {
    assert TargetDim(Height(g), 1.0) == Height(g);
    assert TargetDim(Width(g), 1.0) == Width(g);
  }

  // ---------------------------------------------------------------------
  // The stages on buffers

  /** copy.deepcopy of a decoded grid: a fresh buffer with its pixels. */
  method CopyGrid(g: Grid) returns (a: array2<Pixel>)
    requires Image(g)
    ensures fresh(a) && a.Length0 == Height(g) && a.Length1 == Width(g) && Rows(a) == g
  {
    a := new Pixel[Height(g), Width(g)]((y, x) requires 0 <= y < Height(g) && 0 <= x < Width(g) => g[y][x]);
    RowsAre(a, g);
  }

  /** The r_acc, g_acc, b_acc loops of gaussian_blur for output pixel (y, x). */
  method Accumulate(pixelgrid: array2<Pixel>, kernel: seq<seq<real>>, radius: nat, y: nat, x: nat)
    returns (rAcc: real, gAcc: real, bAcc: real)
    requires pixelgrid.Length0 >= 1 && pixelgrid.Length1 >= 1 && KernelShape(kernel, radius)
    ensures Acc(rAcc, gAcc, bAcc) == KernelAcc(Rows(pixelgrid), kernel, radius, y, x, |kernel|)
  {
    var size := |kernel|;
    var h := pixelgrid.Length0;
    var w := pixelgrid.Length1;
    ghost var g := Rows(pixelgrid);
    rAcc, gAcc, bAcc := 0.0, 0.0, 0.0;
    for j := 0 to size
      invariant Acc(rAcc, gAcc, bAcc) == KernelAcc(g, kernel, radius, y, x, j)
    {
      ghost var before := Acc(rAcc, gAcc, bAcc);
      for i := 0 to size
        invariant Acc(rAcc, gAcc, bAcc) == Plus(before, RowAcc(g, kernel, radius, y, x, j, i))
      {
        var yy := Min(Max(y + j - radius, 0), h - 1);
        var xx := Min(Max(x + i - radius, 0), w - 1);
        var kr := kernel[j][i];
        var p := pixelgrid[yy, xx];
        assert p == Sample(g, radius, y, x, j, i);
        AccumulateStep(before, RowAcc(g, kernel, radius, y, x, j, i), rAcc, gAcc, bAcc, p, kr);
        rAcc := rAcc + p.r as real * kr;
        gAcc := gAcc + p.g as real * kr;
        bAcc := bAcc + p.b as real * kr;
      }
    }
  }

  /** gaussian_blur with the kernel passed in: each output pixel is the
      rounded kernel-weighted sum of its edge-clamped neighbourhood. */
  method GaussianBlur(pixelgrid: array2<Pixel>, kernel: seq<seq<real>>, radius: nat) returns (out: array2<Pixel>)
    requires pixelgrid.Length0 >= 1 && pixelgrid.Length1 >= 1 && KernelShape(kernel, radius)
    ensures fresh(out) && out.Length0 == pixelgrid.Length0 && out.Length1 == pixelgrid.Length1
    ensures Rows(out) == Blurred(Rows(pixelgrid), kernel, radius)
  {
    var size := |kernel|;
    var h := pixelgrid.Length0;
    var w := pixelgrid.Length1;
    ghost var g := Rows(pixelgrid);
    ghost var blurred := Blurred(g, kernel, radius);
    out := new Pixel[h, w]((_, _) => Black);
    for y := 0 to h
      invariant forall yy, xx :: 0 <= yy < y && 0 <= xx < w ==> out[yy, xx] == blurred[yy][xx]
    {
      BlurRow(pixelgrid, out, kernel, radius, y);
    }
    RowsAre(out, blurred);
  }

  /** The inner loop of gaussian_blur: output row y. */
  method BlurRow(pixelgrid: array2<Pixel>, out: array2<Pixel>, kernel: seq<seq<real>>, radius: nat, y: nat)
    requires pixelgrid != out && y < pixelgrid.Length0 && pixelgrid.Length1 >= 1 && KernelShape(kernel, radius)
    requires out.Length0 == pixelgrid.Length0 && out.Length1 == pixelgrid.Length1
    modifies out
    ensures forall yy, xx :: 0 <= yy < out.Length0 && 0 <= xx < out.Length1 && yy != y ==>
              out[yy, xx] == old(out[yy, xx])
    ensures forall xx :: 0 <= xx < out.Length1 ==>
              out[y, xx] == Blurred(Rows(pixelgrid), kernel, radius)[y][xx]
  {
    ghost var blurred := Blurred(Rows(pixelgrid), kernel, radius);
    for x := 0 to out.Length1
      invariant forall yy, xx :: 0 <= yy < out.Length0 && 0 <= xx < out.Length1 && yy != y ==>
                  out[yy, xx] == old(out[yy, xx])
      invariant forall xx :: 0 <= xx < x ==> out[y, xx] == blurred[y][xx]
    {
      var rAcc, gAcc, bAcc := Accumulate(pixelgrid, kernel, radius, y, x);
      out[y, x] := Pixel(Trunc(rAcc + 0.5), Trunc(gAcc + 0.5), Trunc(bAcc + 0.5));
    }
  }

  /** The channel-mask loop of rebuild, in place. */
  method MaskInPlace(src: array2<Pixel>, maskR: bool, maskG: bool, maskB: bool)
    modifies src
    ensures Rows(src) == Masked(old(Rows(src)), maskR, maskG, maskB)
  {
    ghost var before := Rows(src);
    var h, w := src.Length0, src.Length1;
    for y := 0 to h
      invariant forall yy, xx :: 0 <= yy < h && 0 <= xx < w ==>
                  src[yy, xx] == if yy < y then MaskPixel(before[yy][xx], maskR, maskG, maskB) else before[yy][xx]
    {
      for x := 0 to w
        invariant forall yy, xx :: 0 <= yy < h && 0 <= xx < w ==>
                    src[yy, xx] == if yy < y || (yy == y && xx < x) then MaskPixel(before[yy][xx], maskR, maskG, maskB)
                                   else before[yy][xx]
      {
        var p := src[y, x];
        src[y, x] := Pixel(if maskR then p.r else 0, if maskG then p.g else 0, if maskB then p.b else 0);
      }
    }
    RowsAre(src, Masked(before, maskR, maskG, maskB));
  }

  /** The brightness loop of rebuild, in place: YUV or bump, then clamp. */
  method BrightenInPlace(src: array2<Pixel>, gamma: real, numColors: nat, bpp: nat, n: Numerics)
    modifies src
    ensures Rows(src) == Brightened(old(Rows(src)), gamma, numColors, bpp, n)
  {
    ghost var before := Rows(src);
    var brightnessScale := gamma / 1.5;
    var h, w := src.Length0, src.Length1;
    for y := 0 to h
      invariant forall yy, xx :: 0 <= yy < h && 0 <= xx < w ==>
                  src[yy, xx] == if yy < y then Brighten(before[yy][xx], gamma, numColors, bpp, n) else before[yy][xx]
    {
      for x := 0 to w
        invariant forall yy, xx :: 0 <= yy < h && 0 <= xx < w ==>
                    src[yy, xx] == if yy < y || (yy == y && xx < x) then Brighten(before[yy][xx], gamma, numColors, bpp, n)
                                   else before[yy][xx]
      {
        var p := src[y, x];
        var r, g, b := p.r, p.g, p.b;
        if numColors > 2 || bpp != 1 {
          var q := n.yuv(brightnessScale, p);
          r, g, b := q.r, q.g, q.b;
        } else {
          var factor := (brightnessScale - 1.0) * 127.0;
          r := Trunc(r as real + factor);
          g := Trunc(g as real + factor);
          b := Trunc(b as real + factor);
        }
        r := Max(0, Min(255, r));
        g := Max(0, Min(255, g));
        b := Max(0, Min(255, b));
        src[y, x] := Pixel(r, g, b);
      }
    }
    RowsAre(src, Brightened(before, gamma, numColors, bpp, n));
  }

  /** bilinear_resize, given the scale, with the lower indices clamped into
      the source as well (see AxisTaps). */
  method BilinearResize(src: array2<Pixel>, newW: nat, newH: nat, scale: real) returns (out: array2<Pixel>)
    requires src.Length0 >= 1 && src.Length1 >= 1 && scale > 0.0
    ensures fresh(out) && out.Length0 == newH && out.Length1 == newW
    ensures Rows(out) == Resized(Rows(src), newW, newH, scale)
  {
    var srcH := src.Length0;
    ghost var g := Rows(src);
    out := new Pixel[newH, newW]((_, _) => Black);
    var scaleY := scale;
    for yOut := 0 to newH
      invariant forall y, x :: 0 <= y < yOut && 0 <= x < newW ==> out[y, x] == ResizedPixel(g, scale, y, x)
    {
      var srcY := (yOut as real + 0.5) / scaleY - 0.5;
      var y0 := Trunc(srcY);
      var y1 := Min(Max(y0 + 1, 0), srcH - 1);
      var wy := srcY - y0 as real;
      if y0 < 0 { y0 := 0; }
      if y0 > srcH - 1 { y0 := srcH - 1; }
      assert Taps(y0, y1, wy) == AxisTaps(yOut, scale, srcH);
      ResizeRow(src, out, yOut, y0, y1, wy, scale);
    }
    RowsAre(out, Resized(g, newW, newH, scale));
  }

  /** The inner loop of bilinear_resize: output row yOut, from source rows
      y0 and y1 with weight wy on the second. */
  method ResizeRow(src: array2<Pixel>, out: array2<Pixel>, yOut: nat, y0: int, y1: int, wy: real, scale: real)
    requires src != out && src.Length0 >= 1 && src.Length1 >= 1 && scale > 0.0 && yOut < out.Length0
    requires Taps(y0, y1, wy) == AxisTaps(yOut, scale, src.Length0)
    modifies out
    ensures forall y, x :: 0 <= y < out.Length0 && 0 <= x < out.Length1 && y != yOut ==>
              out[y, x] == old(out[y, x])
    ensures forall x :: 0 <= x < out.Length1 ==> out[yOut, x] == ResizedPixel(Rows(src), scale, yOut, x)
  {
    var srcW := src.Length1;
    ghost var g := Rows(src);
    var scaleX := scale;
    for xOut := 0 to out.Length1
      invariant forall y, x :: 0 <= y < out.Length0 && 0 <= x < out.Length1 && y != yOut ==>
                  out[y, x] == old(out[y, x])
      invariant forall x :: 0 <= x < xOut ==> out[yOut, x] == ResizedPixel(g, scale, yOut, x)
    {
      var srcX := (xOut as real + 0.5) / scaleX - 0.5;
      var x0 := Trunc(srcX);
      var x1 := Min(Max(x0 + 1, 0), srcW - 1);
      var wx := srcX - x0 as real;
      if x0 < 0 { x0 := 0; }
      if x0 > srcW - 1 { x0 := srcW - 1; }
      assert Taps(x0, x1, wx) == AxisTaps(xOut, scale, srcW);

      var c00 := src[y0, x0];
      var c10 := src[y0, x1];
      var c01 := src[y1, x0];
      var c11 := src[y1, x1];

      var r := Mix(c00.r, c10.r, c01.r, c11.r, wx, wy);
      var gr := Mix(c00.g, c10.g, c01.g, c11.g, wx, wy);
      var b := Mix(c00.b, c10.b, c01.b, c11.b, wx, wy);
      assert Pixel(r, gr, b) == ResizedPixel(g, scale, yOut, xOut) by {
        assert c00 == g[y0][x0] && c10 == g[y0][x1] && c01 == g[y1][x0] && c11 == g[y1][x1];
      }
      out[yOut, xOut] := Pixel(r, gr, b);
    }
  }

  // ---------------------------------------------------------------------
  // The view

  /** What rebuild copies: the stored grid when there is one, otherwise the
      result of generatePixelGrid. */
  ghost function Decoded(f: BmpFile): (r: Result<Grid>)
    reads f
    requires |f.pixelmap| == 0 ==> InBounds(f.Current())
    ensures |f.pixelmap| > 0 ==> r.Ok?
    ensures |f.pixelmap| == 0 && r.Ok? ==>
              |r.value| == AbsHeight(f.height) && forall y :: 0 <= y < |r.value| ==> |r.value[y]| == f.width
  {
    if |f.pixelmap| > 0 then Ok(f.pixelmap) else PixelGrid(f.Current())
  }

  /** rebuild indexes src[0], so the grid it copies must have a pixel; the
      unpackers' unchecked reads must stay inside the file. */
  ghost predicate Ready(f: BmpFile)
    reads f
  {
    (|f.pixelmap| == 0 ==> InBounds(f.Current())) &&
    (Decoded(f).Ok? ==> Image(Decoded(f).value))
  }

  function RMax(a: real, b: real): real { if a > b then a else b }

  /** class ImageView: the pipeline settings and the image last rendered. */
  class ImageView {
    const numerics: Numerics
    var bmp: BmpFile?
    var scale: real
    var maskR: bool
    var maskG: bool
    var maskB: bool
    var gamma: real
    var image: array2<Pixel>

    /** A view with no file and a black width x height image. */
    constructor (width: nat, height: nat, numerics: Numerics)
      ensures this.numerics == numerics && bmp == null
      ensures scale == 1.0 && maskR && maskG && maskB && gamma == 1.0
      ensures fresh(image) && image.Length0 == height && image.Length1 == width
      ensures Uniform(Rows(image), Black)
    {
      this.numerics := numerics;
      bmp := null;
      scale := 1.0;
      maskR := true;
      maskG := true;
      maskB := true;
      gamma := 1.0;
      image := new Pixel[height, width]((_, _) => Black);
    }

    /** The stages of rebuild between the copy and the resize. */
    method Filter(grid: Grid, bpp: nat, numColors: nat) returns (src: array2<Pixel>)
      requires KernelShape(numerics.kernel, 1) && Image(grid)
      ensures fresh(src) && src.Length0 == Height(grid) && src.Length1 == Width(grid)
      ensures Rows(src) == Filtered(grid, bpp, numColors, scale, maskR, maskG, maskB, gamma, numerics)
    {
      ghost var blurred := if BlurActive(bpp, scale) then Blurred(grid, numerics.kernel, 1) else grid;
      ghost var masked := if MaskActive(maskR, maskG, maskB) then Masked(blurred, maskR, maskG, maskB) else blurred;

      src := CopyGrid(grid);
      if bpp == 1 && scale < 1.0 {
        src := GaussianBlur(src, numerics.kernel, 1);
      }
      assert Rows(src) == blurred;
      if !(maskR && maskG && maskB) {
        MaskInPlace(src, maskR, maskG, maskB);
      }
      assert Rows(src) == masked;
      if Abs(gamma - 1.0) > 0.000001 {
        BrightenInPlace(src, gamma, numColors, bpp, numerics);
      }
    }

    /** The rest of rebuild: fix a non-positive scale, resize when a target
        dimension differs, and hand the result to the renderer. */
    method Render(grid: Grid, bpp: nat, numColors: nat)
      requires KernelShape(numerics.kernel, 1) && Image(grid)
      modifies this`scale, this`image
      ensures scale == EffectiveScale(old(scale)) && fresh(image)
      ensures Rows(image) == Process(grid, bpp, numColors, old(scale), maskR, maskG, maskB, gamma, numerics)
    {
      var src := Filter(grid, bpp, numColors);
      ghost var filtered := Rows(src);
      ghost var expected := Process(grid, bpp, numColors, scale, maskR, maskG, maskB, gamma, numerics);
      if scale <= 0.0 {
        scale := 0.01;
      }
      assert scale == EffectiveScale(old(scale));
      var srcH, srcW := src.Length0, src.Length1;
      var newW := TargetDim(srcW, scale);
      var newH := TargetDim(srcH, scale);
      var out;
      if newW != srcW || newH != srcH {
        out := BilinearResize(src, newW, newH, scale);
        assert Rows(out) == Resized(filtered, newW, newH, scale);
      } else {
        out := src;
      }
      assert Rows(out) == expected;
      image := out;
      assert Rows(image) == expected;
      assert maskR == old(maskR) && maskG == old(maskG) && maskB == old(maskB) && gamma == old(gamma);
      assert expected == Process(grid, bpp, numColors, old(scale), maskR, maskG, maskB, gamma, numerics);
    }

    /** rebuild: copy the decoded grid, run the gated stages, hand the
        result to the renderer (the image field). */
    method Rebuild() returns (outcome: Outcome)
      requires KernelShape(numerics.kernel, 1)
      requires bmp != null ==> Ready(bmp)
      modifies this`scale, this`image, (if bmp == null then {} else {bmp})`pixelmap
      ensures bmp == null ==> outcome == Pass && image == old(image) && scale == old(scale)
      ensures bmp != null && old(Decoded(bmp)).Err? ==>
                outcome == Fail(old(Decoded(bmp)).error) && image == old(image) &&
                scale == old(scale) && bmp.pixelmap == old(bmp.pixelmap)
      ensures bmp != null && old(Decoded(bmp)).Ok? ==>
                outcome == Pass && bmp.pixelmap == old(Decoded(bmp)).value &&
                scale == EffectiveScale(old(scale)) && fresh(image) &&
                Rows(image) == Process(old(Decoded(bmp)).value, bmp.bpp, bmp.numColors, old(scale),
                                       maskR, maskG, maskB, gamma, numerics)
    {
      if bmp == null {
        return Pass;
      }
      var grid: Grid;
      if |bmp.pixelmap| > 0 {
        grid := bmp.pixelmap;
      } else {
        var res := bmp.GeneratePixelGrid();
        if res.Err? {
          return Fail(res.error);
        }
        grid := res.value;
      }
      Render(grid, bmp.bpp, bmp.numColors);
      return Pass;
    }
  
    /** render_bmp: show a new file with the settings reset. */
    method RenderBmp(f: BmpFile?) returns (outcome: Outcome)
      requires KernelShape(numerics.kernel, 1)
      requires f != null ==> Ready(f)
      modifies this`bmp, this`scale, this`maskR, this`maskG, this`maskB, this`gamma, this`image,
               (if f == null then {} else {f})`pixelmap
      ensures bmp == f && scale == 1.0 && maskR && maskG && maskB && gamma == 1.0
      ensures f == null ==> outcome == Pass && image == old(image)
      ensures f != null && old(Decoded(f)).Err? ==>
                outcome == Fail(old(Decoded(f)).error) && image == old(image) &&
                f.pixelmap == old(f.pixelmap)
      ensures f != null && old(Decoded(f)).Ok? ==>
                outcome == Pass && fresh(image) && Rows(image) == old(Decoded(f)).value &&
                f.pixelmap == old(Decoded(f)).value
    {
      bmp := f;
      scale := 1.0;
      maskR, maskG, maskB := true, true, true;
      gamma := 1.0;
      outcome := Rebuild();
      if f != null && old(Decoded(f)).Ok? {
        DefaultsShowGrid(old(Decoded(f)).value, f.bpp, f.numColors, numerics);
      }
    }

    /** set_scale: nothing without a file; otherwise at least 0.01, then rebuild. */
    method SetScale(factor: real) returns (outcome: Outcome)
      requires KernelShape(numerics.kernel, 1)
      requires bmp != null ==> Ready(bmp)
      modifies this`scale, this`image, (if bmp == null then {} else {bmp})`pixelmap
      ensures bmp == null ==> outcome == Pass && scale == old(scale) && image == old(image)
      ensures bmp != null ==> scale == RMax(0.01, factor)
      ensures bmp != null && old(Decoded(bmp)).Err? ==>
                outcome == Fail(old(Decoded(bmp)).error) && image == old(image) &&
                bmp.pixelmap == old(bmp.pixelmap)
      ensures bmp != null && old(Decoded(bmp)).Ok? ==>
                outcome == Pass && fresh(image) && bmp.pixelmap == old(Decoded(bmp)).value &&
                Rows(image) == Process(old(Decoded(bmp)).value, bmp.bpp, bmp.numColors, RMax(0.01, factor),
                                       maskR, maskG, maskB, gamma, numerics)
    {
      if bmp == null {
        return Pass;
      }
      scale := RMax(0.01, factor);
      outcome := Rebuild();
    }

    /** set_rgb_mask: nothing without a file; otherwise store the flags, then rebuild. */
    method SetRgbMask(red: bool, green: bool, blue: bool) returns (outcome: Outcome)
      requires KernelShape(numerics.kernel, 1)
      requires bmp != null ==> Ready(bmp)
      modifies this`maskR, this`maskG, this`maskB, this`scale, this`image,
               (if bmp == null then {} else {bmp})`pixelmap
      ensures bmp == null ==> outcome == Pass && maskR == old(maskR) && maskG == old(maskG) &&
                              maskB == old(maskB) && scale == old(scale) && image == old(image)
      ensures bmp != null ==> maskR == red && maskG == green && maskB == blue
      ensures bmp != null && old(Decoded(bmp)).Err? ==>
                outcome == Fail(old(Decoded(bmp)).error) && image == old(image) &&
                scale == old(scale) && bmp.pixelmap == old(bmp.pixelmap)
      ensures bmp != null && old(Decoded(bmp)).Ok? ==>
                outcome == Pass && fresh(image) && scale == EffectiveScale(old(scale)) &&
                bmp.pixelmap == old(Decoded(bmp)).value &&
                Rows(image) == Process(old(Decoded(bmp)).value, bmp.bpp, bmp.numColors, old(scale),
                                       red, green, blue, gamma, numerics)
    {
      if bmp == null {
        return Pass;
      }
      maskR, maskG, maskB := red, green, blue;
      outcome := Rebuild();
    }

    /** set_gamma: nothing without a file; otherwise at least 0.01, then rebuild. */
    method SetGamma(gammaValue: real) returns (outcome: Outcome)
      requires KernelShape(numerics.kernel, 1)
      requires bmp != null ==> Ready(bmp)
      modifies this`gamma, this`scale, this`image, (if bmp == null then {} else {bmp})`pixelmap
      ensures bmp == null ==> outcome == Pass && gamma == old(gamma) && scale == old(scale) &&
                              image == old(image)
      ensures bmp != null ==> gamma == RMax(0.01, gammaValue)
      ensures bmp != null && old(Decoded(bmp)).Err? ==>
                outcome == Fail(old(Decoded(bmp)).error) && image == old(image) &&
                scale == old(scale) && bmp.pixelmap == old(bmp.pixelmap)
      ensures bmp != null && old(Decoded(bmp)).Ok? ==>
                outcome == Pass && fresh(image) && scale == EffectiveScale(old(scale)) &&
                bmp.pixelmap == old(Decoded(bmp)).value &&
                Rows(image) == Process(old(Decoded(bmp)).value, bmp.bpp, bmp.numColors, old(scale),
                                       maskR, maskG, maskB, RMax(0.01, gammaValue), numerics)
    {
      if bmp == null {
        return Pass;
      }
      gamma := RMax(0.01, gammaValue);
      outcome := Rebuild();
    }
  }
}
