/** The convolution engine: what `applyKernel` computes for each pixel, with zero padding. */
module Convolution {
  import opened Pixels
  import opened Sums
  import opened Kernels

  /** The three channels that are filtered; alpha never is. */
  datatype Color = Red | Green | Blue

  function Chan(p: Pixel, c: Color): Channel {
    match c
    case Red => p.r
    case Green => p.g
    case Blue => p.b
  }

  /** The pixel that stands in for every sample outside the grid: opaque black. */
  const Padding := Pixel(0, 0, 0, 255)

  /** The pixel at (y, x), or the padding pixel when (y, x) is off the grid. */
  function Sample(g: Grid, y: int, x: int): Pixel {
    if 0 <= y < |g| && 0 <= x < |g[y]| then g[y][x] else Padding
  }

  /** The accumulated term for kernel cell (i, j) at output (y, x): the weight times the
      sample at `(y + i - n / 2, x + j - cx)`. `n` bounds both kernel loops and `cx` is
      the column offset of the kernel's centre. */
  function Tap(g: Grid, k: Kernel, n: nat, cx: int, y: int, x: int, c: Color): (int, int) -> real {
    (i, j) => Weight(k, i, j) * Chan(Sample(g, y + i - n / 2, x + j - cx), c) as real
  }

  /** One step of the kernel loops: adding cell (i, j)'s weighted sample to the three running
      totals extends each row-major sum by its tap (i, j). */
  lemma TapStep(g: Grid, k: Kernel, n: nat, cx: int, y: int, x: int, i: nat, j: nat,
                weight: real, sample: Pixel, r: real, gr: real, b: real)
    requires weight == Weight(k, i, j) && sample == Sample(g, y + i - n / 2, x + j - cx)
    requires r == GridSum(Tap(g, k, n, cx, y, x, Red), i, n) + RowSum(Tap(g, k, n, cx, y, x, Red), i, j)
    requires gr == GridSum(Tap(g, k, n, cx, y, x, Green), i, n) + RowSum(Tap(g, k, n, cx, y, x, Green), i, j)
    requires b == GridSum(Tap(g, k, n, cx, y, x, Blue), i, n) + RowSum(Tap(g, k, n, cx, y, x, Blue), i, j)
    ensures r + weight * sample.r as real
         == GridSum(Tap(g, k, n, cx, y, x, Red), i, n) + RowSum(Tap(g, k, n, cx, y, x, Red), i, j + 1)
    ensures gr + weight * sample.g as real
         == GridSum(Tap(g, k, n, cx, y, x, Green), i, n) + RowSum(Tap(g, k, n, cx, y, x, Green), i, j + 1)
    ensures b + weight * sample.b as real
         == GridSum(Tap(g, k, n, cx, y, x, Blue), i, n) + RowSum(Tap(g, k, n, cx, y, x, Blue), i, j + 1)
  {
    assert Tap(g, k, n, cx, y, x, Red)(i, j) == weight * sample.r as real;
    assert Tap(g, k, n, cx, y, x, Green)(i, j) == weight * sample.g as real;
    assert Tap(g, k, n, cx, y, x, Blue)(i, j) == weight * sample.b as real;
  }

  /** The output pixel at (y, x): each of r, g, b is its weighted sum, clamped and
      truncated, and alpha is the source pixel's own. */
  function FilteredPixel(g: Grid, k: Kernel, n: nat, cx: int, y: int, x: int): (p: Pixel)
    requires 0 <= y < |g| && 0 <= x < |g[y]|
  {
    Pixel(ToChannel(GridSum(Tap(g, k, n, cx, y, x, Red), n, n)),
          ToChannel(GridSum(Tap(g, k, n, cx, y, x, Green), n, n)),
          ToChannel(GridSum(Tap(g, k, n, cx, y, x, Blue), n, n)),
          g[y][x].a)
  }

  /** The whole output image. Every sample is taken from `g`, the image as it was
      before the pass; none is taken from an already filtered pixel. */
  function Filtered(g: Grid, h: nat, w: nat, k: Kernel, n: nat, cx: int): Grid
    requires IsGrid(g, h, w)
  {
    seq(h, y requires 0 <= y < h => seq(w, x requires 0 <= x < w => FilteredPixel(g, k, n, cx, y, x)))
  }

  /** Filtering keeps the size and copies every alpha value unchanged. */
  lemma {:induction false} FilteredKeepsShapeAndAlpha(g: Grid, h: nat, w: nat, k: Kernel, n: nat, cx: int)
    requires IsGrid(g, h, w)
    ensures IsGrid(Filtered(g, h, w, k, n, cx), h, w)
    ensures forall y, x :: 0 <= y < h && 0 <= x < w ==> Filtered(g, h, w, k, n, cx)[y][x].a == g[y][x].a
  {
  }

  /** A pixel whose three weighted sums are its own channel values comes out unchanged. */
  lemma FilteredPixelKeeps(g: Grid, k: Kernel, n: nat, cx: int, y: int, x: int)
    requires 0 <= y < |g| && 0 <= x < |g[y]|
    requires GridSum(Tap(g, k, n, cx, y, x, Red), n, n) == g[y][x].r as real
    requires GridSum(Tap(g, k, n, cx, y, x, Green), n, n) == g[y][x].g as real
    requires GridSum(Tap(g, k, n, cx, y, x, Blue), n, n) == g[y][x].b as real
    ensures FilteredPixel(g, k, n, cx, y, x) == g[y][x]
  {
    assert ToChannel(g[y][x].r as real) == g[y][x].r;
    assert ToChannel(g[y][x].g as real) == g[y][x].g;
    assert ToChannel(g[y][x].b as real) == g[y][x].b;
  }

  /** Under the identity kernel each output pixel is the input pixel. */
  lemma IdentityPixel(g: Grid, y: int, x: int)
    requires 0 <= y < |g| && 0 <= x < |g[y]|
    ensures FilteredPixel(g, GetKernel(Default), 3, 1, y, x) == g[y][x]
  {
    var k := GetKernel(Default);
    DefaultWeights();
    forall c: Color
      ensures GridSum(Tap(g, k, 3, 1, y, x, c), 3, 3) == Chan(g[y][x], c) as real
    {
      GridSumSingle(Tap(g, k, 3, 1, y, x, c), 3, 3, 1, 1);
      assert Sample(g, y, x) == g[y][x];
      assert Weight(k, 1, 1) == 1.0;
      assert Tap(g, k, 3, 1, y, x, c)(1, 1) == Chan(g[y][x], c) as real;
    }
    assert Chan(g[y][x], Red) == g[y][x].r && Chan(g[y][x], Green) == g[y][x].g && Chan(g[y][x], Blue) == g[y][x].b;
    FilteredPixelKeeps(g, k, 3, 1, y, x);
  }

  /** A pass that reproduces every pixel reproduces the image. */
  lemma FilteredKeepsAll(g: Grid, h: nat, w: nat, k: Kernel, n: nat, cx: int)
    requires IsGrid(g, h, w)
    requires forall y, x :: 0 <= y < h && 0 <= x < w ==> FilteredPixel(g, k, n, cx, y, x) == g[y][x]
    ensures Filtered(g, h, w, k, n, cx) == g
  {
    GridExt(Filtered(g, h, w, k, n, cx), g, h, w);
  }

  /** The identity kernel leaves every pixel as it was. */
  lemma {:induction false} IdentityKernel(g: Grid, h: nat, w: nat)
    requires IsGrid(g, h, w)
    ensures Filtered(g, h, w, GetKernel(Default), 3, 1) == g
  {
    forall y, x | 0 <= y < h && 0 <= x < w
      ensures FilteredPixel(g, GetKernel(Default), 3, 1, y, x) == g[y][x]
    {
      IdentityPixel(g, y, x);
    }
    FilteredKeepsAll(g, h, w, GetKernel(Default), 3, 1);
  }

  lemma {:induction false} BoxBlurSingleChannel(g: Grid, c: Color)
    requires IsGrid(g, 1, 1)
    ensures GridSum(Tap(g, GetKernel(BoxBlur), 3, 1, 0, 0, c), 3, 3) == Chan(g[0][0], c) as real
  {
    var f := Tap(g, GetKernel(BoxBlur), 3, 1, 0, 0, c);
    forall u, v | 0 <= u < 3 && 0 <= v < 3 && (u != 1 || v != 1)
      ensures f(u, v) == 0.0
    {
      assert Sample(g, u - 1, v - 1) == Padding;
      assert Chan(Padding, c) == 0;
      assert f(u, v) == Weight(GetKernel(BoxBlur), u, v) * Chan(Sample(g, u - 1, v - 1), c) as real;
    }
    GridSumSingle(f, 3, 3, 1, 1);
    assert Sample(g, 0, 0) == g[0][0];
    assert Weight(GetKernel(BoxBlur), 1, 1) == 1.0;
  }

  lemma BoxBlurSingleCentre(g: Grid)
    requires IsGrid(g, 1, 1)
    ensures forall y, x :: 0 <= y < 1 && 0 <= x < 1 ==> FilteredPixel(g, GetKernel(BoxBlur), 3, 1, y, x) == g[y][x]
  {
    BoxBlurSingleChannel(g, Red);
    BoxBlurSingleChannel(g, Green);
    BoxBlurSingleChannel(g, Blue);
    assert Chan(g[0][0], Red) == g[0][0].r && Chan(g[0][0], Green) == g[0][0].g && Chan(g[0][0], Blue) == g[0][0].b;
    FilteredPixelKeeps(g, GetKernel(BoxBlur), 3, 1, 0, 0);
  }

  /** A 1x1 image under the unnormalized box blur keeps its colour: the eight padded
      samples add nothing and the real one has weight 1. */
  lemma {:induction false} BoxBlurSinglePixel(g: Grid)
    requires IsGrid(g, 1, 1)
    ensures Filtered(g, 1, 1, GetKernel(BoxBlur), 3, 1) == g
  {
    BoxBlurSingleCentre(g);
    FilteredKeepsAll(g, 1, 1, GetKernel(BoxBlur), 3, 1);
  }

  /** Away from the border, the normalized box blur maps a uniform image to itself. */
  lemma {:induction false} NormalizedBoxBlurUniform(g: Grid, h: nat, w: nat, p: Pixel, y: int, x: int)
    requires IsGrid(g, h, w)
    requires forall i, j :: 0 <= i < h && 0 <= j < w ==> g[i][j] == p
    requires 1 <= y < h - 1 && 1 <= x < w - 1
    ensures FilteredPixel(g, Normalized(GetKernel(BoxBlur)), 3, 1, y, x) == p
  {
    var box := GetKernel(BoxBlur);
    CatalogSums(BoxBlur);
    var k := Normalized(box);
    assert k == Divided(box, 9.0);
    forall c: Color
      ensures GridSum(Tap(g, k, 3, 1, y, x, c), 3, 3) == Chan(p, c) as real
    {
      var v := Chan(p, c) as real;
      forall i, j | 0 <= i < 3 && 0 <= j < 3
        ensures Tap(g, k, 3, 1, y, x, c)(i, j) == v / 9.0
      {
        assert Sample(g, y + i - 1, x + j - 1) == p;
      }
      GridSumConst(Tap(g, k, 3, 1, y, x, c), 3, 3, v / 9.0);
    }
  }

  /** The dynamic overload with a one-row kernel `[a, b, c]`: its loops stop at the row
      count, so only `a` is used, and the centre offset of 1 column shifts the sample left. */
  lemma {:induction false} OneRowKernel(g: Grid, h: nat, w: nat, a: real, b: real, c: real, y: int, x: int)
    requires IsGrid(g, h, w) && 0 <= y < h && 0 <= x < w
    ensures FilteredPixel(g, [[a, b, c]], 1, 1, y, x).r == ToChannel(a * Sample(g, y, x - 1).r as real)
  {
    var k := [[a, b, c]];
    assert Weight(k, 0, 0) == a;
    var f := Tap(g, k, 1, 1, y, x, Red);
    assert f(0, 0) == a * Sample(g, y, x - 1).r as real;
    GridSumSingle(f, 1, 1, 0, 0);
  }
}
