/** The integer tone operations: invert and brightness. */
module Tone {
  import opened Pixels

  /** Each of r, g, b becomes `255 - c`; alpha is kept. */
  function InvertPixel(p: Pixel): (o: Pixel)
    ensures o.a == p.a
    ensures o.r + p.r == 255 && o.g + p.g == 255 && o.b + p.b == 255
  {
    Pixel(255 - p.r, 255 - p.g, 255 - p.b, p.a)
  }

  function InvertGrid(g: Grid, h: nat, w: nat): Grid
    requires IsGrid(g, h, w)
  {
    seq(h, y requires 0 <= y < h => seq(w, x requires 0 <= x < w => InvertPixel(g[y][x])))
  }

  /** Inverting twice gives back the image. */
  lemma {:induction false} InvertInvolution(g: Grid, h: nat, w: nat)
    requires IsGrid(g, h, w)
    ensures InvertGrid(InvertGrid(g, h, w), h, w) == g
  {
    GridExt(InvertGrid(InvertGrid(g, h, w), h, w), g, h, w);
  }

  /** Each of r, g, b is shifted by `offset` and clamped into [0, 255]; alpha is kept. */
  function BrightnessPixel(p: Pixel, offset: int): (o: Pixel)
    ensures o.a == p.a
  {
    Pixel(Clamp(p.r + offset), Clamp(p.g + offset), Clamp(p.b + offset), p.a)
  }

  function BrightnessGrid(g: Grid, h: nat, w: nat, offset: int): Grid
    requires IsGrid(g, h, w)
  {
    seq(h, y requires 0 <= y < h => seq(w, x requires 0 <= x < w => BrightnessPixel(g[y][x], offset)))
  }

  /** A zero offset changes nothing. */
  lemma {:induction false} BrightnessZero(g: Grid, h: nat, w: nat)
    requires IsGrid(g, h, w)
    ensures BrightnessGrid(g, h, w, 0) == g
  {
    GridExt(BrightnessGrid(g, h, w, 0), g, h, w);
  }

  /** Two offsets of the same sign add up: clamping in between loses nothing. */
  lemma {:induction false} BrightnessCompose(g: Grid, h: nat, w: nat, d1: int, d2: int)
    requires IsGrid(g, h, w)
    requires (d1 >= 0 && d2 >= 0) || (d1 <= 0 && d2 <= 0)
    ensures BrightnessGrid(BrightnessGrid(g, h, w, d1), h, w, d2) == BrightnessGrid(g, h, w, d1 + d2)
  {
    GridExt(BrightnessGrid(BrightnessGrid(g, h, w, d1), h, w, d2), BrightnessGrid(g, h, w, d1 + d2), h, w);
  }
}
