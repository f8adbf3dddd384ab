/** The two-image compositing operators, one pixel and one channel at a time. */
module Compositing {
  import opened Pixels
  import opened Arith

  /** The operators that combine an image with a second image of the same shape. */
  datatype BlendOp =
    | CompositeOver | AlphaMask | Multiply | Screen | Overlay | Darken | Lighten
    | Add(scale: real) | Subtract | Difference | Average | Max | Min

  /** `a * b / 255` lies between 0 and the smaller factor. */
  lemma ScaledProduct(a: Channel, b: Channel)
    ensures 0 <= a * b / 255 <= a && a * b / 255 <= b
  {
    DivMod(a * b, 255);
    MulLe(b, 255, a);
    MulLe(a, 255, b);
  }

  /** `a * b / 255`: never brighter than either input, and 255 is its identity. */
  function MultiplyChannel(a: Channel, b: Channel): (c: Channel)
    ensures c <= a && c <= b
    ensures b == 255 ==> c == a
    ensures b == 0 ==> c == 0
  {
    ScaledProduct(a, b);
    a * b / 255
  }

  /** `255 - (255 - a) * (255 - b) / 255`: never darker than either input, and 0 is its identity. */
  function ScreenChannel(a: Channel, b: Channel): (c: Channel)
    ensures c >= a && c >= b
    ensures b == 0 ==> c == a
    ensures b == 255 ==> c == 255
  {
    ScaledProduct(255 - a, 255 - b);
    255 - (255 - a) * (255 - b) / 255
  }

  /** Multiply below 128, screen from 128 on, decided by the channel's own value. */
  function OverlayChannel(a: Channel, b: Channel): (c: Channel)
    ensures a < 128 ==> c <= a
    ensures a >= 128 ==> c >= a
  {
    if a < 128 then MultiplyChannel(a, b) else ScreenChannel(a, b)
  }

  /** `std::min` of two channels. */
  function MinChannel(a: Channel, b: Channel): (c: Channel)
    ensures c <= a && c <= b && (c == a || c == b)
  {
    if b < a then b else a
  }

  /** `std::max` of two channels. */
  function MaxChannel(a: Channel, b: Channel): (c: Channel)
    ensures c >= a && c >= b && (c == a || c == b)
  {
    if a < b then b else a
  }

  /** `a + scale * b` clamped into [0, 255] and truncated. With the default scale 1 it is
      the sum saturated at 255; a positive scale never darkens, a negative one never
      brightens. */
  function AddChannel(a: Channel, b: Channel, scale: real): (c: Channel)
    ensures scale == 1.0 ==> c >= b && (a + b <= 255 ==> c == a + b) && (a + b > 255 ==> c == 255)
    ensures scale >= 0.0 ==> c >= a
    ensures scale <= 0.0 ==> c <= a
    ensures scale == 0.0 ==> c == a
  {
    RealMulSign(scale, b as real);
    ToChannel(a as real + scale * b as real)
  }

  /** The difference clamped into [0, 255]: zero exactly when `a <= b`. */
  function SubtractChannel(a: Channel, b: Channel): (c: Channel)
    ensures c == 0 <==> a <= b
    ensures a >= b ==> c == a - b
    ensures c <= a
  {
    Clamp(a - b)
  }

  /** `std::abs(a - b)`: zero exactly when the channels agree. */
  function DifferenceChannel(a: Channel, b: Channel): (c: Channel)
    ensures c == 0 <==> a == b
    ensures c == a - b || c == b - a
  {
    if a < b then b - a else a - b
  }

  /** `(a + b) / 2` with integer truncation: between the two inputs. */
  function AverageChannel(a: Channel, b: Channel): (c: Channel)
    ensures MinChannel(a, b) <= c <= MaxChannel(a, b)
    ensures 2 * c <= a + b <= 2 * c + 1
  {
    (a + b) / 2
  }

  /** `c * alpha + bg * (1 - alpha)` in `int`, then narrowed to `unsigned char`.
      The alpha byte is used unscaled: only 0 and 1 give the foreground/background mix. */
  function CompositeOverChannel(c: Channel, bg: Channel, alpha: Channel): (o: Channel)
    ensures alpha == 0 ==> o == bg
    ensures alpha == 1 ==> o == c
  {
    Wrap(c * alpha + bg * (1 - alpha))
  }

  /** The per-channel rule of each operator that only touches r, g and b. */
  function ChannelOp(op: BlendOp, a: Channel, b: Channel): Channel
    requires op != CompositeOver && op != AlphaMask
  {
    match op
    case Multiply => MultiplyChannel(a, b)
    case Screen => ScreenChannel(a, b)
    case Overlay => OverlayChannel(a, b)
    case Darken => MinChannel(a, b)
    case Lighten => MaxChannel(a, b)
    case Add(scale) => AddChannel(a, b, scale)
    case Subtract => SubtractChannel(a, b)
    case Difference => DifferenceChannel(a, b)
    case Average => AverageChannel(a, b)
    case Max => MaxChannel(a, b)
    case Min => MinChannel(a, b)
  }

  /** What the operator writes into pixel `p` of the left image, given pixel `q` of the other.
      Only the alpha mask touches alpha, and it touches nothing else. */
  function ApplyOp(op: BlendOp, p: Pixel, q: Pixel): (o: Pixel)
    ensures op != AlphaMask ==> o.a == p.a
    ensures op == AlphaMask ==> o.r == p.r && o.g == p.g && o.b == p.b && o.a == q.r
  {
    match op
    case CompositeOver =>
      Pixel(CompositeOverChannel(p.r, q.r, p.a), CompositeOverChannel(p.g, q.g, p.a),
            CompositeOverChannel(p.b, q.b, p.a), p.a)
    case AlphaMask => p.(a := q.r)
    case _ => Pixel(ChannelOp(op, p.r, q.r), ChannelOp(op, p.g, q.g), ChannelOp(op, p.b, q.b), p.a)
  }

  /** The left image after the operator has visited every pixel. */
  function CompositeGrid(op: BlendOp, g: Grid, o: Grid, h: nat, w: nat): Grid
    requires IsGrid(g, h, w) && IsGrid(o, h, w)
  {
    seq(h, y requires 0 <= y < h => seq(w, x requires 0 <= x < w => ApplyOp(op, g[y][x], o[y][x])))
  }

  /** The operator pairs that the source implements twice with the same body. */
  lemma {:induction false} DuplicateOperators(g: Grid, o: Grid, h: nat, w: nat)
    requires IsGrid(g, h, w) && IsGrid(o, h, w)
    ensures CompositeGrid(Darken, g, o, h, w) == CompositeGrid(Min, g, o, h, w)
    ensures CompositeGrid(Lighten, g, o, h, w) == CompositeGrid(Max, g, o, h, w)
  {
    GridExt(CompositeGrid(Darken, g, o, h, w), CompositeGrid(Min, g, o, h, w), h, w);
    GridExt(CompositeGrid(Lighten, g, o, h, w), CompositeGrid(Max, g, o, h, w), h, w);
  }

  /** Operators whose result does not depend on which image is on the left. */
  predicate Symmetric(op: BlendOp) {
    op in {Multiply, Screen, Darken, Lighten, Add(1.0), Difference, Average, Max, Min}
  }

  /** For every symmetric operator, swapping the operands changes nothing
      (`A.average(B) == B.average(A)` and its siblings), alpha aside. */
  lemma {:induction false} SymmetricOperatorsCommute(op: BlendOp, p: Pixel, q: Pixel)
    requires Symmetric(op)
    ensures ApplyOp(op, p, q) == ApplyOp(op, q, p).(a := p.a)
  {
    match op
    case Multiply =>
      assert p.r * q.r == q.r * p.r && p.g * q.g == q.g * p.g && p.b * q.b == q.b * p.b;
    case Screen =>
      assert (255 - p.r) * (255 - q.r) == (255 - q.r) * (255 - p.r);
      assert (255 - p.g) * (255 - q.g) == (255 - q.g) * (255 - p.g);
      assert (255 - p.b) * (255 - q.b) == (255 - q.b) * (255 - p.b);
    case _ =>
  }

  /** Compositing an image with itself by difference or subtract blacks out r, g and b
      and keeps alpha: a uniform {128,128,128,255} image becomes {0,0,0,255}. */
  lemma {:induction false} SelfCancellation(g: Grid, h: nat, w: nat)
    requires IsGrid(g, h, w)
    ensures forall y, x :: 0 <= y < h && 0 <= x < w ==>
      CompositeGrid(Difference, g, g, h, w)[y][x] == Pixel(0, 0, 0, g[y][x].a) &&
      CompositeGrid(Subtract, g, g, h, w)[y][x] == Pixel(0, 0, 0, g[y][x].a)
  {
  }

  /** With a fully transparent foreground pixel, composite-over yields the background's
      r, g and b; with alpha exactly 1 it yields the foreground. */
  lemma CompositeOverExtremes(p: Pixel, q: Pixel)
    ensures p.a == 0 ==> ApplyOp(CompositeOver, p, q) == q.(a := 0)
    ensures p.a == 1 ==> ApplyOp(CompositeOver, p, q) == p
  {
  }

  /** An opaque byte alpha of 255 does not select the foreground: the channel becomes
      `(2 * bg - c) mod 256`, so a red 200 over a red 10 comes out as 76. */
  lemma {:induction false} CompositeOverOpaque(c: Channel, bg: Channel)
    ensures CompositeOverChannel(c, bg, 255) == (2 * bg - c) % 256
    ensures CompositeOverChannel(200, 10, 255) == 76
  {
    assert c * 255 + bg * (1 - 255) == (2 * bg - c) + (c - bg) * 256;
    ModShift(2 * bg - c, c - bg, 256);
  }
}
