/** The byte layouts on both sides of the image codec: the RGBA buffer the decoder
    hands over, and the packed buffer given to the encoder. */
module Packing {
  import opened Pixels
  import opened Arith

  datatype ImageFormat = PNG | JPG | BMP

  /** The channel layouts, numbered by how many channels they hold. */
  datatype ColorChannel = Invalid | G | GA | RGB | RGBA

  /** The enumerator's integer value. */
  function ChannelValue(c: ColorChannel): nat {
    match c
    case Invalid => 0
    case G => 1
    case GA => 2
    case RGB => 3
    case RGBA => 4
  }

  /** PNG keeps alpha; JPG and BMP are written as RGB. */
  function ChannelCount(format: ImageFormat): (c: ColorChannel)
    ensures c == RGBA <==> format == PNG
    ensures c == RGB <==> format != PNG
    ensures ChannelValue(c) == if format == PNG then 4 else 3
  {
    match format
    case PNG => RGBA
    case JPG => RGB
    case BMP => RGB
  }

  /** The bytes one pixel contributes to the packed buffer. */
  function PixelBytes(p: Pixel, c: ColorChannel): (b: seq<Channel>)
    ensures |b| == BytesPerPixel(c)
  {
    if c == RGB then [p.r, p.g, p.b]
    else if c == RGBA then [p.r, p.g, p.b, p.a]
    else []
  }

  function BytesPerPixel(c: ColorChannel): nat {
    if c == RGB then 3 else if c == RGBA then 4 else 0
  }

  /** The first `n` pixels of a row, packed left to right. */
  function PackRow(row: seq<Pixel>, n: nat, c: ColorChannel): seq<Channel>
    requires n <= |row|
  {
    if n == 0 then [] else PackRow(row, n - 1, c) + PixelBytes(row[n - 1], c)
  }

  /** `count` blocks of `size` bytes laid end to end span this many bytes; `Span(j, size)`
      is also where block `j` starts. */
  function Span(count: nat, size: nat): nat {
    if count == 0 then 0 else Span(count - 1, size) + size
  }

  lemma {:induction false} SpanIsProduct(count: nat, size: nat)
    ensures Span(count, size) == count * size
  {
    if count > 0 {
      SpanIsProduct(count - 1, size);
      assert (count - 1) * size + size == count * size;
    }
  }

  lemma {:induction false} SpanLe(i: nat, m: nat, size: nat)
    requires i <= m
    ensures Span(i, size) <= Span(m, size)
  {
    if i < m {
      SpanLe(i, m - 1, size);
    }
  }

  /** The blocks of `bs` laid end to end. */
  function Concat<T>(bs: seq<seq<T>>): seq<T> {
    if |bs| == 0 then [] else Concat(bs[..|bs| - 1]) + bs[|bs| - 1]
  }

  /** In `a + b`, with `a` made of `m` blocks of `s` entries and `b` one more block,
      block `j` is the `j`-th block of `a`, or `b` itself when `j == m`. */
  lemma BlockAt<T>(a: seq<T>, b: seq<T>, m: nat, s: nat, j: nat)
    requires |a| == Span(m, s) && |b| == s && j <= m
    ensures Span(j, s) + s <= |a + b|
    ensures j < m ==> Span(j, s) + s <= |a| && (a + b)[Span(j, s) .. Span(j, s) + s] == a[Span(j, s) .. Span(j, s) + s]
    ensures j == m ==> (a + b)[Span(j, s) .. Span(j, s) + s] == b
  {
    if j < m {
      SpanLe(j + 1, m, s);
    }
  }

  /** Blocks of `s` entries each, laid end to end, span `Span(|bs|, s)` entries. */
  lemma {:induction false} ConcatLength<T>(bs: seq<seq<T>>, s: nat)
    requires forall i :: 0 <= i < |bs| ==> |bs[i]| == s
    ensures |Concat(bs)| == Span(|bs|, s)
  {
    if |bs| > 0 {
      ConcatLength(bs[..|bs| - 1], s);
    }
  }

  /** Block `j` of equal-sized blocks laid end to end starts at `Span(j, s)`. */
  lemma {:induction false} ConcatAt<T>(bs: seq<seq<T>>, s: nat, j: nat)
    requires forall i :: 0 <= i < |bs| ==> |bs[i]| == s
    requires j < |bs|
    ensures Span(j, s) + s <= |Concat(bs)| && Concat(bs)[Span(j, s) .. Span(j, s) + s] == bs[j]
  {
    var m := |bs| - 1;
    var init := bs[..m];
    assert Concat(bs) == Concat(init) + bs[m];
    ConcatLength(init, s);
    BlockAt(Concat(init), bs[m], m, s, j);
    if j < m {
      ConcatAt(init, s, j);
      assert init[j] == bs[j];
    }
  }

  /** The bytes of the first `n` pixels of a row, one block per pixel. */
  function PixelBlocks(row: seq<Pixel>, n: nat, c: ColorChannel): (bs: seq<seq<Channel>>)
    requires n <= |row|
    ensures |bs| == n
  {
    seq(n, i requires 0 <= i < n => PixelBytes(row[i], c))
  }

  lemma {:induction false} PackRowIsConcat(row: seq<Pixel>, n: nat, c: ColorChannel)
    requires n <= |row|
    ensures PackRow(row, n, c) == Concat(PixelBlocks(row, n, c))
  {
    if n > 0 {
      PackRowIsConcat(row, n - 1, c);
      assert PixelBlocks(row, n, c)[..n - 1] == PixelBlocks(row, n - 1, c);
    }
  }

  /** A packed row of `n` pixels spans `n` blocks of the pixel size. */
  lemma PackRowLength(row: seq<Pixel>, n: nat, c: ColorChannel)
    requires n <= |row|
    ensures |PackRow(row, n, c)| == Span(n, BytesPerPixel(c))
  {
    PackRowIsConcat(row, n, c);
    ConcatLength(PixelBlocks(row, n, c), BytesPerPixel(c));
  }

  /** The first `n` rows of a `_ x w` grid, packed top to bottom. */
  function PackRows(g: Grid, n: nat, w: nat, c: ColorChannel): seq<Channel>
    requires n <= |g| && forall y :: 0 <= y < |g| ==> |g[y]| == w
  {
    if n == 0 then [] else PackRows(g, n - 1, w, c) + PackRow(g[n - 1], w, c)
  }

  /** The packed first `n` rows of a grid, one block per row. */
  function RowBlocks(g: Grid, n: nat, w: nat, c: ColorChannel): (bs: seq<seq<Channel>>)
    requires n <= |g| && forall y :: 0 <= y < |g| ==> |g[y]| == w
    ensures |bs| == n
  {
    seq(n, i requires 0 <= i < n => PackRow(g[i], w, c))
  }

  lemma {:induction false} PackRowsIsConcat(g: Grid, n: nat, w: nat, c: ColorChannel)
    requires n <= |g| && forall y :: 0 <= y < |g| ==> |g[y]| == w
    ensures PackRows(g, n, w, c) == Concat(RowBlocks(g, n, w, c))
  {
    if n > 0 {
      PackRowsIsConcat(g, n - 1, w, c);
      assert RowBlocks(g, n, w, c)[..n - 1] == RowBlocks(g, n - 1, w, c);
    }
  }

  /** Every packed row of a `_ x w` grid spans `Span(w, k)` bytes. */
  lemma RowBlockSizes(g: Grid, n: nat, w: nat, c: ColorChannel)
    requires n <= |g| && forall y :: 0 <= y < |g| ==> |g[y]| == w
    ensures forall i :: 0 <= i < n ==> |RowBlocks(g, n, w, c)[i]| == Span(w, BytesPerPixel(c))
  {
    forall i | 0 <= i < n
      ensures |RowBlocks(g, n, w, c)[i]| == Span(w, BytesPerPixel(c))
    {
      PackRowLength(g[i], w, c);
    }
  }

  /** `n` packed rows span `n` blocks of one packed row's size. */
  lemma PackRowsLength(g: Grid, n: nat, w: nat, c: ColorChannel)
    requires n <= |g| && forall y :: 0 <= y < |g| ==> |g[y]| == w
    ensures |PackRows(g, n, w, c)| == Span(n, Span(w, BytesPerPixel(c)))
  {
    PackRowsIsConcat(g, n, w, c);
    RowBlockSizes(g, n, w, c);
    ConcatLength(RowBlocks(g, n, w, c), Span(w, BytesPerPixel(c)));
  }

  /** `packPixelData`: the whole grid, row-major, in the format's channel layout. */
  function Packed(g: Grid, w: nat, h: nat, format: ImageFormat): seq<Channel>
    requires IsGrid(g, h, w)
  {
    PackRows(g, h, w, ChannelCount(format))
  }

  lemma PixelBlockAt(row: seq<Pixel>, n: nat, c: ColorChannel, j: nat)
    requires j < n <= |row|
    ensures Span(j, BytesPerPixel(c)) + BytesPerPixel(c) <= |Concat(PixelBlocks(row, n, c))|
    ensures Concat(PixelBlocks(row, n, c))[Span(j, BytesPerPixel(c)) .. Span(j, BytesPerPixel(c)) + BytesPerPixel(c)]
         == PixelBytes(row[j], c)
  {
    var bs := PixelBlocks(row, n, c);
    ConcatAt(bs, BytesPerPixel(c), j);
    assert bs[j] == PixelBytes(row[j], c);
  }

  /** Pixel `j` of a packed row is block `j`. */
  lemma PackRowAt(row: seq<Pixel>, n: nat, c: ColorChannel, j: nat)
    requires j < n <= |row|
    ensures Span(j, BytesPerPixel(c)) + BytesPerPixel(c) <= |PackRow(row, n, c)|
    ensures PackRow(row, n, c)[Span(j, BytesPerPixel(c)) .. Span(j, BytesPerPixel(c)) + BytesPerPixel(c)]
         == PixelBytes(row[j], c)
  {
    PackRowIsConcat(row, n, c);
    PixelBlockAt(row, n, c, j);
  }

  lemma RowBlockAt(g: Grid, n: nat, w: nat, c: ColorChannel, y: nat)
    requires y < n <= |g| && forall i :: 0 <= i < |g| ==> |g[i]| == w
    ensures Span(y, Span(w, BytesPerPixel(c))) + Span(w, BytesPerPixel(c)) <= |Concat(RowBlocks(g, n, w, c))|
    ensures Concat(RowBlocks(g, n, w, c))[Span(y, Span(w, BytesPerPixel(c))) .. Span(y, Span(w, BytesPerPixel(c))) + Span(w, BytesPerPixel(c))]
         == PackRow(g[y], w, c)
  {
    var bs := RowBlocks(g, n, w, c);
    RowBlockSizes(g, n, w, c);
    ConcatAt(bs, Span(w, BytesPerPixel(c)), y);
    assert bs[y] == PackRow(g[y], w, c);
  }

  /** Row `y` of a packed grid is block `y`, blocks being one packed row long. */
  lemma PackRowsAt(g: Grid, n: nat, w: nat, c: ColorChannel, y: nat)
    requires y < n <= |g| && forall i :: 0 <= i < |g| ==> |g[i]| == w
    ensures Span(y, Span(w, BytesPerPixel(c))) + Span(w, BytesPerPixel(c)) <= |PackRows(g, n, w, c)|
    ensures PackRows(g, n, w, c)[Span(y, Span(w, BytesPerPixel(c))) .. Span(y, Span(w, BytesPerPixel(c))) + Span(w, BytesPerPixel(c))]
         == PackRow(g[y], w, c)
  {
    PackRowsIsConcat(g, n, w, c);
    RowBlockAt(g, n, w, c, y);
  }

  lemma PixelOffset(y: nat, x: nat, w: nat, k: nat)
    requires x < w
    ensures 0 <= y * (w * k) && 0 <= x * k
    ensures (y * w + x) * k == y * (w * k) + x * k
    ensures x * k + k <= w * k
  {
    MulLe(x + 1, w, k);
    calc {
      (y * w + x) * k;
      y * w * k + x * k;
      y * (w * k) + x * k;
    }
  }

  lemma SliceOfSlice<T>(a: seq<T>, lo: nat, hi: nat, i: nat, j: nat)
    requires lo <= hi <= |a| && i <= j <= hi - lo
    ensures a[lo .. hi][i .. j] == a[lo + i .. lo + j]
  {
    var b := a[lo .. hi];
    forall t | 0 <= t < j - i
      ensures b[i .. j][t] == a[lo + i .. lo + j][t]
    {
      assert b[i .. j][t] == b[i + t];
      assert b[i + t] == a[lo + i + t];
    }
  }

  /** A piece of a piece: `px` at `ps` in `row`, which is at `rs` in `raw`, is at
      `o == rs + ps` in `raw`. */
  lemma NestedSlice<T>(raw: seq<T>, row: seq<T>, px: seq<T>, rs: nat, rlen: nat, ps: nat, plen: nat, o: nat)
    requires rs + rlen <= |raw| && raw[rs .. rs + rlen] == row
    requires ps + plen <= |row| && row[ps .. ps + plen] == px
    requires o == rs + ps
    ensures o + plen <= |raw| && raw[o .. o + plen] == px
  {
    SliceOfSlice(raw, rs, rs + rlen, ps, ps + plen);
  }

  /** Pixel (y, x) of a packed grid occupies the `k` bytes from `(y * w + x) * k`. */
  lemma PackRowsPixelAt(g: Grid, n: nat, w: nat, c: ColorChannel, y: nat, x: nat)
    requires y < n <= |g| && forall i :: 0 <= i < |g| ==> |g[i]| == w
    requires x < w
    ensures (y * w + x) * BytesPerPixel(c) + BytesPerPixel(c) <= |PackRows(g, n, w, c)|
    ensures PackRows(g, n, w, c)[(y * w + x) * BytesPerPixel(c) .. (y * w + x) * BytesPerPixel(c) + BytesPerPixel(c)]
         == PixelBytes(g[y][x], c)
  {
    var k := BytesPerPixel(c);
    PackRowsAt(g, n, w, c, y);
    PackRowAt(g[y], w, c, x);
    PackRowLength(g[y], w, c);
    SpanIsProduct(w, k);
    SpanIsProduct(x, k);
    SpanIsProduct(y, Span(w, k));
    PixelOffset(y, x, w, k);
    NestedSlice(PackRows(g, n, w, c), PackRow(g[y], w, c), PixelBytes(g[y][x], c),
                Span(y, Span(w, k)), Span(w, k), Span(x, k), k, (y * w + x) * k);
  }

  /** The packed buffer holds `width * height` pixels of 4 bytes for PNG, and of 3 bytes
      (alpha dropped) for JPG and BMP. */
  lemma PackedLength(g: Grid, w: nat, h: nat, format: ImageFormat)
    requires IsGrid(g, h, w)
    ensures |Packed(g, w, h, format)| == h * w * (if format == PNG then 4 else 3)
  {
    var k := BytesPerPixel(ChannelCount(format));
    assert k == if format == PNG then 4 else 3;
    PackRowsLength(g, h, w, ChannelCount(format));
    SpanIsProduct(w, k);
    SpanIsProduct(h, Span(w, k));
    Regroup(h, w, k);
  }

  lemma Regroup(h: nat, w: nat, k: nat)
    ensures h * (w * k) == h * w * k && h * w * k == w * h * k
  {
  }

  /** Pixel (y, x) occupies the `n` bytes from `(y * width + x) * n`: r, g, b and, for PNG
      only, a. */
  lemma PackedLayout(g: Grid, w: nat, h: nat, format: ImageFormat, y: nat, x: nat)
    requires IsGrid(g, h, w) && y < h && x < w
    ensures var n := if format == PNG then 4 else 3;
      && (y * w + x) * n + n <= |Packed(g, w, h, format)|
      && Packed(g, w, h, format)[(y * w + x) * n .. (y * w + x) * n + n] ==
           if format == PNG then [g[y][x].r, g[y][x].g, g[y][x].b, g[y][x].a]
           else [g[y][x].r, g[y][x].g, g[y][x].b]
  {
    PackRowsPixelAt(g, h, w, ChannelCount(format), y, x);
  }

  /** Pushing pixel `x`'s bytes after the first `x` packed pixels packs `x + 1` of them. */
  lemma AppendPixel(before: seq<Channel>, row: seq<Pixel>, x: nat, c: ColorChannel)
    requires x < |row|
    ensures before + PackRow(row, x, c) + PixelBytes(row[x], c) == before + PackRow(row, x + 1, c)
  {
    assert PackRow(row, x + 1, c) == PackRow(row, x, c) + PixelBytes(row[x], c);
  }

  /** `packPixelData`: push each pixel's bytes row by row. */
  method PackPixelData(pixels: Grid, width: nat, height: nat, format: ImageFormat) returns (rawData: seq<Channel>)
    requires IsGrid(pixels, height, width)
    ensures rawData == Packed(pixels, width, height, format)
  {
    var colorChannel := ChannelCount(format);
    rawData := [];
    for y := 0 to height
      invariant rawData == PackRows(pixels, y, width, colorChannel)
    {
      ghost var before := rawData;
      ghost var row := pixels[y];
      assert |row| == width;
      for x := 0 to width
        invariant rawData == before + PackRow(row, x, colorChannel)
      {
        var pixel := pixels[y][x];
        ghost var prev := rawData;
        if colorChannel == RGB {
          rawData := rawData + [pixel.r, pixel.g, pixel.b];
        }
        if colorChannel == RGBA {
          rawData := rawData + [pixel.r, pixel.g, pixel.b, pixel.a];
        }
        assert rawData == prev + PixelBytes(pixel, colorChannel);
        AppendPixel(before, row, x, colorChannel);
      }
    }
  }

  /** What the decoder hands over: the image's sides, the file's own channel count, and
      the pixels as 4 bytes each (RGBA), row-major. */
  datatype Decoded = Decoded(width: nat, height: nat, channels: nat, data: seq<Channel>)

  predicate WellFormed(d: Decoded) {
    |d.data| == d.width * d.height * 4
  }

  lemma PixelIndexInRange(h: nat, w: nat, y: int, x: int)
    requires 0 <= y < h && 0 <= x < w
    ensures 0 <= (y * w + x) * 4 && (y * w + x) * 4 + 3 < w * h * 4
  {
    MulLe(y + 1, h, w);
    assert (y + 1) * w == y * w + w;
  }

  /** The pixel whose four bytes start at `i`. */
  function PixelAt(data: seq<Channel>, i: nat): Pixel
    requires i + 3 < |data|
  {
    Pixel(data[i], data[i + 1], data[i + 2], data[i + 3])
  }

  /** The unpacking loop of `loadImage`: pixel (y, x) is read from byte `(y * w + x) * 4`. */
  function Unpacked(data: seq<Channel>, h: nat, w: nat): Grid
    requires |data| == w * h * 4
  {
    seq(h, y requires 0 <= y < h =>
      seq(w, x requires 0 <= x < w =>
        PixelIndexInRange(h, w, y, x);
        PixelAt(data, (y * w + x) * 4)))
  }

  /** Unpacking reads pixel (y, x) from the four bytes at `(y * w + x) * 4`. */
  lemma UnpackedAt(data: seq<Channel>, h: nat, w: nat, y: nat, x: nat)
    requires |data| == w * h * 4 && y < h && x < w
    ensures (y * w + x) * 4 + 3 < |data|
    ensures Unpacked(data, h, w)[y][x] == PixelAt(data, (y * w + x) * 4)
  {
    PixelIndexInRange(h, w, y, x);
  }

  /** Four bytes r, g, b, a at `i` read back as the pixel they came from. */
  lemma PixelAtBytes(data: seq<Channel>, i: nat, p: Pixel)
    requires i + 4 <= |data| && data[i .. i + 4] == [p.r, p.g, p.b, p.a]
    ensures PixelAt(data, i) == p
  {
    assert data[i] == data[i .. i + 4][0];
    assert data[i + 1] == data[i .. i + 4][1];
    assert data[i + 2] == data[i .. i + 4][2];
    assert data[i + 3] == data[i .. i + 4][3];
  }

  /** The four bytes that unpacking reads for pixel (y, x) are the ones packing wrote for it. */
  lemma UnpackPackedAt(g: Grid, w: nat, h: nat, y: nat, x: nat)
    requires IsGrid(g, h, w) && y < h && x < w
    ensures |Packed(g, w, h, PNG)| == w * h * 4
    ensures Unpacked(Packed(g, w, h, PNG), h, w)[y][x] == g[y][x]
  {
    var raw := Packed(g, w, h, PNG);
    PackedLength(g, w, h, PNG);
    Regroup(h, w, 4);
    PackRowsPixelAt(g, h, w, RGBA, y, x);
    UnpackedAt(raw, h, w, y, x);
    PixelAtBytes(raw, (y * w + x) * 4, g[y][x]);
  }

  /** Unpacking the PNG packing of an image gives the image back. */
  lemma {:induction false} UnpackPacked(g: Grid, w: nat, h: nat)
    requires IsGrid(g, h, w)
    ensures |Packed(g, w, h, PNG)| == w * h * 4
    ensures Unpacked(Packed(g, w, h, PNG), h, w) == g
  {
    var raw := Packed(g, w, h, PNG);
    PackedLength(g, w, h, PNG);
    Regroup(h, w, 4);
    var u := Unpacked(raw, h, w);
    forall y, x | 0 <= y < h && 0 <= x < w
      ensures u[y][x] == g[y][x]
    {
      UnpackPackedAt(g, w, h, y, x);
    }
    GridExt(u, g, h, w);
  }
}
