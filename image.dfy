/** The `ImageData` class: an image whose pixel grid and sides its operations change in place. */
module Images {
  import opened Errors
  import opened Pixels
  import opened Packing
  import opened Tone
  import opened Geometry
  import opened Compositing
  import opened Kernels
  import opened Sums
  import opened Convolution

  class ImageData {
    var width: int
    var height: int
    /** The channel count the decoder reported for the file; the grid always holds RGBA. */
    var channels: int
    var pixels: Grid

    /** The grid has `height` rows of `width` pixels. */
    ghost predicate Valid()
      reads this
    {
      0 <= width && 0 <= height && IsGrid(pixels, height, width)
    }

    /** A default-constructed image: no pixels at all. */
    constructor ()
      ensures Valid()
      ensures width == 0 && height == 0 && channels == 0 && pixels == []
    {
      width := 0;
      height := 0;
      channels := 0;
      pixels := [];
    }

    method GetPixel(y: int, x: int) returns (p: Pixel)
      requires Valid() && 0 <= y < height && 0 <= x < width
      ensures p == pixels[y][x]
    {
      p := pixels[y][x];
    }

    /** Replaces the pixel at (y, x) and nothing else. */
    method SetPixel(y: int, x: int, pixel: Pixel)
      requires Valid() && 0 <= y < height && 0 <= x < width
      modifies this
      ensures Valid() && width == old(width) && height == old(height) && channels == old(channels)
      ensures pixels[y][x] == pixel
      ensures forall i, j :: 0 <= i < height && 0 <= j < width && (i != y || j != x) ==>
                pixels[i][j] == old(pixels[i][j])
    {
      pixels := pixels[y := pixels[y][x := pixel]];
    }

    /** `pixels.resize(h, row)`: the first rows are kept, new rows are `w` default pixels. */
    static function Resized(g: Grid, h: nat, w: nat): (r: Grid)
      ensures |r| == h
      ensures forall y :: 0 <= y < h && y < |g| ==> r[y] == g[y]
      ensures forall y, x :: |g| <= y < h && 0 <= x < |r[y]| ==> r[y][x] == Zero
      ensures (forall y :: 0 <= y < |g| ==> |g[y]| == w) ==> IsGrid(r, h, w)
    {
      seq(h, y requires 0 <= y < h => if y < |g| then g[y] else seq(w, _ => Zero))
    }

    /** The pixel loops of `loadImage`: over the resized rows, pixel (y, x) is overwritten
        with the four bytes at `(y * w + x) * 4`. */
    static method UnpackRows(rows: Grid, data: seq<Channel>, h: nat, w: nat) returns (grid: Grid)
      requires IsGrid(rows, h, w) && |data| == w * h * 4
      ensures IsGrid(grid, h, w) && grid == Unpacked(data, h, w)
    {
      grid := rows;
      ghost var target := Unpacked(data, h, w);
      for y := 0 to h
        invariant PassedUpTo(grid, target, rows, h, w, y, 0)
      {
        for x := 0 to w
          invariant PassedUpTo(grid, target, rows, h, w, y, x)
        {
          UnpackedAt(data, h, w, y, x);
          var index := (y * w + x) * 4;
          PassStep(grid, target, rows, h, w, y, x, Pixel(data[index], data[index + 1], data[index + 2], data[index + 3]));
          grid := grid[y := grid[y][x := Pixel(data[index], data[index + 1], data[index + 2], data[index + 3])]];
        }
        PassNextRow(grid, target, rows, h, w, y);
      }
      PassDone(grid, target, rows, h, w);
    }

    /** `loadImage`, given what the decoder returned for the file (nothing on failure).
        On success the sides and channel count come from the file and pixel (y, x) is
        read from bytes `(y * width + x) * 4` onwards. */
    method LoadImage(decoded: Option<Decoded>) returns (s: Outcome)
      requires Valid()
      requires decoded.Some? ==> WellFormed(decoded.value)
      requires decoded.Some? ==> height == 0 || width == decoded.value.width
      modifies this
      ensures Valid()
      ensures s.Fail? <==> decoded.None?
      ensures s.Fail? ==> s.error == RuntimeError("Failed to load image") && unchanged(this)
      ensures s.Pass? ==>
        && width == decoded.value.width && height == decoded.value.height
        && channels == decoded.value.channels
        && pixels == Unpacked(decoded.value.data, height, width)
    {
      if decoded.None? {
        return Fail(RuntimeError("Failed to load image"));
      }
      var data := decoded.value.data;
      width, height, channels := decoded.value.width, decoded.value.height, decoded.value.channels;
      pixels := UnpackRows(Resized(pixels, height, width), data, height, width);
      return Pass;
    }

    /** `invert`: every pixel becomes its inverse, row by row. */
    method Invert()
      requires Valid()
      modifies this
      ensures Valid() && width == old(width) && height == old(height) && channels == old(channels)
      ensures pixels == InvertGrid(old(pixels), height, width)
    {
      ghost var g := pixels;
      ghost var target := InvertGrid(g, height, width);
      for y := 0 to height
        invariant width == old(width) && height == old(height) && channels == old(channels)
        invariant PassedUpTo(pixels, target, g, height, width, y, 0)
      {
        for x := 0 to width
          invariant width == old(width) && height == old(height) && channels == old(channels)
          invariant PassedUpTo(pixels, target, g, height, width, y, x)
        {
          var pixel := pixels[y][x];
          PassStep(pixels, target, g, height, width, y, x, Pixel(255 - pixel.r, 255 - pixel.g, 255 - pixel.b, pixel.a));
          pixels := pixels[y := pixels[y][x := Pixel(255 - pixel.r, 255 - pixel.g, 255 - pixel.b, pixel.a)]];
        }
        PassNextRow(pixels, target, g, height, width, y);
      }
      PassDone(pixels, target, g, height, width);
    }

    /** `brightness(offset)`: every r, g, b shifted by `offset` and clamped. */
    method Brightness(offset: int)
      requires Valid()
      modifies this
      ensures Valid() && width == old(width) && height == old(height) && channels == old(channels)
      ensures pixels == BrightnessGrid(old(pixels), height, width, offset)
    {
      ghost var g := pixels;
      ghost var target := BrightnessGrid(g, height, width, offset);
      for y := 0 to height
        invariant width == old(width) && height == old(height) && channels == old(channels)
        invariant PassedUpTo(pixels, target, g, height, width, y, 0)
      {
        for x := 0 to width
          invariant width == old(width) && height == old(height) && channels == old(channels)
          invariant PassedUpTo(pixels, target, g, height, width, y, x)
        {
          var pixel := pixels[y][x];
          PassStep(pixels, target, g, height, width, y, x, Pixel(Clamp(pixel.r + offset), Clamp(pixel.g + offset), Clamp(pixel.b + offset), pixel.a));
          pixels := pixels[y := pixels[y][x := Pixel(Clamp(pixel.r + offset), Clamp(pixel.g + offset), Clamp(pixel.b + offset), pixel.a)]];
        }
        PassNextRow(pixels, target, g, height, width, y);
      }
      PassDone(pixels, target, g, height, width);
    }

    /** `flipH`: in each row, swap the pixels at x and `width - x - 1` for x below `width / 2`. */
    method FlipH()
      requires Valid()
      modifies this
      ensures Valid() && width == old(width) && height == old(height) && channels == old(channels)
      ensures pixels == FlipHGrid(old(pixels), height, width)
    {
      ghost var g := pixels;
      for y := 0 to height
        invariant width == old(width) && height == old(height) && channels == old(channels)
        invariant FlipHPartial(g, pixels, height, width, y, 0)
      {
        for x := 0 to width / 2
          invariant width == old(width) && height == old(height) && channels == old(channels)
          invariant FlipHPartial(g, pixels, height, width, y, x)
        {
          var left, right := pixels[y][x], pixels[y][width - x - 1];
          FlipHSwap(g, pixels, height, width, y, x, left, right);
          pixels := pixels[y := pixels[y][x := right][width - x - 1 := left]];
        }
        FlipHNextRow(g, pixels, height, width, y);
      }
      FlipHDone(g, pixels, height, width);
    }

    /** `flipV`: swap rows y and `height - y - 1` pixel by pixel, for y below `height / 2`. */
    method FlipV()
      requires Valid()
      modifies this
      ensures Valid() && width == old(width) && height == old(height) && channels == old(channels)
      ensures pixels == FlipVGrid(old(pixels), height, width)
    {
      ghost var g := pixels;
      for y := 0 to height / 2
        invariant width == old(width) && height == old(height) && channels == old(channels)
        invariant FlipVPartial(g, pixels, height, width, y, 0)
      {
        for x := 0 to width
          invariant width == old(width) && height == old(height) && channels == old(channels)
          invariant FlipVPartial(g, pixels, height, width, y, x)
        {
          var top, bottom := pixels[y][x], pixels[height - y - 1][x];
          FlipVSwap(g, pixels, height, width, y, x, top, bottom);
          pixels := pixels[y := pixels[y][x := bottom]];
          pixels := pixels[height - y - 1 := pixels[height - y - 1][x := top]];
        }
        FlipVNextRow(g, pixels, height, width, y);
      }
      FlipVDone(g, pixels, height, width);
    }

    /** `rotateR`: pixel (y, x) moves to (x, height - y - 1) of a fresh `width x height`
        grid, and the sides are swapped. */
    method RotateR()
      requires Valid()
      modifies this
      ensures Valid() && width == old(height) && height == old(width) && channels == old(channels)
      ensures pixels == RotateRGrid(old(pixels), old(height), old(width))
    {
      var w, h := width, height;
      var rotated: Grid := seq(w, _ => seq(h, _ => Zero));
      for y := 0 to height
        invariant IsGrid(rotated, width, height)
        invariant forall i, j :: 0 <= i < width && 0 <= j < height ==>
                    rotated[i][j] == if height - 1 - j < y then pixels[height - 1 - j][i] else Zero
      {
        for x := 0 to width
          invariant IsGrid(rotated, width, height)
          invariant forall i, j :: 0 <= i < width && 0 <= j < height ==>
                      rotated[i][j] == if height - 1 - j < y || (height - 1 - j == y && i < x)
                                       then pixels[height - 1 - j][i] else Zero
        {
          rotated := rotated[x := rotated[x][height - y - 1 := pixels[y][x]]];
        }
      }
      GridExt(rotated, RotateRGrid(pixels, height, width), width, height);
      pixels := rotated;
      width, height := height, width;
    }

    /** `rotateL`: pixel (y, x) moves to (width - x - 1, y) of a fresh `width x height`
        grid, and the sides are swapped. */
    method RotateL()
      requires Valid()
      modifies this
      ensures Valid() && width == old(height) && height == old(width) && channels == old(channels)
      ensures pixels == RotateLGrid(old(pixels), old(height), old(width))
    {
      var w, h := width, height;
      var rotated: Grid := seq(w, _ => seq(h, _ => Zero));
      for y := 0 to height
        invariant IsGrid(rotated, width, height)
        invariant forall i, j {:trigger rotated[i][j]} :: 0 <= i < width && 0 <= j < height ==>
                    rotated[i][j] == if j < y then pixels[j][w - 1 - i] else Zero
      {
        for x := 0 to width
          invariant IsGrid(rotated, width, height)
          invariant forall i, j {:trigger rotated[i][j]} :: 0 <= i < width && 0 <= j < height ==>
                      rotated[i][j] == if j < y || (j == y && i > w - 1 - x)
                                       then pixels[j][w - 1 - i] else Zero
        {
          rotated := rotated[width - x - 1 := rotated[width - x - 1][y := pixels[y][x]]];
        }
      }
      GridExt(rotated, RotateLGrid(pixels, height, width), width, height);
      pixels := rotated;
      width, height := height, width;
    }

    /** `resize(w, h)`: fails unless both sides are in [1, 4096]; otherwise output (y, x)
        samples the source at `(int)(y * yRatio)`, `(int)(x * xRatio)`, where the ratios
        are the old sides over the new ones. */
    method Resize(w: int, h: int) returns (s: Outcome)
      requires Valid()
      requires 0 < w <= MaxSize && 0 < h <= MaxSize ==> 0 < width && 0 < height
      modifies this
      ensures Valid() && channels == old(channels)
      ensures s.Fail? <==> w <= 0 || w > MaxSize || h <= 0 || h > MaxSize
      ensures s.Fail? ==> s.error == InvalidArgument("Invalid input") && unchanged(this)
      ensures s.Pass? ==> width == w && height == h && pixels == ResizeGrid(old(pixels), old(height), old(width), h, w)
    {
      if w <= 0 || w > MaxSize || h <= 0 || h > MaxSize {
        return Fail(InvalidArgument("Invalid input"));
      }
      var resized: Grid := seq(h, _ => seq(w, _ => Zero));
      var xRatio := width as real / w as real;
      var yRatio := height as real / h as real;
      ghost var target := ResizeGrid(pixels, height, width, h, w);
      for y := 0 to h
        invariant unchanged(this)
        invariant IsGrid(resized, h, w)
        invariant forall i, j {:trigger resized[i][j]} :: 0 <= i < h && 0 <= j < w ==>
                    resized[i][j] == if i < y then target[i][j] else Zero
      {
        for x := 0 to w
          invariant unchanged(this)
        invariant IsGrid(resized, h, w)
          invariant forall i, j {:trigger resized[i][j]} :: 0 <= i < h && 0 <= j < w ==>
                      resized[i][j] == if i < y || (i == y && j < x) then target[i][j] else Zero
        {
          ResizeSampleAt(pixels, height, width, h, w, y, x, yRatio, xRatio);
          var srcX := (x as real * xRatio).Floor;
          var srcY := (y as real * yRatio).Floor;
          resized := resized[y := resized[y][x := pixels[srcY][srcX]]];
        }
      }
      GridExt(resized, target, h, w);
      pixels := resized;
      width := w;
      height := h;
      return Pass;
    }

    /** `crop(x, y, w, h)`: fails on an origin outside [0, width] x [0, height]; otherwise
        keeps the `h' x w'` block from (y, x), with `w`, `h` cut back to what remains. */
    method Crop(x: int, y: int, w: int, h: int) returns (s: Outcome)
      requires Valid() && 0 <= w && 0 <= h
      modifies this
      ensures Valid() && channels == old(channels)
      ensures CropGrid(old(pixels), old(height), old(width), x, y, w, h)
           == if s.Pass? then Ok(Cropped(pixels, width, height)) else Err(s.error)
      ensures s.Fail? ==> unchanged(this)
    {
      if x < 0 || x > width {
        return Fail(InvalidArgument("Invalid input"));
      }
      if y < 0 || y > height {
        return Fail(InvalidArgument("Invalid input"));
      }
      var w', h' := w, h;
      if x + w' > width {
        w' := width - x;
      }
      if y + h' > height {
        h' := height - y;
      }
      var cropped: Grid := seq(h', _ => seq(w', _ => Zero));
      for i := 0 to h'
        invariant IsGrid(cropped, h', w')
        invariant forall a, b :: 0 <= a < h' && 0 <= b < w' ==>
                    cropped[a][b] == if a < i then pixels[y + a][x + b] else Zero
      {
        for j := 0 to w'
          invariant IsGrid(cropped, h', w')
          invariant forall a, b :: 0 <= a < h' && 0 <= b < w' ==>
                      cropped[a][b] == if a < i || (a == i && b < j) then pixels[y + a][x + b] else Zero
        {
          cropped := cropped[i := cropped[i][j := pixels[y + i][x + j]]];
        }
      }
      ghost var expected := CropGrid(pixels, height, width, x, y, w, h).value;
      GridExt(cropped, expected.grid, h', w');
      pixels := cropped;
      width, height := w', h';
      return Pass;
    }

    /** The loop every compositing operation shares: after the size check, each pixel of
        this image is combined with the pixel at the same place in `other`, row by row.
        `other` may be this image itself: each step reads only the place it writes, which
        has not been written yet. */
    method Combine(op: BlendOp, other: ImageData, verb: string) returns (s: Outcome)
      requires Valid() && other.Valid()
      modifies this
      ensures Valid() && width == old(width) && height == old(height) && channels == old(channels)
      ensures s.Pass? <==> old(other.width) == width && old(other.height) == height
      ensures s.Fail? ==> s.error == InvalidArgument("Images must be the same dimensions to " + verb) && pixels == old(pixels)
      ensures s.Pass? ==> pixels == CompositeGrid(op, old(pixels), old(other.pixels), height, width)
    {
      if width != other.width || height != other.height {
        return Fail(InvalidArgument("Images must be the same dimensions to " + verb));
      }
      ghost var g, o := pixels, other.pixels;
      for y := 0 to height
        invariant width == old(width) && height == old(height) && channels == old(channels)
        invariant other != this ==> other.pixels == o
        invariant IsGrid(pixels, height, width)
        invariant forall i, j {:trigger pixels[i][j]} :: 0 <= i < height && 0 <= j < width ==>
                    pixels[i][j] == if i < y then ApplyOp(op, g[i][j], o[i][j]) else g[i][j]
      {
        for x := 0 to width
          invariant width == old(width) && height == old(height) && channels == old(channels)
          invariant other != this ==> other.pixels == o
          invariant IsGrid(pixels, height, width)
          invariant forall i, j {:trigger pixels[i][j]} :: 0 <= i < height && 0 <= j < width ==>
                      pixels[i][j] == if i < y || (i == y && j < x) then ApplyOp(op, g[i][j], o[i][j]) else g[i][j]
        {
          var pixel := pixels[y][x];
          var otherPixel := other.pixels[y][x];
          pixels := pixels[y := pixels[y][x := ApplyOp(op, pixel, otherPixel)]];
        }
      }
      GridExt(pixels, CompositeGrid(op, g, o, height, width), height, width);
      return Pass;
    }

    /** `compositeOver`: each r, g, b becomes `c * a + bg * (1 - a)` with the pixel's own alpha byte, cast to a byte. */
    method CompositeOver(background: ImageData) returns (s: Outcome)
      requires Valid() && background.Valid()
      modifies this
      ensures Valid() && width == old(width) && height == old(height) && channels == old(channels)
      ensures s.Pass? <==> old(background.width) == width && old(background.height) == height
      ensures s.Fail? ==> s.error == InvalidArgument("Images must be the same dimensions to composite") && pixels == old(pixels)
      ensures s.Pass? ==> pixels == CompositeGrid(BlendOp.CompositeOver, old(pixels), old(background.pixels), height, width)
    {
      s := Combine(BlendOp.CompositeOver, background, "composite");
    }

    /** `applyAlphaMask`: each alpha becomes the red channel of the mask pixel. */
    method ApplyAlphaMask(mask: ImageData) returns (s: Outcome)
      requires Valid() && mask.Valid()
      modifies this
      ensures Valid() && width == old(width) && height == old(height) && channels == old(channels)
      ensures s.Pass? <==> old(mask.width) == width && old(mask.height) == height
      ensures s.Fail? ==> s.error == InvalidArgument("Images must be the same dimensions to apply alpha mask") && pixels == old(pixels)
      ensures s.Pass? ==> pixels == CompositeGrid(BlendOp.AlphaMask, old(pixels), old(mask.pixels), height, width)
    {
      s := Combine(BlendOp.AlphaMask, mask, "apply alpha mask");
    }

    /** `multiply`: each r, g, b becomes `a * b / 255`. */
    method Multiply(other: ImageData) returns (s: Outcome)
      requires Valid() && other.Valid()
      modifies this
      ensures Valid() && width == old(width) && height == old(height) && channels == old(channels)
      ensures s.Pass? <==> old(other.width) == width && old(other.height) == height
      ensures s.Fail? ==> s.error == InvalidArgument("Images must be the same dimensions to multiply") && pixels == old(pixels)
      ensures s.Pass? ==> pixels == CompositeGrid(BlendOp.Multiply, old(pixels), old(other.pixels), height, width)
    {
      s := Combine(BlendOp.Multiply, other, "multiply");
    }

    /** `screen`: each r, g, b becomes `255 - (255 - a) * (255 - b) / 255`. */
    method Screen(other: ImageData) returns (s: Outcome)
      requires Valid() && other.Valid()
      modifies this
      ensures Valid() && width == old(width) && height == old(height) && channels == old(channels)
      ensures s.Pass? <==> old(other.width) == width && old(other.height) == height
      ensures s.Fail? ==> s.error == InvalidArgument("Images must be the same dimensions to screen") && pixels == old(pixels)
      ensures s.Pass? ==> pixels == CompositeGrid(BlendOp.Screen, old(pixels), old(other.pixels), height, width)
    {
      s := Combine(BlendOp.Screen, other, "screen");
    }

    /** `overlay`: multiply for channels below 128, screen for the rest. */
    method Overlay(other: ImageData) returns (s: Outcome)
      requires Valid() && other.Valid()
      modifies this
      ensures Valid() && width == old(width) && height == old(height) && channels == old(channels)
      ensures s.Pass? <==> old(other.width) == width && old(other.height) == height
      ensures s.Fail? ==> s.error == InvalidArgument("Images must be the same dimensions to overlay") && pixels == old(pixels)
      ensures s.Pass? ==> pixels == CompositeGrid(BlendOp.Overlay, old(pixels), old(other.pixels), height, width)
    {
      s := Combine(BlendOp.Overlay, other, "overlay");
    }

    /** `darken`: each r, g, b becomes the smaller of the two. */
    method Darken(other: ImageData) returns (s: Outcome)
      requires Valid() && other.Valid()
      modifies this
      ensures Valid() && width == old(width) && height == old(height) && channels == old(channels)
      ensures s.Pass? <==> old(other.width) == width && old(other.height) == height
      ensures s.Fail? ==> s.error == InvalidArgument("Images must be the same dimensions to darken") && pixels == old(pixels)
      ensures s.Pass? ==> pixels == CompositeGrid(BlendOp.Darken, old(pixels), old(other.pixels), height, width)
    {
      s := Combine(BlendOp.Darken, other, "darken");
    }

    /** `lighten`: each r, g, b becomes the larger of the two. */
    method Lighten(other: ImageData) returns (s: Outcome)
      requires Valid() && other.Valid()
      modifies this
      ensures Valid() && width == old(width) && height == old(height) && channels == old(channels)
      ensures s.Pass? <==> old(other.width) == width && old(other.height) == height
      ensures s.Fail? ==> s.error == InvalidArgument("Images must be the same dimensions to lighten") && pixels == old(pixels)
      ensures s.Pass? ==> pixels == CompositeGrid(BlendOp.Lighten, old(pixels), old(other.pixels), height, width)
    {
      s := Combine(BlendOp.Lighten, other, "lighten");
    }

    /** `add`: each r, g, b becomes `pixel + scale * other`, clamped and truncated. */
    method Add(other: ImageData, scale: real := 1.0) returns (s: Outcome)
      requires Valid() && other.Valid()
      modifies this
      ensures Valid() && width == old(width) && height == old(height) && channels == old(channels)
      ensures s.Pass? <==> old(other.width) == width && old(other.height) == height
      ensures s.Fail? ==> s.error == InvalidArgument("Images must be the same dimensions to add") && pixels == old(pixels)
      ensures s.Pass? ==> pixels == CompositeGrid(BlendOp.Add(scale), old(pixels), old(other.pixels), height, width)
    {
      s := Combine(BlendOp.Add(scale), other, "add");
    }

    /** `subtract`: each r, g, b becomes the difference, saturated at 0. */
    method Subtract(other: ImageData) returns (s: Outcome)
      requires Valid() && other.Valid()
      modifies this
      ensures Valid() && width == old(width) && height == old(height) && channels == old(channels)
      ensures s.Pass? <==> old(other.width) == width && old(other.height) == height
      ensures s.Fail? ==> s.error == InvalidArgument("Images must be the same dimensions to subtract") && pixels == old(pixels)
      ensures s.Pass? ==> pixels == CompositeGrid(BlendOp.Subtract, old(pixels), old(other.pixels), height, width)
    {
      s := Combine(BlendOp.Subtract, other, "subtract");
    }

    /** `difference`: each r, g, b becomes the absolute difference. */
    method Difference(other: ImageData) returns (s: Outcome)
      requires Valid() && other.Valid()
      modifies this
      ensures Valid() && width == old(width) && height == old(height) && channels == old(channels)
      ensures s.Pass? <==> old(other.width) == width && old(other.height) == height
      ensures s.Fail? ==> s.error == InvalidArgument("Images must be the same dimensions to find difference") && pixels == old(pixels)
      ensures s.Pass? ==> pixels == CompositeGrid(BlendOp.Difference, old(pixels), old(other.pixels), height, width)
    {
      s := Combine(BlendOp.Difference, other, "find difference");
    }

    /** `average`: each r, g, b becomes the rounded-down mean. */
    method Average(other: ImageData) returns (s: Outcome)
      requires Valid() && other.Valid()
      modifies this
      ensures Valid() && width == old(width) && height == old(height) && channels == old(channels)
      ensures s.Pass? <==> old(other.width) == width && old(other.height) == height
      ensures s.Fail? ==> s.error == InvalidArgument("Images must be the same dimensions to average") && pixels == old(pixels)
      ensures s.Pass? ==> pixels == CompositeGrid(BlendOp.Average, old(pixels), old(other.pixels), height, width)
    {
      s := Combine(BlendOp.Average, other, "average");
    }

    /** `max`: each r, g, b becomes the larger of the two. */
    method Max(other: ImageData) returns (s: Outcome)
      requires Valid() && other.Valid()
      modifies this
      ensures Valid() && width == old(width) && height == old(height) && channels == old(channels)
      ensures s.Pass? <==> old(other.width) == width && old(other.height) == height
      ensures s.Fail? ==> s.error == InvalidArgument("Images must be the same dimensions to find max") && pixels == old(pixels)
      ensures s.Pass? ==> pixels == CompositeGrid(BlendOp.Max, old(pixels), old(other.pixels), height, width)
    {
      s := Combine(BlendOp.Max, other, "find max");
    }

    /** `min`: each r, g, b becomes the smaller of the two. */
    method Min(other: ImageData) returns (s: Outcome)
      requires Valid() && other.Valid()
      modifies this
      ensures Valid() && width == old(width) && height == old(height) && channels == old(channels)
      ensures s.Pass? <==> old(other.width) == width && old(other.height) == height
      ensures s.Fail? ==> s.error == InvalidArgument("Images must be the same dimensions to find min") && pixels == old(pixels)
      ensures s.Pass? ==> pixels == CompositeGrid(BlendOp.Min, old(pixels), old(other.pixels), height, width)
    {
      s := Combine(BlendOp.Min, other, "find min");
    }

    /** The weighted sums for output pixel (y, x): the kernel loops run `i` and `j` over
        `0 .. n`, sample (y + i - n / 2, x + j - cx), and use opaque black off the grid. */
    method FilterPixelAt(kernel: Kernel, n: nat, cx: int, y: int, x: int) returns (p: Pixel)
      requires Valid() && 0 <= y < height && 0 <= x < width
      requires n <= |kernel| && forall i :: 0 <= i < n ==> n <= |kernel[i]|
      ensures p == FilteredPixel(pixels, kernel, n, cx, y, x)
    {
      var r, g, b := 0.0, 0.0, 0.0;
      for i := 0 to n
        invariant r == GridSum(Tap(pixels, kernel, n, cx, y, x, Red), i, n)
        invariant g == GridSum(Tap(pixels, kernel, n, cx, y, x, Green), i, n)
        invariant b == GridSum(Tap(pixels, kernel, n, cx, y, x, Blue), i, n)
      {
        for j := 0 to n
          invariant r == GridSum(Tap(pixels, kernel, n, cx, y, x, Red), i, n) + RowSum(Tap(pixels, kernel, n, cx, y, x, Red), i, j)
          invariant g == GridSum(Tap(pixels, kernel, n, cx, y, x, Green), i, n) + RowSum(Tap(pixels, kernel, n, cx, y, x, Green), i, j)
          invariant b == GridSum(Tap(pixels, kernel, n, cx, y, x, Blue), i, n) + RowSum(Tap(pixels, kernel, n, cx, y, x, Blue), i, j)
        {
          var newY := y + i - n / 2;
          var newX := x + j - cx;
          var sample := Padding;
          if 0 <= newY < height && 0 <= newX < width {
            sample := pixels[newY][newX];
          }
          assert sample == Sample(pixels, newY, newX);
          var weight := kernel[i][j];
          assert weight == Weight(kernel, i, j);
          TapStep(pixels, kernel, n, cx, y, x, i, j, weight, sample, r, g, b);
          r := r + weight * sample.r as real;
          g := g + weight * sample.g as real;
          b := b + weight * sample.b as real;
        }
      }
      p := Pixel(ToChannel(r), ToChannel(g), ToChannel(b), pixels[y][x].a);
    }

    /** The pass both `applyKernel` overloads make: every output pixel is computed from the
        image as it was, into a copy that then replaces the grid. */
    method Convolve(kernel: Kernel, n: nat, cx: int)
      requires Valid()
      requires n <= |kernel| && forall i :: 0 <= i < n ==> n <= |kernel[i]|
      modifies this
      ensures Valid() && width == old(width) && height == old(height) && channels == old(channels)
      ensures pixels == Filtered(old(pixels), height, width, kernel, n, cx)
    {
      var result := pixels;
      for y := 0 to height
        invariant unchanged(this)
        invariant IsGrid(result, height, width)
        invariant forall i, j {:trigger result[i][j]} :: 0 <= i < height && 0 <= j < width ==>
                    result[i][j] == if i < y then FilteredPixel(pixels, kernel, n, cx, i, j) else pixels[i][j]
      {
        for x := 0 to width
          invariant unchanged(this)
        invariant IsGrid(result, height, width)
          invariant forall i, j {:trigger result[i][j]} :: 0 <= i < height && 0 <= j < width ==>
                      result[i][j] == if i < y || (i == y && j < x) then FilteredPixel(pixels, kernel, n, cx, i, j)
                                      else pixels[i][j]
        {
          var p := FilterPixelAt(kernel, n, cx, y, x);
          result := result[y := result[y][x := p]];
        }
      }
      GridExt(result, Filtered(pixels, height, width, kernel, n, cx), height, width);
      pixels := result;
    }

    /** `applyKernel<N>` with a square `N x N` kernel, centred at (N / 2, N / 2). */
    method ApplyFixedKernel(kernel: Kernel)
      requires Valid() && IsRect(kernel, |kernel|, |kernel|)
      modifies this
      ensures Valid() && width == old(width) && height == old(height) && channels == old(channels)
      ensures pixels == Filtered(old(pixels), height, width, kernel, |kernel|, |kernel| / 2)
    {
      Convolve(kernel, |kernel|, |kernel| / 2);
    }

    /** `applyKernel` with a dynamic kernel of N rows whose first row has M entries: both
        loops run to N, rows are centred at N / 2 and columns at M / 2. */
    method ApplyKernel(kernel: Kernel) returns (s: Outcome)
      requires Valid()
      requires |kernel| > 0 && |kernel[0]| > 0 ==> forall i :: 0 <= i < |kernel| ==> |kernel| <= |kernel[i]|
      modifies this
      ensures Valid() && width == old(width) && height == old(height) && channels == old(channels)
      ensures s.Fail? <==> |kernel| == 0 || |kernel[0]| == 0
      ensures s.Fail? ==> s.error == InvalidArgument("Invalid kernel size") && pixels == old(pixels)
      ensures s.Pass? ==> pixels == Filtered(old(pixels), height, width, kernel, |kernel|, |kernel[0]| / 2)
    {
      var n := |kernel|;
      if n == 0 {
        return Fail(InvalidArgument("Invalid kernel size"));
      }
      var m := |kernel[0]|;
      if m == 0 {
        return Fail(InvalidArgument("Invalid kernel size"));
      }
      Convolve(kernel, n, m / 2);
      return Pass;
    }
  }
}
