/** The index-remapping geometry operations on a `h x w` grid. */
module Geometry {
  import opened Pixels
  import opened Errors
  import opened Arith

  /** Mirror left-right: the pixel at (y, x) comes from (y, w - 1 - x). */
  function FlipHGrid(g: Grid, h: nat, w: nat): Grid
    requires IsGrid(g, h, w)
  {
    seq(h, y requires 0 <= y < h => seq(w, x requires 0 <= x < w => g[y][w - 1 - x]))
  }

  /** Mirror top-bottom: the pixel at (y, x) comes from (h - 1 - y, x). */
  function FlipVGrid(g: Grid, h: nat, w: nat): Grid
    requires IsGrid(g, h, w)
  {
    seq(h, y requires 0 <= y < h => seq(w, x requires 0 <= x < w => g[h - 1 - y][x]))
  }

  /** Quarter turn clockwise: a `w x h` grid in which (y, x) moves to (x, h - 1 - y). */
  function RotateRGrid(g: Grid, h: nat, w: nat): Grid
    requires IsGrid(g, h, w)
  {
    seq(w, i requires 0 <= i < w => seq(h, j requires 0 <= j < h => g[h - 1 - j][i]))
  }

  /** Quarter turn counter-clockwise: a `w x h` grid in which (y, x) moves to (w - 1 - x, y). */
  function RotateLGrid(g: Grid, h: nat, w: nat): Grid
    requires IsGrid(g, h, w)
  {
    seq(w, i requires 0 <= i < w => seq(h, j requires 0 <= j < h => g[j][w - 1 - i]))
  }

  lemma {:induction false} FlipHInvolution(g: Grid, h: nat, w: nat)
    requires IsGrid(g, h, w)
    ensures IsGrid(FlipHGrid(g, h, w), h, w)
    ensures FlipHGrid(FlipHGrid(g, h, w), h, w) == g
  {
    GridExt(FlipHGrid(FlipHGrid(g, h, w), h, w), g, h, w);
  }

  lemma {:induction false} FlipVInvolution(g: Grid, h: nat, w: nat)
    requires IsGrid(g, h, w)
    ensures IsGrid(FlipVGrid(g, h, w), h, w)
    ensures FlipVGrid(FlipVGrid(g, h, w), h, w) == g
  {
    GridExt(FlipVGrid(FlipVGrid(g, h, w), h, w), g, h, w);
  }

  /** How far the in-place vertical flip has got: the rows above `y` and their mirror rows
      are swapped, and so are the first `x` pixels of row `y` and of its mirror row; every
      other pixel is where it was in `g`. */
  ghost predicate FlipVPartial(g: Grid, cur: Grid, h: nat, w: nat, y: nat, x: nat) {
    && IsGrid(g, h, w) && IsGrid(cur, h, w)
    && forall i, j :: 0 <= i < h && 0 <= j < w ==>
         cur[i][j] == if i < y || i > h - 1 - y || ((i == y || i == h - 1 - y) && j < x)
                      then g[h - 1 - i][j] else g[i][j]
  }

  /** Swapping pixel `x` of row `y` with pixel `x` of the mirror row advances the flip by
      one column. */
  lemma FlipVSwap(g: Grid, cur: Grid, h: nat, w: nat, y: nat, x: nat, top: Pixel, bottom: Pixel)
    requires FlipVPartial(g, cur, h, w, y, x) && y < h - 1 - y && x < w
    requires top == cur[y][x] && bottom == cur[h - y - 1][x]
    ensures var mid := cur[y := cur[y][x := bottom]];
      FlipVPartial(g, mid[h - y - 1 := mid[h - y - 1][x := top]], h, w, y, x + 1)
  {
    var mid := cur[y := cur[y][x := bottom]];
    var next := mid[h - y - 1 := mid[h - y - 1][x := top]];
    forall i, j | 0 <= i < h && 0 <= j < w
      ensures next[i][j] == if i < y || i > h - 1 - y || ((i == y || i == h - 1 - y) && j < x + 1)
                            then g[h - 1 - i][j] else g[i][j]
    {
      if i == y && j == x {
        assert next[i][j] == cur[h - y - 1][x];
      } else if i == h - y - 1 && j == x {
        assert next[i][j] == cur[y][x];
      } else {
        assert next[i][j] == cur[i][j];
      }
    }
  }

  /** Once row `y` and its mirror are fully swapped, the flip stands at the start of row `y + 1`. */
  lemma FlipVNextRow(g: Grid, cur: Grid, h: nat, w: nat, y: nat)
    requires FlipVPartial(g, cur, h, w, y, w) && y < h - 1 - y
    ensures FlipVPartial(g, cur, h, w, y + 1, 0)
  {
  }

  /** With the top half swapped with the bottom half (the middle row of an odd height is its
      own mirror), the grid is the vertical mirror image. */
  lemma FlipVDone(g: Grid, cur: Grid, h: nat, w: nat)
    requires FlipVPartial(g, cur, h, w, h / 2, 0)
    ensures cur == FlipVGrid(g, h, w)
  {
    GridExt(cur, FlipVGrid(g, h, w), h, w);
  }

  /** Progress of `flipH` in place: rows before `y` are mirrored, and so are the first `x`
      pixels of row `y` and the last `x`; every other pixel is where it was in `g`. */
  ghost predicate FlipHPartial(g: Grid, cur: Grid, h: nat, w: nat, y: nat, x: nat) {
    && IsGrid(g, h, w) && IsGrid(cur, h, w)
    && forall i, j {:trigger cur[i][j]} :: 0 <= i < h && 0 <= j < w ==>
         cur[i][j] == if i < y || (i == y && (j < x || j > w - 1 - x)) then g[i][w - 1 - j] else g[i][j]
  }

  /** Swapping pixel `x` of row `y` with its mirror pixel moves the flip on by one column. */
  lemma FlipHSwap(g: Grid, cur: Grid, h: nat, w: nat, y: nat, x: nat, left: Pixel, right: Pixel)
    requires FlipHPartial(g, cur, h, w, y, x) && y < h && x < w / 2
    requires left == cur[y][x] && right == cur[y][w - x - 1]
    ensures FlipHPartial(g, cur[y := cur[y][x := right][w - x - 1 := left]], h, w, y, x + 1)
  {
    var next := cur[y := cur[y][x := right][w - x - 1 := left]];
    forall i, j | 0 <= i < h && 0 <= j < w
      ensures next[i][j] == if i < y || (i == y && (j < x + 1 || j > w - 1 - (x + 1)))
                            then g[i][w - 1 - j] else g[i][j]
    {
      if i == y && j == x {
        assert next[i][j] == cur[y][w - 1 - x];
      } else if i == y && j == w - 1 - x {
        assert next[i][j] == cur[y][x];
      } else {
        assert next[i][j] == cur[i][j];
      }
    }
  }

  /** Once row `y` is mirrored (its middle pixel, when `w` is odd, is its own mirror), the
      flip stands at the start of row `y + 1`. */
  lemma FlipHNextRow(g: Grid, cur: Grid, h: nat, w: nat, y: nat)
    requires FlipHPartial(g, cur, h, w, y, w / 2) && y < h
    ensures FlipHPartial(g, cur, h, w, y + 1, 0)
  {
    forall j | 0 <= j < w
      ensures cur[y][j] == g[y][w - 1 - j]
    {
      if w / 2 <= j <= w - 1 - w / 2 {
        assert j == w - 1 - j;
      }
    }
  }

  /** With every row mirrored, the grid is the horizontal mirror image. */
  lemma FlipHDone(g: Grid, cur: Grid, h: nat, w: nat)
    requires FlipHPartial(g, cur, h, w, h, 0)
    ensures cur == FlipHGrid(g, h, w)
  {
    GridExt(cur, FlipHGrid(g, h, w), h, w);
  }

  /** Rotating right sends (y, x) to (x, h - 1 - y) in a grid with the sides swapped,
      and rotating left undoes it (and the other way round). */
  lemma {:induction false} RotationsInverse(g: Grid, h: nat, w: nat)
    requires IsGrid(g, h, w)
    ensures IsGrid(RotateRGrid(g, h, w), w, h) && IsGrid(RotateLGrid(g, h, w), w, h)
    ensures forall y, x :: 0 <= y < h && 0 <= x < w ==> RotateRGrid(g, h, w)[x][h - 1 - y] == g[y][x]
    ensures RotateLGrid(RotateRGrid(g, h, w), w, h) == g
    ensures RotateRGrid(RotateLGrid(g, h, w), w, h) == g
  {
    GridExt(RotateLGrid(RotateRGrid(g, h, w), w, h), g, h, w);
    GridExt(RotateRGrid(RotateLGrid(g, h, w), w, h), g, h, w);
  }

  /** Two right turns are a half turn: both flips. */
  lemma {:induction false} HalfTurn(g: Grid, h: nat, w: nat)
    requires IsGrid(g, h, w)
    ensures RotateRGrid(RotateRGrid(g, h, w), w, h) == FlipVGrid(FlipHGrid(g, h, w), h, w)
  {
    GridExt(RotateRGrid(RotateRGrid(g, h, w), w, h), FlipVGrid(FlipHGrid(g, h, w), h, w), h, w);
  }

  /** The result of a crop: the new grid and its sides. */
  datatype Cropped = Cropped(grid: Grid, width: nat, height: nat)

  /** `crop(x, y, w, h)` on a `height x width` grid: the origin must lie inside the grid
      or on its far edge, and `w`, `h` are cut back to what remains from the origin. */
  function CropGrid(g: Grid, height: nat, width: nat, x: int, y: int, w: nat, h: nat): Result<Cropped>
    requires IsGrid(g, height, width)
  {
    if x < 0 || x > width then Err(InvalidArgument("Invalid input"))
    else if y < 0 || y > height then Err(InvalidArgument("Invalid input"))
    else
      var w' := if x + w > width then width - x else w;
      var h' := if y + h > height then height - y else h;
      Ok(Cropped(seq(h', i requires 0 <= i < h' => seq(w', j requires 0 <= j < w' => g[y + i][x + j])), w', h'))
  }

  /** Crop fails exactly for an origin outside [0, width] x [0, height]; otherwise its
      sides are the requested ones clamped to the remaining extent, and the pixel at
      (i, j) is the one at (y + i, x + j). */
  lemma {:induction false} CropShape(g: Grid, height: nat, width: nat, x: int, y: int, w: nat, h: nat)
    requires IsGrid(g, height, width)
    ensures CropGrid(g, height, width, x, y, w, h).Err? <==> x < 0 || x > width || y < 0 || y > height
    ensures CropGrid(g, height, width, x, y, w, h).Ok? ==>
      var c := CropGrid(g, height, width, x, y, w, h).value;
      && c.width == (if w < width - x then w else width - x)
      && c.height == (if h < height - y then h else height - y)
      && IsGrid(c.grid, c.height, c.width)
      && forall i, j :: 0 <= i < c.height && 0 <= j < c.width ==> c.grid[i][j] == g[y + i][x + j]
  {
  }

  /** Cropping the whole grid from the origin gives it back. */
  lemma {:induction false} CropWhole(g: Grid, height: nat, width: nat)
    requires IsGrid(g, height, width)
    ensures CropGrid(g, height, width, 0, 0, width, height) == Ok(Cropped(g, width, height))
  {
    var c := CropGrid(g, height, width, 0, 0, width, height).value;
    GridExt(c.grid, g, height, width);
  }
  /** The largest side `resize` accepts. */
  const MaxSize := 4096

  /** `srcX = (int)(x * ((float)width / w))`: with exact arithmetic the ratio's floor is
      the integer quotient `x * width / w`, which lies inside the source side. */
  lemma RatioFloor(x: nat, size: nat, n: nat)
    requires x < n
    ensures (x as real * (size as real / n as real)).Floor == x * size / n
    ensures size > 0 ==> 0 <= x * size / n < size
  {
    var a := x * size;
    DivMod(a, n);
    var q, r := a / n, a % n;
    assert a as real == x as real * size as real;
    assert x as real * (size as real / n as real) == a as real / n as real;
    RealQuotient(a, n, q, r);
    if size > 0 {
      MulLe(x + 1, n, size);
      if q >= size {
        MulLe(size, q, n);
      }
    }
  }

  /** Nearest-neighbour `resize` to `h x w`: output (y, x) samples source pixel
      (y * height / h, x * width / w). */
  function ResizeGrid(g: Grid, height: nat, width: nat, h: nat, w: nat): Grid
    requires IsGrid(g, height, width) && 0 < height && 0 < width
  {
    seq(h, y requires 0 <= y < h =>
      seq(w, x requires 0 <= x < w =>
        RatioFloor(y, height, h);
        RatioFloor(x, width, w);
        g[y * height / h][x * width / w]))
  }

  /** The sample the `resize` loop takes for output (y, x), given the ratios of the old
      sides to the new ones. */
  lemma ResizeSampleAt(g: Grid, height: nat, width: nat, h: nat, w: nat, y: nat, x: nat, yRatio: real, xRatio: real)
    requires IsGrid(g, height, width) && 0 < height && 0 < width && y < h && x < w
    requires yRatio == height as real / h as real && xRatio == width as real / w as real
    ensures 0 <= (y as real * yRatio).Floor < height && 0 <= (x as real * xRatio).Floor < width
    ensures g[(y as real * yRatio).Floor][(x as real * xRatio).Floor] == ResizeGrid(g, height, width, h, w)[y][x]
  {
    RatioFloor(y, height, h);
    RatioFloor(x, width, w);
    var sy, sx := y * height / h, x * width / w;
    assert (y as real * yRatio).Floor == sy;
    assert (x as real * xRatio).Floor == sx;
    assert ResizeGrid(g, height, width, h, w)[y][x] == g[sy][sx];
  }

  /** Resizing to the current size changes nothing. */
  lemma {:induction false} ResizeSameSize(g: Grid, height: nat, width: nat)
    requires IsGrid(g, height, width) && 0 < height && 0 < width
    ensures ResizeGrid(g, height, width, height, width) == g
  {
    var r := ResizeGrid(g, height, width, height, width);
    forall y, x | 0 <= y < height && 0 <= x < width
      ensures r[y][x] == g[y][x]
    {
      QuotientUnique(y * height, height, y, 0);
      QuotientUnique(x * width, width, x, 0);
    }
    GridExt(r, g, height, width);
  }

  /** Doubling a side: index `i * size / (2 * size)` is `i / 2`. */
  lemma HalfIndex(i: nat, size: nat)
    requires 0 < size
    ensures i * size / (2 * size) == i / 2
  {
    assert i == 2 * (i / 2) + i % 2;
    assert i * size == (i / 2) * (2 * size) + (i % 2) * size;
    QuotientUnique(i * size, 2 * size, i / 2, (i % 2) * size);
  }

  /** Doubling both sides repeats every source pixel in a 2 x 2 block. */
  lemma {:induction false} ResizeDouble(g: Grid, height: nat, width: nat, y: nat, x: nat)
    requires IsGrid(g, height, width) && 0 < height && 0 < width
    requires y < 2 * height && x < 2 * width
    ensures ResizeGrid(g, height, width, 2 * height, 2 * width)[y][x] == g[y / 2][x / 2]
  {
    HalfIndex(y, height);
    HalfIndex(x, width);
  }
}
