/** Error values for the C++ exceptions the image operations throw. */
module Errors {
  /** `std::invalid_argument` and `std::runtime_error`, with their messages. */
  datatype Error = InvalidArgument(message: string) | RuntimeError(message: string)

  /** Outcome of an operation that changes an image in place. */
  datatype Outcome = Pass | Fail(error: Error)

  /** Outcome of an operation that returns a value. */
  datatype Result<T> = Ok(value: T) | Err(error: Error)

  /** A value that may be absent, such as a decoder's null return. */
  datatype Option<T> = None | Some(value: T)
}

/** Pixels, 8-bit channels and row-major pixel grids. */
module Pixels {
  /** A C++ `unsigned char` channel value. */
  type Channel = c: int | 0 <= c <= 255

  /** Every pixel has four channels, whatever the file format. */
  datatype Pixel = Pixel(r: Channel, g: Channel, b: Channel, a: Channel)

  /** The value-initialised `Pixel{}` a freshly sized vector holds. */
  const Zero := Pixel(0, 0, 0, 0)

  /** A grid indexed `[y][x]`: a sequence of rows. */
  type Grid = seq<seq<Pixel>>

  /** `g` has `h` rows, each of `w` pixels. */
  predicate IsGrid(g: Grid, h: int, w: int) {
    |g| == h && forall y :: 0 <= y < h ==> |g[y]| == w
  }

  /** `std::clamp(v, 0, 255)` followed by the cast to `unsigned char`. */
  function Clamp(v: int): (c: Channel)
    ensures c == v || (v < 0 && c == 0) || (v > 255 && c == 255)
  {
    if v < 0 then 0 else if v > 255 then 255 else v
  }

  /** `std::clamp(v, 0.0f, 255.0f)` and the truncating cast to `unsigned char`. */
  function ToChannel(v: real): (c: Channel)
    ensures v <= 0.0 ==> c == 0
    ensures v >= 255.0 ==> c == 255
    ensures 0.0 <= v <= 255.0 ==> c as real <= v < c as real + 1.0
  {
    if v < 0.0 then 0 else if v > 255.0 then 255 else v.Floor
  }

  /** `static_cast<unsigned char>` of an `int`: reduction modulo 256. */
  function Wrap(v: int): (c: Channel)
    ensures (c - v) % 256 == 0
  {
    v % 256
  }

  /** A row-major pass over an `h x w` grid that has written every cell before (y, x): those
      cells hold `done`'s pixels and the others still hold `rest`'s. */
  ghost predicate PassedUpTo(cur: Grid, done: Grid, rest: Grid, h: nat, w: nat, y: nat, x: nat) {
    && IsGrid(cur, h, w) && IsGrid(done, h, w) && IsGrid(rest, h, w)
    && forall i, j :: 0 <= i < h && 0 <= j < w ==>
         cur[i][j] == if i < y || (i == y && j < x) then done[i][j] else rest[i][j]
  }

  /** Writing `done`'s pixel at (y, x) moves the pass one cell on. */
  lemma PassStep(cur: Grid, done: Grid, rest: Grid, h: nat, w: nat, y: nat, x: nat, p: Pixel)
    requires PassedUpTo(cur, done, rest, h, w, y, x) && y < h && x < w && p == done[y][x]
    ensures PassedUpTo(cur[y := cur[y][x := p]], done, rest, h, w, y, x + 1)
  {
    var next := cur[y := cur[y][x := p]];
    forall i, j | 0 <= i < h && 0 <= j < w
      ensures next[i][j] == if i < y || (i == y && j < x + 1) then done[i][j] else rest[i][j]
    {
      if i == y && j == x {
        assert next[i][j] == p;
      } else {
        assert next[i][j] == cur[i][j];
      }
    }
  }

  /** A pass at the end of row `y` is at the start of row `y + 1`. */
  lemma PassNextRow(cur: Grid, done: Grid, rest: Grid, h: nat, w: nat, y: nat)
    requires PassedUpTo(cur, done, rest, h, w, y, w)
    ensures PassedUpTo(cur, done, rest, h, w, y + 1, 0)
  {
  }

  /** A pass past the last row has written the whole of `done`. */
  lemma PassDone(cur: Grid, done: Grid, rest: Grid, h: nat, w: nat)
    requires PassedUpTo(cur, done, rest, h, w, h, 0)
    ensures cur == done
  {
    GridExt(cur, done, h, w);
  }

  /** Two grids of the same shape that agree at every position are equal. */
  lemma GridExt(a: Grid, b: Grid, h: nat, w: nat)
    requires IsGrid(a, h, w) && IsGrid(b, h, w)
    requires forall y, x :: 0 <= y < h && 0 <= x < w ==> a[y][x] == b[y][x]
    ensures a == b
  {
    forall y | 0 <= y < h
      ensures a[y] == b[y]
    {
      assert forall x :: 0 <= x < w ==> a[y][x] == b[y][x];
    }
  }
}
