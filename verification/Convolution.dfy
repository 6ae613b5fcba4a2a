/**
 The streaming image filter: a line buffer of mask-height rows is shifted by one row a call and
 the mask is applied to it.  Streaming a clamp-padded image through it is 2D correlation.
 */
module Convolution {
  import opened Common
  import opened Matrices
  import opened Sums

  // ---------- the mathematics ----------

  /** r is the index from 0 to size - 1 that is nearest to x. */
  ghost predicate Nearest(x: int, size: nat, r: int) {
    0 <= r < size && forall k :: 0 <= k < size ==> Gap(x, r) <= Gap(x, k)
  }

  function Gap(a: int, b: int): int {
    if a < b then b - a else a - b
  }

  function Clamp(x: int, size: nat): (r: int)
    requires size > 0
    ensures 0 <= r < size && (0 <= x < size ==> r == x)
    ensures (x < 0 ==> r == 0) && (x >= size ==> r == size - 1)
  {
    if x < 0 then 0 else if x > size - 1 then size - 1 else x
  }

  lemma ClampIsNearest(x: int, size: nat, r: int)
    requires size > 0
    ensures Nearest(x, size, r) <==> r == Clamp(x, size)
  {
    if Nearest(x, size, r) {
      assert Gap(x, r) <= Gap(x, Clamp(x, size));
    }
  }

  /** Mask cell times image cell, both clamped into range; the image is shifted so that its origin is at (i, j). */
  function Term(mask: Matrix, img: Matrix, mh: nat, mw: nat, h: nat, w: nat, i: int, j: int): (int, int) -> real
    requires IsMatrix(mask, mh, mw) && IsMatrix(img, h, w) && mh > 0 && mw > 0 && h > 0 && w > 0
  {
    (m, n) => mask[Clamp(m, mh)][Clamp(n, mw)] * img[Clamp(i + m, h)][Clamp(j + n, w)]
  }

  /** The correlation of the image with the mask centred at (i, j), edges repeated: rows of the mask outermost. */
  function Correlation(mask: Matrix, img: Matrix, mh: nat, mw: nat, h: nat, w: nat, i: int, j: int): real
    requires IsMatrix(mask, mh, mw) && IsMatrix(img, h, w) && mh > 0 && mw > 0 && h > 0 && w > 0
  {
    Square(Term(mask, img, mh, mw, h, w, i - mh / 2, j - mw / 2), mh, mw)
  }

  /** Mask cell times line buffer cell for output column col, mask column first. */
  function BufferTerm(mask: Matrix, rows: Matrix, mh: nat, mw: nat, width: nat, col: int): (int, int) -> real
    requires IsMatrix(mask, mh, mw) && IsMatrix(rows, mh, width + mw) && mh > 0 && mw > 0
  {
    (n, m) => mask[Clamp(m, mh)][Clamp(n, mw)] * rows[Clamp(m, mh)][Clamp(col + n, width + mw)]
  }

  /** The kernel's sum for one output column: columns of the mask outermost. */
  function Window(mask: Matrix, rows: Matrix, mh: nat, mw: nat, width: nat, col: int): real
    requires IsMatrix(mask, mh, mw) && IsMatrix(rows, mh, width + mw) && mh > 0 && mw > 0
  {
    Square(BufferTerm(mask, rows, mh, mw, width, col), mw, mh)
  }

  function RowResult(mask: Matrix, rows: Matrix, mh: nat, mw: nat, width: nat): (r: seq<real>)
    requires IsMatrix(mask, mh, mw) && IsMatrix(rows, mh, width + mw) && mh > 0 && mw > 0
    ensures |r| == width
  {
    seq(width, col requires 0 <= col < width => Window(mask, rows, mh, mw, width, col))
  }

  /** Cell j of row r of the padded image: clamp to the edge in both directions. */
  function PaddedCell(img: Matrix, mh: nat, mw: nat, h: nat, w: nat, r: int, j: int): real
    requires IsMatrix(img, h, w) && h > 0 && w > 0
  {
    img[Clamp(r - mh / 2, h)][Clamp(j - mw / 2, w)]
  }

  function PaddedRow(img: Matrix, mh: nat, mw: nat, h: nat, w: nat, r: int): (row: seq<real>)
    requires IsMatrix(img, h, w) && h > 0 && w > 0
    ensures |row| == w + mw
  {
    seq(w + mw, j requires 0 <= j < w + mw => PaddedCell(img, mh, mw, h, w, r, j))
  }

  /** What a kernel built for images `width` wide reads at the start of padded row r: the row, and from there on the next. */
  function LineRead(img: Matrix, mh: nat, mw: nat, h: nat, w: nat, width: nat, r: int): (row: seq<real>)
    requires IsMatrix(img, h, w) && h > 0 && w > 0
    ensures |row| == width + mw
  {
    seq(width + mw, j requires 0 <= j < width + mw =>
      if j < w + mw then PaddedCell(img, mh, mw, h, w, r, j) else PaddedCell(img, mh, mw, h, w, r + 1, j - (w + mw)))
  }

  function Zeros(n: nat): (row: seq<real>)
    ensures |row| == n
  {
    seq(n, _ => 0.0)
  }

  /** The line read r-th; before the first, zeros. */
  function StreamedRow(img: Matrix, mh: nat, mw: nat, h: nat, w: nat, width: nat, r: int): (row: seq<real>)
    requires IsMatrix(img, h, w) && h > 0 && w > 0
    ensures |row| == width + mw
  {
    if r < 0 then Zeros(width + mw) else LineRead(img, mh, mw, h, w, width, r)
  }

  /** Row m of the line buffer after t lines. */
  function BufferRow(img: Matrix, mh: nat, mw: nat, h: nat, w: nat, width: nat, t: nat, m: nat): (row: seq<real>)
    requires IsMatrix(img, h, w) && h > 0 && w > 0
    ensures |row| == width + mw
  {
    StreamedRow(img, mh, mw, h, w, width, t - mh + m)
  }

  /** The line buffer after t lines: row m is streamed row t - mh + m. */
  function Streamed(img: Matrix, mh: nat, mw: nat, h: nat, w: nat, width: nat, t: nat): (rows: Matrix)
    requires IsMatrix(img, h, w) && h > 0 && w > 0
    ensures IsMatrix(rows, mh, width + mw)
  {
    seq(mh, m requires 0 <= m < mh => BufferRow(img, mh, mw, h, w, width, t, m))
  }

  lemma StreamedShifts(img: Matrix, mh: nat, mw: nat, h: nat, w: nat, width: nat, t: nat)
    requires IsMatrix(img, h, w) && h > 0 && w > 0 && mh > 0
    ensures Streamed(img, mh, mw, h, w, width, t + 1)
            == Streamed(img, mh, mw, h, w, width, t)[1..] + [LineRead(img, mh, mw, h, w, width, t)]
  {
    var a, b := Streamed(img, mh, mw, h, w, width, t + 1), Streamed(img, mh, mw, h, w, width, t);
    forall m | 0 <= m < mh ensures a[m] == (b[1..] + [LineRead(img, mh, mw, h, w, width, t)])[m] {
      assert a[m] == BufferRow(img, mh, mw, h, w, width, t + 1, m);
      if m < mh - 1 { assert b[1..][m] == BufferRow(img, mh, mw, h, w, width, t, m + 1); }
    }
  }

  function Blank(r: nat, c: nat): (M: Matrix)
    ensures IsMatrix(M, r, c)
  {
    seq(r, _ => Zeros(c))
  }

  /** Before the first line the line buffer is all zeros, as the constructor leaves it. */
  lemma NothingStreamed(img: Matrix, mh: nat, mw: nat, h: nat, w: nat, width: nat)
    requires IsMatrix(img, h, w) && h > 0 && w > 0
    ensures Streamed(img, mh, mw, h, w, width, 0) == Blank(mh, width + mw)
  {
    var rows := Streamed(img, mh, mw, h, w, width, 0);
    forall m | 0 <= m < mh ensures rows[m] == Zeros(width + mw) {
      assert rows[m] == BufferRow(img, mh, mw, h, w, width, 0, m);
    }
  }

  /** Swapping the order of a double sum. */
  lemma {:induction false} SquareTransposed(f: (int, int) -> real, g: (int, int) -> real, m: nat, n: nat)
    requires forall i, j :: 0 <= i < m && 0 <= j < n ==> f(i, j) == g(j, i)
    ensures Square(f, m, n) == Square(g, n, m)
  {
    if m == 0 {
      SquareEmpty(g, n);
    } else {
      SquareTransposed(f, g, m - 1, n);
      SquareLastColumn(f, g, m - 1, n);
    }
  }

  lemma {:induction false} SquareEmpty(g: (int, int) -> real, n: nat)
    ensures Square(g, n, 0) == 0.0
  {
    if n > 0 { SquareEmpty(g, n - 1); }
  }

  ghost predicate ColumnIsRow(f: (int, int) -> real, g: (int, int) -> real, r: int, n: nat) {
    forall j :: 0 <= j < n ==> g(j, r) == f(r, j)
  }

  lemma {:induction false} SquareLastColumn(f: (int, int) -> real, g: (int, int) -> real, r: nat, n: nat)
    requires ColumnIsRow(f, g, r, n)
    ensures Square(g, n, r + 1) == Square(g, n, r) + Row(f, r, n)
  {
    if n > 0 {
      SquareLastColumn(f, g, r, n - 1);
    }
  }

  /** Row m of the line buffer after i + mh lines. */
  lemma StreamedCell(img: Matrix, mh: nat, mw: nat, h: nat, w: nat, width: nat, i: nat, m: nat, k: nat)
    requires IsMatrix(img, h, w) && mh > 0 && h > 0 && 0 < w <= width && m < mh && k < width + mw
    ensures Streamed(img, mh, mw, h, w, width, i + mh)[m][k]
            == if k < w + mw then PaddedCell(img, mh, mw, h, w, i + m, k) else PaddedCell(img, mh, mw, h, w, i + m + 1, k - (w + mw))
  {
    assert Streamed(img, mh, mw, h, w, width, i + mh)[m] == BufferRow(img, mh, mw, h, w, width, i + mh, m);
    assert i + mh - mh + m == i + m;
  }

  lemma SameProduct(a: real, b: real, c: real)
    requires b == c
    ensures a * b == a * c
  {
  }

  /** The cells under the mask at column col are those of the image around (i, j). */
  ghost predicate Covers(rows: Matrix, img: Matrix, mh: nat, mw: nat, h: nat, w: nat, width: nat, col: nat, i: nat, j: nat)
    requires IsMatrix(rows, mh, width + mw) && IsMatrix(img, h, w) && h > 0 && w > 0 && col < width
  {
    forall m: nat, n: nat :: m < mh && n < mw ==> CoversAt(rows, img, mh, mw, h, w, width, col, i, j, m, n)
  }

  ghost predicate CoversAt(rows: Matrix, img: Matrix, mh: nat, mw: nat, h: nat, w: nat, width: nat, col: nat, i: nat, j: nat, m: nat, n: nat)
    requires IsMatrix(rows, mh, width + mw) && IsMatrix(img, h, w) && h > 0 && w > 0 && col < width && m < mh && n < mw
  {
    rows[m][col + n] == img[Clamp(i + m - mh / 2, h)][Clamp(j + n - mw / 2, w)]
  }

  lemma BufferTermIs(mask: Matrix, rows: Matrix, img: Matrix, mh: nat, mw: nat, h: nat, w: nat, width: nat, col: nat, i: nat, j: nat, m: nat, n: nat)
    requires IsMatrix(mask, mh, mw) && IsMatrix(rows, mh, width + mw) && IsMatrix(img, h, w) && h > 0 && w > 0 && col < width
    requires m < mh && n < mw && CoversAt(rows, img, mh, mw, h, w, width, col, i, j, m, n)
    ensures BufferTerm(mask, rows, mh, mw, width, col)(n, m) == Term(mask, img, mh, mw, h, w, i - mh / 2, j - mw / 2)(m, n)
  {
    var y, x := i - mh / 2, j - mw / 2;
    assert i + m - mh / 2 == y + m && j + n - mw / 2 == x + n;
    assert BufferTerm(mask, rows, mh, mw, width, col)(n, m) == mask[m][n] * rows[m][col + n];
    assert Term(mask, img, mh, mw, h, w, y, x)(m, n) == mask[m][n] * img[Clamp(y + m, h)][Clamp(x + n, w)];
    SameProduct(mask[m][n], rows[m][col + n], img[Clamp(y + m, h)][Clamp(x + n, w)]);
  }

  /** Then the kernel's sum is the correlation, although it adds up columns first. */
  lemma WindowCovers(mask: Matrix, rows: Matrix, img: Matrix, mh: nat, mw: nat, h: nat, w: nat, width: nat, col: nat, i: nat, j: nat)
    requires IsMatrix(mask, mh, mw) && IsMatrix(rows, mh, width + mw) && IsMatrix(img, h, w) && mh > 0 && mw > 0 && h > 0 && w > 0
    requires col < width && Covers(rows, img, mh, mw, h, w, width, col, i, j)
    ensures Window(mask, rows, mh, mw, width, col) == Correlation(mask, img, mh, mw, h, w, i, j)
  {
    var f := BufferTerm(mask, rows, mh, mw, width, col);
    var g := Term(mask, img, mh, mw, h, w, i - mh / 2, j - mw / 2);
    forall n, m | 0 <= n < mw && 0 <= m < mh ensures f(n, m) == g(m, n) {
      BufferTermIs(mask, rows, img, mh, mw, h, w, width, col, i, j, m, n);
    }
    SquareTransposed(f, g, mw, mh);
  }

  /** After i + mh lines the window at column j is the correlation centred at (i, j), whatever the kernel's width. */
  lemma WindowIsCorrelation(mask: Matrix, img: Matrix, mh: nat, mw: nat, h: nat, w: nat, width: nat, i: nat, j: nat)
    requires IsMatrix(mask, mh, mw) && IsMatrix(img, h, w) && mh > 0 && mw > 0 && i < h && j < w <= width
    ensures Window(mask, Streamed(img, mh, mw, h, w, width, i + mh), mh, mw, width, j) == Correlation(mask, img, mh, mw, h, w, i, j)
  {
    var rows := Streamed(img, mh, mw, h, w, width, i + mh);
    forall m: nat, n: nat | m < mh && n < mw ensures CoversAt(rows, img, mh, mw, h, w, width, j, i, j, m, n) {
      StreamedCell(img, mh, mw, h, w, width, i, m, j + n);
    }
    WindowCovers(mask, rows, img, mh, mw, h, w, width, j, i, j);
  }

  // ---------- the kernel ----------

  class ImageFilter {
    const mh: nat
    const mw: nat
    const width: nat
    const mask: array2<real>
    const lineBuffer: array2<real>    // global: kept from call to call
    const outputBuffer: array<real>   // global

    ghost predicate Valid() {
      && mh > 0 && mw > 0
      && mask.Length0 == mh && mask.Length1 == mw
      && lineBuffer.Length0 == mh && lineBuffer.Length1 == width + mw && outputBuffer.Length == width + mw
      && mask != lineBuffer
    }

    ghost predicate Masks(M: Matrix)
      requires Valid()
      reads mask
    {
      IsMatrix(M, mh, mw) && forall m, n :: 0 <= m < mh && 0 <= n < mw ==> mask[m, n] == M[m][n]
    }

    ghost predicate Buffers(rows: Matrix)
      requires Valid()
      reads lineBuffer
    {
      IsMatrix(rows, mh, width + mw) && forall m, c :: 0 <= m < mh && 0 <= c < width + mw ==> lineBuffer[m, c] == rows[m][c]
    }

    /** The buffers start out zero, as globals do. */
    constructor (mh: nat, mw: nat, width: nat, mask: array2<real>)
      requires mh > 0 && mw > 0 && mask.Length0 == mh && mask.Length1 == mw
      ensures Valid() && this.mh == mh && this.mw == mw && this.width == width && this.mask == mask
      ensures fresh(lineBuffer) && fresh(outputBuffer)
      ensures Buffers(Blank(mh, width + mw)) && outputBuffer[..] == Zeros(width + mw)
    {
      this.mh, this.mw, this.width, this.mask := mh, mw, width, mask;
      lineBuffer := new real[mh, width + mw]((_, _) => 0.0);
      outputBuffer := new real[width + mw](_ => 0.0);
    }

    /** Every row of the line buffer moves up by one. */
    method Shift(ghost rows: Matrix)
      requires Valid() && Buffers(rows)
      modifies lineBuffer
      ensures forall m, c :: 0 <= m < mh && 0 <= c < width + mw ==> lineBuffer[m, c] == rows[if m < mh - 1 then m + 1 else m][c]
    {
      for row := 0 to mh - 1
        invariant forall m, c :: 0 <= m < mh && 0 <= c < width + mw ==> lineBuffer[m, c] == rows[if m < row then m + 1 else m][c]
      {
        for col := 0 to width + mw
          invariant forall m, c :: 0 <= m < mh && 0 <= c < width + mw ==>
            lineBuffer[m, c] == rows[if m < row || (m == row && c < col) then m + 1 else m][c]
        {
          lineBuffer[row, col] := lineBuffer[row + 1, col];
        }
      }
    }

    method ReadLine(memory: array<real>, offset: nat, ghost rows: Matrix)
      requires Valid() && Buffers(rows) && offset + width + mw <= memory.Length
      modifies lineBuffer
      ensures Buffers(rows[1..] + [memory[..][offset..offset + width + mw]])
    {
      Shift(rows);
      var last := mh - 1;
      forall c | 0 <= c < width + mw {
        lineBuffer[last, c] := memory[offset + c];
      }
    }

    /** The mask laid over the line buffer at one output column. */
    method Accumulate(col: nat, ghost M: Matrix, ghost rows: Matrix) returns (sum: real)
      requires Valid() && Masks(M) && Buffers(rows) && col < width
      ensures sum == Window(M, rows, mh, mw, width, col)
    {
      sum := 0.0;
      ghost var f := BufferTerm(M, rows, mh, mw, width, col);
      for n := 0 to mw
        invariant sum == Square(f, n, mh)
      {
        for m := 0 to mh
          invariant sum == Square(f, n, mh) + Row(f, n, m)
        {
          assert f(n, m) == mask[m, n] * lineBuffer[m, col + n];
          sum := sum + mask[m, n] * lineBuffer[m, col + n];
        }
      }
    }

    /** One call: shift, read a row, filter, write a row. */
    method Apply(memory: array<real>, inputOffset: nat, outputOffset: nat, ghost M: Matrix, ghost rows: Matrix, ghost line: seq<real>)
      requires Valid() && Masks(M) && Buffers(rows) && memory != outputBuffer
      requires inputOffset + width + mw <= memory.Length && outputOffset + width + mw <= memory.Length
      requires line == memory[..][inputOffset..inputOffset + width + mw]
      modifies memory, lineBuffer, outputBuffer
      ensures Masks(M) && Buffers(rows[1..] + [line])
      ensures outputBuffer[..] == RowResult(M, rows[1..] + [line], mh, mw, width) + old(outputBuffer[width..])
      ensures memory[..] == Blit(old(memory[..]), outputOffset, outputBuffer[..])
    {
      ReadLine(memory, inputOffset, rows);
      ghost var rows' := rows[1..] + [line];
      Filter(M, rows');
      forall c | 0 <= c < width + mw {
        memory[outputOffset + c] := outputBuffer[c];
      }
    }

    method Filter(ghost M: Matrix, ghost rows: Matrix)
      requires Valid() && Masks(M) && Buffers(rows)
      modifies outputBuffer
      ensures outputBuffer[..] == RowResult(M, rows, mh, mw, width) + old(outputBuffer[width..])
    {
      for col := 0 to width
        invariant forall c :: 0 <= c < col ==> outputBuffer[c] == Window(M, rows, mh, mw, width, c)
        invariant outputBuffer[width..] == old(outputBuffer[width..])
      {
        var sum := Accumulate(col, M, rows);
        outputBuffer[col] := sum;
      }
    }
  }
}
