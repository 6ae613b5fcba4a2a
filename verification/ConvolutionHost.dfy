/**
 The host side of the image filter: clamp padding, one call per padded row with both offsets
 advancing by a row, and the read-back.  Memory is seen as rows of w + mw cells: h + mh padded
 input rows followed by as many output rows.
 */
module ConvolutionHost {
  import opened Common
  import opened Matrices
  import opened Convolution
  import opened Sums

  /** `wmax` is the width the kernel is built for; the image may be narrower. */
  datatype Dims = Dims(mh: nat, mw: nat, h: nat, w: nat, wmax: nat) {
    ghost predicate Positive() {
      mh > 0 && mw > 0 && h > 0 && 0 < w <= wmax
    }

    ghost predicate Fits(img: Matrix, mask: Matrix) {
      Positive() && IsMatrix(img, h, w) && IsMatrix(mask, mh, mw)
    }

    /** Cells in a padded row. */
    function Stride(): nat { w + mw }

    /** Cells the kernel reads and writes in one call. */
    function Cells(): nat { wmax + mw }

    /** Padded rows. */
    function Height(): nat { h + mh }

    /** Calls the driver makes. */
    function Calls(): nat { h + 2 * (mh / 2) }

    function OutputRow(r: nat): nat { Height() + r }

    /** Every call writes inside the allocated cells. */
    ghost predicate InBounds() {
      forall t: nat :: t < Calls() ==> WritesInside(t)
    }

    ghost predicate WritesInside(t: nat) {
      OutputRow(t) * Stride() + Cells() <= 2 * Height() * Stride()
    }

    function Padded(img: Matrix, r: int): (row: seq<real>)
      requires Positive() && IsMatrix(img, h, w)
      ensures |row| == Stride()
    {
      PaddedRow(img, mh, mw, h, w, r)
    }

    /** What call t reads. */
    function Read(img: Matrix, t: nat): (row: seq<real>)
      requires Positive() && IsMatrix(img, h, w)
      ensures |row| == Cells()
    {
      LineRead(img, mh, mw, h, w, wmax, t)
    }

    /** The line buffer after t calls. */
    function Line(img: Matrix, t: nat): (rows: Matrix)
      requires Positive() && IsMatrix(img, h, w)
      ensures IsMatrix(rows, mh, Cells())
    {
      Streamed(img, mh, mw, h, w, wmax, t)
    }

    /** What call t writes: the filtered row, then the output buffer's tail, which no call ever fills. */
    function Block(img: Matrix, mask: Matrix, t: nat): (block: seq<real>)
      requires Fits(img, mask)
      ensures |block| == Cells()
    {
      RowResult(mask, Line(img, t + 1), mh, mw, wmax) + Zeros(mw)
    }

    /** What stays of it in the output row: the rest is overwritten by the next call. */
    function Output(img: Matrix, mask: Matrix, t: nat): (row: seq<real>)
      requires Fits(img, mask)
      ensures |row| == Stride()
    {
      Block(img, mask, t)[..Stride()]
    }

    /** The first n rows are padded image rows. */
    ghost predicate PaddedUpTo(rows: Matrix, img: Matrix, n: nat)
      requires Positive() && IsMatrix(img, h, w)
    {
      |rows| == 2 * Height() && n <= Height() && forall r: nat :: r < n ==> rows[r] == Padded(img, r)
    }

    /** The first t output rows are done. */
    ghost predicate OutputUpTo(rows: Matrix, img: Matrix, mask: Matrix, t: nat)
      requires Fits(img, mask)
    {
      |rows| == 2 * Height() && t <= Height() && forall r: nat :: r < t ==> rows[OutputRow(r)] == Output(img, mask, r)
    }

    /** Output row i + mh - 1 is row i of the correlation of the image with the mask. */
    ghost predicate OutputCorrelates(rows: Matrix, img: Matrix, mask: Matrix)
      requires Fits(img, mask)
    {
      && IsMatrix(rows, 2 * Height(), Stride())
      && forall i: nat, j: nat :: i < h && j < w ==>
        rows[OutputRow(i + mh - 1)][j] == Correlation(mask, img, mh, mw, h, w, i, j)
    }

    lemma OutputCell(rows: Matrix, img: Matrix, mask: Matrix, t: nat, i: nat, j: nat)
      requires Fits(img, mask) && OutputUpTo(rows, img, mask, t)
      requires i < h && j < w && i + mh <= t
      ensures |rows[OutputRow(i + mh - 1)]| == Stride()
      ensures rows[OutputRow(i + mh - 1)][j] == Correlation(mask, img, mh, mw, h, w, i, j)
    {
      var r := i + mh - 1;
      assert rows[OutputRow(r)] == Output(img, mask, r);
      assert Output(img, mask, r)[j] == Window(mask, Line(img, r + 1), mh, mw, wmax, j);
      WindowIsCorrelation(mask, img, mh, mw, h, w, wmax, i, j);
    }
  }

  /**
   The exact bound on the kernel's width: a padded row and, for an odd mask height, one row more.
   The last call of the driver is the first one to pass the end.
   */
  lemma InBoundsIff(d: Dims)
    requires d.Positive()
    ensures d.InBounds() <==> d.Cells() <= if d.mh % 2 == 1 then 2 * d.Stride() else d.Stride()
  {
    var last, extra := d.Calls() - 1, if d.mh % 2 == 1 then 2 else 1;
    assert 2 * d.Height() == d.OutputRow(last) + extra;
    Distribute(d.OutputRow(last), extra, d.Stride());
    assert d.WritesInside(last) <==> d.Cells() <= extra * d.Stride();
    if d.WritesInside(last) {
      forall t: nat | t < d.Calls() ensures d.WritesInside(t) {
        MulLeq(d.OutputRow(t), d.OutputRow(last), d.Stride());
      }
    }
  }

  lemma MulLeq(a: nat, b: nat, c: nat)
    requires a <= b
    ensures a * c <= b * c
  {
    Distribute(a, b - a, c);
  }

  /** The three image sizes the driver names, under the kernel's width of 1920: the smallest does not fit. */
  lemma ThreeSizes()
    ensures Dims(7, 7, 1080, 1920, 1920).InBounds()
    ensures Dims(7, 7, 576, 1024, 1920).InBounds()
    ensures !Dims(7, 7, 135, 240, 1920).InBounds()
  {
    InBoundsIff(Dims(7, 7, 1080, 1920, 1920));
    InBoundsIff(Dims(7, 7, 576, 1024, 1920));
    InBoundsIff(Dims(7, 7, 135, 240, 1920));
  }

  /** Row r of the image is the nearest to row i of the padded image, which starts half a mask higher. */
  ghost predicate NearestRow(d: Dims, i: nat, r: int) {
    Nearest(i - d.mh / 2, d.h, r)
  }

  ghost predicate NearestColumn(d: Dims, j: nat, c: int) {
    Nearest(j - d.mw / 2, d.w, c)
  }

  /** The cell of the image that a padded cell repeats: the nearest one. */
  method PadCell(d: Dims, image: array<real>, i: nat, j: nat, ghost img: Matrix) returns (x: real)
    requires d.Positive() && image.Length == d.h * d.w && img == Rows(image[..], 0, d.h, d.w)
    ensures x == PaddedCell(img, d.mh, d.mw, d.h, d.w, i, j)
    ensures forall r, c :: NearestRow(d, i, r) && NearestColumn(d, j, c) ==> x == img[r][c]
  {
    var row, col := i - d.mh / 2, j - d.mw / 2;
    if row < 0 { row := 0; }
    if row > d.h - 1 { row := d.h - 1; }
    if col < 0 { col := 0; }
    if col > d.w - 1 { col := d.w - 1; }
    assert row == Clamp(i - d.mh / 2, d.h) && col == Clamp(j - d.mw / 2, d.w);
    RowCell(image[..], 0, d.h, d.w, row, col);
    x := image[row * d.w + col];
    PaddedIsNearest(d, img, i, j);
  }

  lemma PaddedIsNearest(d: Dims, img: Matrix, i: nat, j: nat)
    requires d.Positive() && IsMatrix(img, d.h, d.w)
    ensures forall r, c :: NearestRow(d, i, r) && NearestColumn(d, j, c) ==>
      PaddedCell(img, d.mh, d.mw, d.h, d.w, i, j) == img[r][c]
  {
    forall r, c | NearestRow(d, i, r) && NearestColumn(d, j, c)
      ensures PaddedCell(img, d.mh, d.mw, d.h, d.w, i, j) == img[r][c]
    {
      ClampIsNearest(i - d.mh / 2, d.h, r);
      ClampIsNearest(j - d.mw / 2, d.w, c);
    }
  }

  /** The first n rows of the padded region, cell by cell: row i repeats the nearest image row, column j the nearest column. */
  ghost predicate RepeatsEdges(d: Dims, mem: seq<real>, image: seq<real>, n: nat)
    requires n * d.Stride() <= |mem| && |image| == d.h * d.w
  {
    forall i: nat, j: nat :: i < n && j < d.Stride() ==> RepeatsEdge(d, mem, image, n, i, j)
  }

  ghost predicate RepeatsEdge(d: Dims, mem: seq<real>, image: seq<real>, n: nat, i: nat, j: nat)
    requires n * d.Stride() <= |mem| && |image| == d.h * d.w && i < n && j < d.Stride()
  {
    InMatrix(i, j, n, d.Stride());
    forall r, c :: NearestRow(d, i, r) && NearestColumn(d, j, c) ==>
      (InMatrix(r, c, d.h, d.w); mem[i * d.Stride() + j] == image[r * d.w + c])
  }

  lemma PaddedRepeats(d: Dims, mem: seq<real>, image: seq<real>, img: Matrix)
    requires d.Positive() && |image| == d.h * d.w && img == Rows(image, 0, d.h, d.w) && |mem| == 2 * d.Height() * d.Stride()
    requires d.PaddedUpTo(Rows(mem, 0, 2 * d.Height(), d.Stride()), img, d.Height())
    ensures d.Height() * d.Stride() <= |mem| && RepeatsEdges(d, mem, image, d.Height())
  {
    MulLeq(d.Height(), 2 * d.Height(), d.Stride());
    forall i: nat, j: nat | i < d.Height() && j < d.Stride() ensures RepeatsEdge(d, mem, image, d.Height(), i, j) {
      ReadsCell(d, mem, i, j, img);
      CellRepeats(d, mem, image, img, i, j, i * d.Stride() + j);
    }
  }

  lemma CellRepeats(d: Dims, mem: seq<real>, image: seq<real>, img: Matrix, i: nat, j: nat, at: nat)
    requires d.Positive() && |image| == d.h * d.w && img == Rows(image, 0, d.h, d.w) && i < d.Height() && j < d.Stride()
    requires d.Height() * d.Stride() <= |mem| && at == i * d.Stride() + j < |mem|
    requires mem[at] == PaddedCell(img, d.mh, d.mw, d.h, d.w, i, j)
    ensures RepeatsEdge(d, mem, image, d.Height(), i, j)
  {
    PaddedIsNearest(d, img, i, j);
    forall r, c | NearestRow(d, i, r) && NearestColumn(d, j, c)
      ensures 0 <= r * d.w + c < |image| && mem[at] == image[r * d.w + c]
    {
      RowCell(image, 0, d.h, d.w, r, c);
    }
  }

  /** if_tb.cpp's loop over j: one padded row. */
  method PadRow(d: Dims, image: array<real>, memory: array<real>, base: nat, i: nat, ghost img: Matrix)
    requires d.Positive() && image != memory
    requires image.Length == d.h * d.w && img == Rows(image[..], 0, d.h, d.w)
    requires base + d.Stride() <= memory.Length
    modifies memory
    ensures memory[..] == Blit(old(memory[..]), base, d.Padded(img, i))
    ensures forall j: nat, r, c :: j < d.Stride() && NearestRow(d, i, r) && NearestColumn(d, j, c) ==>
      memory[base + j] == img[r][c]
  {
    for j := 0 to d.Stride()
      invariant forall k :: 0 <= k < memory.Length ==>
        memory[k] == if base <= k < base + j then d.Padded(img, i)[k - base] else old(memory[k])
    {
      memory[base + j] := PadCell(d, image, i, j, img);
    }
    forall j: nat, r, c | j < d.Stride() && NearestRow(d, i, r) && NearestColumn(d, j, c)
      ensures memory[base + j] == img[r][c]
    {
      assert memory[base + j] == d.Padded(img, i)[j];
      PaddedIsNearest(d, img, i, j);
    }
  }

  method Pad(d: Dims, image: array<real>, memory: array<real>, ghost img: Matrix)
    requires d.Positive() && image != memory
    requires image.Length == d.h * d.w && img == Rows(image[..], 0, d.h, d.w)
    requires memory.Length == 2 * d.Height() * d.Stride()
    modifies memory
    ensures d.PaddedUpTo(Rows(memory[..], 0, 2 * d.Height(), d.Stride()), img, d.Height())
    ensures d.Height() * d.Stride() <= memory.Length && RepeatsEdges(d, memory[..], image[..], d.Height())
  {
    for i := 0 to d.Height()
      invariant d.PaddedUpTo(Rows(memory[..], 0, 2 * d.Height(), d.Stride()), img, i)
    {
      BlitRow(memory[..], 2 * d.Height(), d.Stride(), i, d.Padded(img, i));
      PadRow(d, image, memory, i * d.Stride(), i, img);
    }
    PaddedRepeats(d, memory[..], image[..], img);
  }

  ghost predicate FilterFor(d: Dims, filter: ImageFilter) {
    filter.Valid() && filter.mh == d.mh && filter.mw == d.mw && filter.width == d.wmax
  }

  /** Call t: it takes its line into the line buffer and changes memory only where it writes its block. */
  method Step(d: Dims, filter: ImageFilter, memory: array<real>, t: nat, inputOffset: nat, outputOffset: nat,
              ghost img: Matrix, ghost mask: Matrix)
    requires d.Fits(img, mask) && FilterFor(d, filter) && filter.Masks(mask) && memory != filter.outputBuffer
    requires inputOffset + d.Cells() <= memory.Length && outputOffset + d.Cells() <= memory.Length
    requires memory[..][inputOffset..inputOffset + d.Cells()] == d.Read(img, t)
    requires filter.Buffers(d.Line(img, t)) && filter.outputBuffer[d.wmax..] == Zeros(d.mw)
    modifies memory, filter.lineBuffer, filter.outputBuffer
    ensures filter.Masks(mask) && filter.outputBuffer[d.wmax..] == Zeros(d.mw)
    ensures filter.Buffers(d.Line(img, t + 1))
    ensures memory[..] == Blit(old(memory[..]), outputOffset, d.Block(img, mask, t))
  {
    StreamedShifts(img, d.mh, d.mw, d.h, d.w, d.wmax, t);
    filter.Apply(memory, inputOffset, outputOffset, mask, d.Line(img, t), d.Read(img, t));
    assert filter.outputBuffer[..] == d.Block(img, mask, t);
  }

  /** A call reads padded rows only: its own and, if the kernel is wider, the next. */
  lemma ReadsPadded(d: Dims, mem: seq<real>, at: nat, t: nat, img: Matrix)
    requires d.Positive() && IsMatrix(img, d.h, d.w) && d.InBounds() && t < d.Calls() && at == t * d.Stride()
    requires |mem| == 2 * d.Height() * d.Stride()
    requires d.PaddedUpTo(Rows(mem, 0, 2 * d.Height(), d.Stride()), img, d.Height())
    ensures at + d.Cells() <= |mem| && mem[at..at + d.Cells()] == d.Read(img, t)
  {
    InBoundsIff(d);
    assert d.WritesInside(t);
    MulLeq(t, d.OutputRow(t), d.Stride());
    forall k | 0 <= k < d.Cells() ensures mem[at + k] == d.Read(img, t)[k] {
      if k < d.Stride() {
        ReadsCell(d, mem, t, k, img);
      } else {
        SecondRow(d, t);
        ReadsCell(d, mem, t + 1, k - d.Stride(), img);
        NextRow(t, d.Stride());
      }
    }
  }

  lemma SecondRow(d: Dims, t: nat)
    requires d.Positive() && t < d.Calls() && d.InBounds() && d.Stride() < d.Cells()
    ensures t + 1 < d.Height() && d.Cells() <= 2 * d.Stride()
  {
    InBoundsIff(d);
  }

  lemma ReadsCell(d: Dims, mem: seq<real>, r: nat, k: nat, img: Matrix)
    requires d.Positive() && IsMatrix(img, d.h, d.w) && r < d.Height() && k < d.Stride()
    requires |mem| == 2 * d.Height() * d.Stride()
    requires d.PaddedUpTo(Rows(mem, 0, 2 * d.Height(), d.Stride()), img, d.Height())
    ensures 0 <= r * d.Stride() + k < |mem| && mem[r * d.Stride() + k] == PaddedCell(img, d.mh, d.mw, d.h, d.w, r, k)
  {
    RowCell(mem, 0, 2 * d.Height(), d.Stride(), r, k);
    assert Rows(mem, 0, 2 * d.Height(), d.Stride())[r] == d.Padded(img, r);
  }

  lemma NextRow(t: nat, c: nat)
    ensures t * c + c == (t + 1) * c
  {
  }

  /** How far the driver has come: padded rows, line buffer and finished output rows after t calls. */
  ghost predicate Streaming(d: Dims, filter: ImageFilter, mem: seq<real>, img: Matrix, mask: Matrix, t: nat)
    reads filter.mask, filter.lineBuffer, filter.outputBuffer
  {
    && d.Fits(img, mask) && FilterFor(d, filter) && |mem| == 2 * d.Height() * d.Stride()
    && filter.Masks(mask) && filter.Buffers(d.Line(img, t)) && filter.outputBuffer[d.wmax..] == Zeros(d.mw)
    && d.PaddedUpTo(Rows(mem, 0, 2 * d.Height(), d.Stride()), img, d.Height())
    && d.OutputUpTo(Rows(mem, 0, 2 * d.Height(), d.Stride()), img, mask, t)
  }

  /** One turn of the driver's loop. */
  method Turn(d: Dims, filter: ImageFilter, memory: array<real>, t: nat, inputOffset: nat, outputOffset: nat,
              ghost img: Matrix, ghost mask: Matrix)
    requires memory != filter.outputBuffer && d.InBounds() && t < d.Calls() && inputOffset == outputOffset == t * d.Stride()
    requires Streaming(d, filter, memory[..], img, mask, t)
    modifies memory, filter.lineBuffer, filter.outputBuffer
    ensures Streaming(d, filter, memory[..], img, mask, t + 1)
  {
    ghost var mem := memory[..];
    ghost var at := d.OutputRow(t) * d.Stride();
    Distribute(d.Height(), t, d.Stride());
    assert d.WritesInside(t);
    ReadsPadded(d, mem, inputOffset, t, img);
    Step(d, filter, memory, t, inputOffset, d.Height() * d.Stride() + outputOffset, img, mask);
    RowWritten(d, mem, at, img, mask, t);
  }

  /** The driver, from a blank line buffer: pad, then one call per streamed row. */
  method FilterImage(d: Dims, filter: ImageFilter, image: array<real>, memory: array<real>, ghost img: Matrix, ghost mask: Matrix)
    requires d.Fits(img, mask) && FilterFor(d, filter) && filter.Masks(mask) && d.InBounds()
    requires memory != filter.outputBuffer && image != memory && image != filter.outputBuffer
    requires image.Length == d.h * d.w && img == Rows(image[..], 0, d.h, d.w)
    requires memory.Length == 2 * d.Height() * d.Stride()
    requires filter.Buffers(Blank(d.mh, d.Cells())) && filter.outputBuffer[d.wmax..] == Zeros(d.mw)
    modifies memory, filter.lineBuffer, filter.outputBuffer
    ensures d.PaddedUpTo(Rows(memory[..], 0, 2 * d.Height(), d.Stride()), img, d.Height())
    ensures d.OutputUpTo(Rows(memory[..], 0, 2 * d.Height(), d.Stride()), img, mask, d.Calls())
    ensures d.OutputCorrelates(Rows(memory[..], 0, 2 * d.Height(), d.Stride()), img, mask)
  {
    Pad(d, image, memory, img);
    NothingStreamed(img, d.mh, d.mw, d.h, d.w, d.wmax);
    var inputOffset, outputOffset := 0, 0;
    for t := 0 to d.Calls()
      invariant inputOffset == outputOffset == t * d.Stride() && Streaming(d, filter, memory[..], img, mask, t)
    {
      Turn(d, filter, memory, t, inputOffset, outputOffset, img, mask);
      NextRow(t, d.Stride());
      inputOffset := inputOffset + d.Stride();
      outputOffset := outputOffset + d.Stride();
    }
    Correlates(d, Rows(memory[..], 0, 2 * d.Height(), d.Stride()), img, mask);
  }

  /** A call finishes its output row and leaves the padded rows and the finished rows alone. */
  lemma RowWritten(d: Dims, mem: seq<real>, at: nat, img: Matrix, mask: Matrix, t: nat)
    requires d.Fits(img, mask) && t < d.Height() && |mem| == 2 * d.Height() * d.Stride()
    requires d.WritesInside(t) && at == d.OutputRow(t) * d.Stride()
    requires d.PaddedUpTo(Rows(mem, 0, 2 * d.Height(), d.Stride()), img, d.Height())
    requires d.OutputUpTo(Rows(mem, 0, 2 * d.Height(), d.Stride()), img, mask, t)
    ensures d.PaddedUpTo(Rows(Blit(mem, at, d.Block(img, mask, t)), 0, 2 * d.Height(), d.Stride()), img, d.Height())
    ensures d.OutputUpTo(Rows(Blit(mem, at, d.Block(img, mask, t)), 0, 2 * d.Height(), d.Stride()), img, mask, t + 1)
  {
    var block := d.Block(img, mask, t);
    var n, c := 2 * d.Height(), d.Stride();
    var rows, rows' := Rows(mem, 0, n, c), Rows(Blit(mem, at, block), 0, n, c);
    BlitFrom(mem, n, c, d.OutputRow(t), at, block);
    forall k: nat | k < d.OutputRow(t) ensures rows'[k] == rows[k] {
      BlitAfter(mem, n, c, d.OutputRow(t), at, block, k);
    }
  }

  lemma Correlates(d: Dims, rows: Matrix, img: Matrix, mask: Matrix)
    requires d.Fits(img, mask) && IsMatrix(rows, 2 * d.Height(), d.Stride()) && d.OutputUpTo(rows, img, mask, d.Calls())
    ensures d.OutputCorrelates(rows, img, mask)
  {
    forall i: nat, j: nat | i < d.h && j < d.w
      ensures rows[d.OutputRow(i + d.mh - 1)][j] == Correlation(mask, img, d.mh, d.mw, d.h, d.w, i, j)
    {
      d.OutputCell(rows, img, mask, d.Calls(), i, j);
    }
  }

  lemma Distribute(a: nat, b: nat, c: nat)
    ensures a * c + b * c == (a + b) * c
  {
  }

  /** The cell of the output that the read-back takes for pixel (i, j). */
  function SavedPixel(d: Dims, rows: Matrix, i: nat, j: nat): real
    requires d.Positive() && IsMatrix(rows, 2 * d.Height(), d.Stride()) && i < d.h && j < d.w
  {
    rows[d.OutputRow(i + d.mh / 2)][j + d.mw / 2]
  }

  /** The read-back takes row i + mh / 2 from column mw / 2 on, although the result starts at row mh - 1, column 0. */
  method ReadBack(d: Dims, memory: array<real>, outImage: array<real>, ghost rows: Matrix)
    requires d.Positive() && memory != outImage && outImage.Length == d.h * d.w
    requires memory.Length == 2 * d.Height() * d.Stride() && rows == Rows(memory[..], 0, 2 * d.Height(), d.Stride())
    modifies outImage
    ensures forall i: nat, j: nat :: i < d.h && j < d.w ==>
      Rows(outImage[..], 0, d.h, d.w)[i][j] == SavedPixel(d, rows, i, j)
  {
    for i := 0 to d.h
      invariant forall a: nat, j: nat :: a < i && j < d.w ==>
        Rows(outImage[..], 0, d.h, d.w)[a][j] == SavedPixel(d, rows, a, j)
    {
      ghost var before := outImage[..];
      ghost var taken := rows[d.OutputRow(i + d.mh / 2)][d.mw / 2..d.mw / 2 + d.w];
      ReadBackRow(d, memory, outImage, i, rows);
      BlitRow(before, d.h, d.w, i, taken);
    }
  }

  method ReadBackRow(d: Dims, memory: array<real>, outImage: array<real>, i: nat, ghost rows: Matrix)
    requires d.Positive() && memory != outImage && i < d.h && outImage.Length == d.h * d.w
    requires memory.Length == 2 * d.Height() * d.Stride() && rows == Rows(memory[..], 0, 2 * d.Height(), d.Stride())
    modifies outImage
    ensures i * d.w + d.w <= outImage.Length
    ensures outImage[..] == Blit(old(outImage[..]), i * d.w, rows[d.OutputRow(i + d.mh / 2)][d.mw / 2..d.mw / 2 + d.w])
  {
    RowOffset(i, d.h, d.w);
    ghost var r := d.OutputRow(i + d.mh / 2);
    var start := d.Height() * d.Stride() + (i + d.mh / 2) * d.Stride();
    Distribute(d.Height(), i + d.mh / 2, d.Stride());
    RowSlice(memory[..], 2 * d.Height(), d.Stride(), r);
    SubSlice(memory[..], start, d.Stride(), d.mw / 2, d.w);
    CopyCells(memory, start + d.mw / 2, outImage, i * d.w, d.w);
  }

  method CopyCells(source: array<real>, from: nat, target: array<real>, base: nat, n: nat)
    requires source != target && from + n <= source.Length && base + n <= target.Length
    modifies target
    ensures target[..] == Blit(old(target[..]), base, source[..][from..from + n])
  {
    ghost var cells := source[..][from..from + n];
    for j := 0 to n
      invariant forall k :: 0 <= k < target.Length ==>
        target[k] == if base <= k < base + j then cells[k - base] else old(target[k])
    {
      target[base + j] := source[from + j];
    }
  }

  /** The whole program: filter, then read back. */
  method FilterAndSave(d: Dims, filter: ImageFilter, image: array<real>, memory: array<real>, outImage: array<real>,
                       ghost img: Matrix, ghost mask: Matrix)
    requires d.Fits(img, mask) && FilterFor(d, filter) && filter.Masks(mask) && d.InBounds()
    requires memory != filter.outputBuffer && image != memory && image != filter.outputBuffer && memory != outImage
    requires image.Length == d.h * d.w == outImage.Length && img == Rows(image[..], 0, d.h, d.w)
    requires memory.Length == 2 * d.Height() * d.Stride()
    requires filter.Buffers(Blank(d.mh, d.Cells())) && filter.outputBuffer[d.wmax..] == Zeros(d.mw)
    modifies memory, filter.lineBuffer, filter.outputBuffer, outImage
    ensures forall i: nat, j: nat :: i < d.h && j < d.w ==> Rows(outImage[..], 0, d.h, d.w)[i][j] == Saved(d, img, mask, i, j)
  {
    FilterImage(d, filter, image, memory, img, mask);
    ghost var rows := Rows(memory[..], 0, 2 * d.Height(), d.Stride());
    ReadBack(d, memory, outImage, rows);
    forall i: nat, j: nat | i < d.h && j < d.w ensures SavedPixel(d, rows, i, j) == Saved(d, img, mask, i, j) {
      assert rows[d.OutputRow(i + d.mh / 2)] == d.Output(img, mask, i + d.mh / 2);
    }
  }

  // ---------- what the read-back is worth ----------

  /** The value that is saved for pixel (i, j). */
  function Saved(d: Dims, img: Matrix, mask: Matrix, i: nat, j: nat): real
    requires d.Fits(img, mask) && i < d.h && j < d.w
  {
    d.Output(img, mask, i + d.mh / 2)[j + d.mw / 2]
  }

  lemma SavedIsWindow(d: Dims, img: Matrix, mask: Matrix, i: nat, j: nat)
    requires d.Fits(img, mask) && i < d.h && j < d.w
    ensures Saved(d, img, mask, i, j)
            == if j + d.mw / 2 < d.wmax then Window(mask, d.Line(img, i + d.mh / 2 + 1), d.mh, d.mw, d.wmax, j + d.mw / 2) else 0.0
  {
  }

  /**
   The saved pixel is the correlation further up and half a mask further right, where that lies
   inside the image.
   */
  lemma ReadBackIsShifted(d: Dims, img: Matrix, mask: Matrix, i: nat, j: nat)
    requires d.Fits(img, mask) && i < d.h
    requires d.mh - 1 - d.mh / 2 <= i && j + d.mw / 2 < d.w
    ensures Saved(d, img, mask, i, j)
            == Correlation(mask, img, d.mh, d.mw, d.h, d.w, i - (d.mh - 1 - d.mh / 2), j + d.mw / 2)
  {
    SavedIsWindow(d, img, mask, i, j);
    WindowIsCorrelation(mask, img, d.mh, d.mw, d.h, d.w, d.wmax, i - (d.mh - 1 - d.mh / 2), j + d.mw / 2);
  }

  /** The mask that picks one cell of its first row. */
  function Picks(mh: nat, mw: nat, b: nat): (mask: Matrix)
    ensures IsMatrix(mask, mh, mw)
  {
    seq(mh, m => seq(mw, n => if m == 0 && n == b then 1.0 else 0.0))
  }

  lemma PicksCell(mh: nat, mw: nat, b: nat, m: nat, n: nat)
    requires m < mh && n < mw
    ensures Picks(mh, mw, b)[m][n] == if m == 0 && n == b then 1.0 else 0.0
  {
  }

  lemma PicksWindow(rows: Matrix, mh: nat, mw: nat, width: nat, col: nat, b: nat)
    requires mh > 0 && b < mw && IsMatrix(rows, mh, width + mw) && col < width
    ensures Window(Picks(mh, mw, b), rows, mh, mw, width, col) == rows[0][col + b]
  {
    var f := BufferTerm(Picks(mh, mw, b), rows, mh, mw, width, col);
    forall n, m | 0 <= n < mw && 0 <= m < mh ensures f(n, m) == if n == b && m == 0 then rows[0][col + b] else 0.0 {
      PicksCell(mh, mw, b, m, n);
      assert f(n, m) == Picks(mh, mw, b)[m][n] * rows[m][Clamp(col + n, width + mw)];
    }
    SquareOnly(f, mw, mh, b, 0);
  }

  lemma PicksCorrelation(img: Matrix, mh: nat, mw: nat, h: nat, w: nat, i: nat, j: nat, b: nat)
    requires mh > 0 && b < mw && IsMatrix(img, h, w) && i < h && j < w
    ensures Correlation(Picks(mh, mw, b), img, mh, mw, h, w, i, j) == img[Clamp(i - mh / 2, h)][Clamp(j - mw / 2 + b, w)]
  {
    var f := Term(Picks(mh, mw, b), img, mh, mw, h, w, i - mh / 2, j - mw / 2);
    forall m, n | 0 <= m < mh && 0 <= n < mw
      ensures f(m, n) == if m == 0 && n == b then img[Clamp(i - mh / 2, h)][Clamp(j - mw / 2 + b, w)] else 0.0
    {
      PicksCell(mh, mw, b, m, n);
    }
    SquareOnly(f, mh, mw, 0, b);
  }

  /** With that mask a saved pixel is a cell of the line that lies first in the line buffer. */
  lemma PicksSaved(d: Dims, img: Matrix, b: nat, i: nat, j: nat)
    requires d.Positive() && IsMatrix(img, d.h, d.w) && b < d.mw && i < d.h && j < d.w && j + d.mw / 2 < d.wmax
    ensures Saved(d, img, Picks(d.mh, d.mw, b), i, j)
            == StreamedRow(img, d.mh, d.mw, d.h, d.w, d.wmax, i + d.mh / 2 + 1 - d.mh)[j + d.mw / 2 + b]
  {
    var r, c := i + d.mh / 2, j + d.mw / 2;
    SavedIsWindow(d, img, Picks(d.mh, d.mw, b), i, j);
    PicksWindow(d.Line(img, r + 1), d.mh, d.mw, d.wmax, c, b);
    assert d.Line(img, r + 1)[0] == BufferRow(img, d.mh, d.mw, d.h, d.w, d.wmax, r + 1, 0);
  }

  /** The picture that is one from row `top` and column `left` on, and zero before. */
  function Bright(h: nat, w: nat, top: nat, left: nat): (img: Matrix)
    ensures IsMatrix(img, h, w)
  {
    seq(h, i => seq(w, j => if i >= top && j >= left then 1.0 else 0.0))
  }

  lemma BrightCell(h: nat, w: nat, top: nat, left: nat, i: nat, j: nat)
    requires i < h && j < w
    ensures Bright(h, w, top, left)[i][j] == if i >= top && j >= left then 1.0 else 0.0
  {
  }

  /** A picture, a mask that picks cell b, and a pixel (0, j) that is saved wrong. */
  datatype Witness = Witness(img: Matrix, b: nat, j: nat) {
    ghost predicate Breaks(d: Dims)
      requires d.Positive()
    {
      && IsMatrix(img, d.h, d.w) && b < d.mw && j < d.w
      && Saved(d, img, Picks(d.mh, d.mw, b), 0, j) != Correlation(Picks(d.mh, d.mw, b), img, d.mh, d.mw, d.h, d.w, 0, j)
    }
  }

  /** Three mask rows or more: the first saved row comes from a line buffer that is not full yet. */
  lemma TallMaskBreaks(d: Dims)
    requires d.Positive() && d.mh >= 3
    ensures Witness(Bright(d.h, d.w, 0, 0), 0, 0).Breaks(d)
  {
    var img := Bright(d.h, d.w, 0, 0);
    PicksCorrelation(img, d.mh, d.mw, d.h, d.w, 0, 0, 0);
    BrightCell(d.h, d.w, 0, 0, Clamp(0 - d.mh / 2, d.h), Clamp(0 - d.mw / 2, d.w));
    SavedIsWindow(d, img, Picks(d.mh, d.mw, 0), 0, 0);
    if d.mw / 2 < d.wmax { PicksSaved(d, img, 0, 0, 0); }
  }

  /** Two mask columns or more, read back past the kernel's width: the last column is zero. */
  lemma TailBreaks(d: Dims)
    requires d.Positive() && d.wmax <= d.w - 1 + d.mw / 2
    ensures Witness(Bright(d.h, d.w, 0, 0), 0, d.w - 1).Breaks(d)
  {
    var img := Bright(d.h, d.w, 0, 0);
    PicksCorrelation(img, d.mh, d.mw, d.h, d.w, 0, d.w - 1, 0);
    BrightCell(d.h, d.w, 0, 0, Clamp(0 - d.mh / 2, d.h), Clamp(d.w - 1 - d.mw / 2, d.w));
    SavedIsWindow(d, img, Picks(d.mh, d.mw, 0), 0, d.w - 1);
  }

  /** Two mask columns or more in a wider kernel: the last column is the picture half a mask further right. */
  lemma WideMaskBreaks(d: Dims)
    requires d.Positive() && d.mh <= 2 && d.mw >= 2 && d.w >= 2 && d.w - 1 + d.mw / 2 < d.wmax
    ensures Witness(Bright(d.h, d.w, 0, d.w - 1), 0, d.w - 1).Breaks(d)
  {
    var img, last := Bright(d.h, d.w, 0, d.w - 1), d.w - 1;
    PicksCorrelation(img, d.mh, d.mw, d.h, d.w, 0, last, 0);
    BrightCell(d.h, d.w, 0, last, 0, Clamp(last - d.mw / 2, d.w));
    PicksSaved(d, img, 0, 0, last);
    assert 0 + d.mh / 2 + 1 - d.mh == 0;
    assert d.Read(img, 0)[last + d.mw / 2] == PaddedCell(img, d.mh, d.mw, d.h, d.w, 0, last + d.mw / 2);
    BrightCell(d.h, d.w, 0, last, Clamp(0 - d.mh / 2, d.h), last);
  }

  /** A picture one column wide: a mask of four columns or more reaches into the next row. */
  lemma ThinPictureBreaks(d: Dims)
    requires d.Positive() && d.mh == 1 && d.w == 1 && d.mw >= 4 && d.h >= 2 && d.mw / 2 < d.wmax
    ensures Witness(Bright(d.h, d.w, 1, 0), d.mw - 1, 0).Breaks(d)
  {
    var img, k := Bright(d.h, d.w, 1, 0), d.mw / 2 + d.mw - 1;
    PicksCorrelation(img, d.mh, d.mw, d.h, d.w, 0, 0, d.mw - 1);
    BrightCell(d.h, d.w, 1, 0, 0, 0);
    PicksSaved(d, img, d.mw - 1, 0, 0);
    assert d.Read(img, 0)[k] == PaddedCell(img, d.mh, d.mw, d.h, d.w, 1, k - (1 + d.mw));
    BrightCell(d.h, d.w, 1, 0, 1, 0);
  }

  /** A picture one column wide under a mask of one row: the read-back finds the column everywhere, if the mask stays on its row. */
  lemma ThinPictureSaved(d: Dims, img: Matrix, mask: Matrix, i: nat)
    requires d.Fits(img, mask) && d.mh == 1 && d.w == 1 && d.mw / 2 < d.wmax && (d.mw <= 3 || d.h == 1) && i < d.h
    ensures Saved(d, img, mask, i, 0) == Correlation(mask, img, d.mh, d.mw, d.h, d.w, i, 0)
  {
    var rows, c := d.Line(img, i + 1), d.mw / 2;
    SavedIsWindow(d, img, mask, i, 0);
    forall m: nat, n: nat | m < d.mh && n < d.mw ensures CoversAt(rows, img, d.mh, d.mw, d.h, d.w, d.wmax, c, i, 0, m, n) {
      StreamedCell(img, d.mh, d.mw, d.h, d.w, d.wmax, i, m, c + n);
    }
    WindowCovers(mask, rows, img, d.mh, d.mw, d.h, d.w, d.wmax, c, i, 0);
  }

  /** The read-back takes each pixel from where it is: masks of one column, and pictures of one column that the mask cannot leave. */
  ghost predicate ReadsInPlace(d: Dims) {
    && d.mh <= 2
    && (d.mw == 1 || (d.w == 1 && d.mw / 2 < d.wmax && (d.mw <= 3 || d.h == 1)))
  }

  lemma ReadBackBreaks(d: Dims) returns (wrong: Witness)
    requires d.Positive() && d.InBounds() && !ReadsInPlace(d)
    ensures wrong.Breaks(d)
  {
    InBoundsIff(d);
    if d.mh >= 3 {
      TallMaskBreaks(d);
      wrong := Witness(Bright(d.h, d.w, 0, 0), 0, 0);
    } else if d.wmax <= d.w - 1 + d.mw / 2 {
      TailBreaks(d);
      wrong := Witness(Bright(d.h, d.w, 0, 0), 0, d.w - 1);
    } else if d.w >= 2 {
      WideMaskBreaks(d);
      wrong := Witness(Bright(d.h, d.w, 0, d.w - 1), 0, d.w - 1);
    } else {
      ThinPictureBreaks(d);
      wrong := Witness(Bright(d.h, d.w, 1, 0), d.mw - 1, 0);
    }
  }

  /** The saved picture is the correlation for every picture and every mask. */
  ghost predicate SavesCorrelation(d: Dims)
    requires d.Positive()
  {
    forall img, mask, i: nat, j: nat :: d.Fits(img, mask) && i < d.h && j < d.w ==>
      Saved(d, img, mask, i, j) == Correlation(mask, img, d.mh, d.mw, d.h, d.w, i, j)
  }

  /** Exactly when the driver saves what it should. */
  lemma ReadBackRightIff(d: Dims)
    requires d.Positive() && d.InBounds()
    ensures SavesCorrelation(d) <==> ReadsInPlace(d)
  {
    InBoundsIff(d);
    if ReadsInPlace(d) {
      forall img, mask, i: nat, j: nat | d.Fits(img, mask) && i < d.h && j < d.w
        ensures Saved(d, img, mask, i, j) == Correlation(mask, img, d.mh, d.mw, d.h, d.w, i, j)
      {
        if d.mw == 1 { ReadBackIsShifted(d, img, mask, i, j); } else { ThinPictureSaved(d, img, mask, i); }
      }
    } else {
      var wrong := ReadBackBreaks(d);
      assert d.Fits(wrong.img, Picks(d.mh, d.mw, wrong.b));
    }
  }
}
