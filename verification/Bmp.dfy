/**
 bmpfuncs.cpp: eight-bit BMP files as byte sequences.  Rows lie bottom-up, each padded to a
 multiple of four bytes; readImage reads them in file order and then flips the image in place.
 */
module Bmp {
  import opened Matrices

  type byte = x: int | 0 <= x < 256
  type File = seq<byte>
  type Pixels = seq<seq<byte>>

  // ---------- the format ----------

  /** A signed little-endian 32-bit field. */
  function Field(file: File, at: nat): int
    requires at + 4 <= |file|
  {
    var b0: int, b1: int, b2: int, b3: int := file[at], file[at + 1], file[at + 2], file[at + 3];
    var u := b0 + 0x100 * b1 + 0x1_0000 * b2 + 0x100_0000 * b3;
    if u < 0x8000_0000 then u else u - 0x1_0000_0000
  }

  /** Byte k of a number, the lowest first; negative numbers in two's complement. */
  function ByteOf(v: int, k: nat): int
    decreases k
  {
    if k == 0 then v % 0x100 else ByteOf(v / 0x100, k - 1)
  }

  lemma FourBytes(v: int)
    requires -0x8000_0000 <= v < 0x8000_0000
    ensures ByteOf(v, 0) + 0x100 * ByteOf(v, 1) + 0x1_0000 * ByteOf(v, 2) + 0x100_0000 * ByteOf(v, 3)
            == if v < 0 then v + 0x1_0000_0000 else v
  {
    var q1 := v / 0x100;
    var q2 := q1 / 0x100;
    var q3 := q2 / 0x100;
    var q4 := q3 / 0x100;
    assert ByteOf(v, 1) == ByteOf(q1, 0) == q1 % 0x100;
    assert ByteOf(v, 2) == ByteOf(q1, 1) == ByteOf(q2, 0) == q2 % 0x100;
    assert ByteOf(v, 3) == ByteOf(q1, 2) == ByteOf(q2, 1) == ByteOf(q3, 0) == q3 % 0x100;
    assert q4 == if v < 0 then -1 else 0;
  }

  /** The field that holds a number. */
  lemma FieldIs(file: File, at: nat, v: int)
    requires at + 4 <= |file| && -0x8000_0000 <= v < 0x8000_0000
    requires forall k: nat :: k < 4 ==> file[at + k] == ByteOf(v, k)
    ensures Field(file, at) == v
  {
    assert file[at + 0] == ByteOf(v, 0) && file[at + 1] == ByteOf(v, 1) && file[at + 2] == ByteOf(v, 2) && file[at + 3] == ByteOf(v, 3);
    FourBytes(v);
  }

  /** The size fields: bytes 10 to 13 say where the pixels begin, 18 to 21 how wide the picture is, 22 to 25 how high. */
  lemma HeaderIs(file: File, offset: int, width: int, height: int)
    requires |file| >= 26 && -0x8000_0000 <= offset < 0x8000_0000
    requires -0x8000_0000 <= width < 0x8000_0000 && -0x8000_0000 <= height < 0x8000_0000
    requires forall k: nat :: k < 4 ==>
      file[10 + k] == ByteOf(offset, k) && file[18 + k] == ByteOf(width, k) && file[22 + k] == ByteOf(height, k)
    ensures Offset(file) == offset && Width(file) == width && Height(file) == height
  {
    FieldIs(file, 10, offset);
    FieldIs(file, 18, width);
    FieldIs(file, 22, height);
  }

  const HEADER := 26

  function Offset(file: File): int
    requires |file| >= HEADER
  {
    Field(file, 10)
  }

  function Width(file: File): int
    requires |file| >= HEADER
  {
    Field(file, 18)
  }

  function Height(file: File): int
    requires |file| >= HEADER
  {
    Field(file, 22)
  }

  function Padding(width: nat): nat {
    var mod := width % 4;
    if mod != 0 then 4 - mod else mod
  }

  function Stride(width: nat): nat {
    width + Padding(width)
  }

  /** The stride is the least multiple of four that holds a row. */
  lemma StrideIsLeast(width: nat, n: nat)
    ensures Stride(width) % 4 == 0 && width <= Stride(width)
    ensures n % 4 == 0 && width <= n ==> Stride(width) <= n
  {
  }

  /** A header with sizes that are not negative. */
  ghost predicate HasHeader(file: File) {
    |file| >= HEADER && 0 <= Offset(file) <= |file| && Width(file) >= 0 && Height(file) >= 0
  }

  /** Where the rows lie: h rows of w pixels, s bytes apart, from off on. */
  datatype Layout = Layout(off: nat, h: nat, w: nat, s: nat)

  function LayoutOf(file: File): Layout
    requires HasHeader(file)
  {
    Layout(Offset(file), Height(file), Width(file), Stride(Width(file)))
  }

  /** The file holds all the rows of the layout. */
  ghost predicate Holds(file: File, l: Layout) {
    l.w <= l.s && l.off + l.h * l.s <= |file|
  }

  ghost predicate Complete(file: File) {
    HasHeader(file) && Holds(file, LayoutOf(file))
  }

  function Reversed<T>(s: seq<T>): (r: seq<T>)
    ensures |r| == |s|
  {
    seq(|s|, k requires 0 <= k < |s| => s[|s| - 1 - k])
  }

  /** The pixels, row by row in file order. */
  function Upward(file: File, l: Layout): (rows: Pixels)
    requires Holds(file, l)
    ensures IsMatrix(rows, l.h, l.w)
  {
    seq(l.h, k requires 0 <= k < l.h => FileRow(file, l, k)[..l.w])
  }

  /** Row k in file order, padding included. */
  function FileRow(file: File, l: Layout, k: nat): (row: seq<byte>)
    requires Holds(file, l) && k < l.h
    ensures |row| == l.s
  {
    RowAt(file, l.off, l.h, l.s, k)
  }

  /** The picture, top row first. */
  function Picture(file: File, l: Layout): (rows: Pixels)
    requires Holds(file, l)
    ensures IsMatrix(rows, l.h, l.w)
  {
    Reversed(Upward(file, l))
  }

  /** Byte j of row i from the top: the rows lie the other way round. */
  function ByteAt(l: Layout, i: nat, j: nat): (at: nat)
    requires i < l.h && j < l.s
    ensures l.off <= at == l.off + (l.h - 1 - i) * l.s + j < l.off + l.h * l.s
  {
    InMatrix(l.h - 1 - i, j, l.h, l.s);
    l.off + (l.h - 1 - i) * l.s + j
  }

  lemma PictureCell(file: File, l: Layout, i: nat, j: nat)
    requires Holds(file, l) && i < l.h && j < l.w
    ensures Picture(file, l)[i][j] == file[ByteAt(l, i, j)]
  {
    FileCell(file, l, i, j);
    assert Picture(file, l)[i] == Upward(file, l)[l.h - 1 - i] == FileRow(file, l, l.h - 1 - i)[..l.w];
  }

  function PaddedPixels(row: seq<byte>): (r: seq<byte>)
    ensures |r| == Stride(|row|) && r[..|row|] == row
    ensures forall k :: |row| <= k < |r| ==> row != [] && r[k] == row[|row| - 1]
  {
    if row == [] then [] else row + seq(Padding(|row|), _ => row[|row| - 1])
  }

  function PaddedRows(rows: Pixels): (r: Pixels)
    ensures |r| == |rows|
  {
    seq(|rows|, i requires 0 <= i < |rows| => PaddedPixels(rows[i]))
  }

  /** Rows written one after the other, the last first. */
  function Stack<T>(rows: seq<seq<T>>): seq<T> {
    if rows == [] then [] else Stack(rows[1..]) + rows[0]
  }

  /** What storeImage writes for a picture: the header of a reference file, then the rows bottom-up. */
  function Stored(reference: File, rows: Pixels): File
    requires HasHeader(reference)
  {
    reference[..Offset(reference)] + Stack(PaddedRows(rows))
  }

  // ---------- round trips ----------

  lemma Plus(h: nat, c: nat)
    requires h > 0
    ensures (h - 1) * c + c == h * c
  {
  }

  lemma {:induction false} StackLength<T>(rows: seq<seq<T>>, h: nat, s: nat)
    requires IsMatrix(rows, h, s)
    ensures |Stack(rows)| == h * s
  {
    if h > 0 {
      StackLength(rows[1..], h - 1, s);
      Plus(h, s);
    }
  }

  /** Row k of stacked rows, which starts at `at`. */
  lemma {:induction false} StackRow<T>(rows: seq<seq<T>>, h: nat, s: nat, k: nat, at: nat)
    requires IsMatrix(rows, h, s) && k < h && at == k * s
    ensures at + s <= |Stack(rows)| && Stack(rows)[at..at + s] == rows[h - 1 - k]
  {
    var below := Stack(rows[1..]);
    StackLength(rows[1..], h - 1, s);
    if k < h - 1 {
      StackRow(rows[1..], h - 1, s, k, at);
      SliceOfLeft(below, rows[0], at, s);
    } else {
      assert at == |below| && (below + rows[0])[at..at + s] == rows[0];
    }
  }

  lemma SliceOfLeft<T>(a: seq<T>, b: seq<T>, at: nat, n: nat)
    requires at + n <= |a|
    ensures (a + b)[at..at + n] == a[at..at + n]
  {
  }

  lemma SliceOfRight<T>(a: seq<T>, b: seq<T>, off: nat, at: nat, n: nat)
    requires off == |a| && at + n <= |b|
    ensures (a + b)[off + at..off + at + n] == b[at..at + n]
  {
  }

  /** Row k of a header followed by stacked rows. */
  lemma StackedRow(header: seq<byte>, rows: Pixels, l: Layout, k: nat)
    requires IsMatrix(rows, l.h, l.s) && l.off == |header| && l.w <= l.s && k < l.h
    ensures Holds(header + Stack(rows), l)
    ensures FileRow(header + Stack(rows), l, k) == rows[l.h - 1 - k]
  {
    StackLength(rows, l.h, l.s);
    StackRow(rows, l.h, l.s, k, k * l.s);
    SliceOfRight(header, Stack(rows), l.off, k * l.s, l.s);
  }

  /** Each padded row starts with its row. */
  ghost predicate Trims(padded: Pixels, rows: Pixels, w: nat) {
    |padded| == |rows| && forall i :: 0 <= i < |rows| ==> |padded[i]| >= w && padded[i][..w] == rows[i]
  }

  lemma PaddingTrims(rows: Pixels, h: nat, w: nat)
    requires IsMatrix(rows, h, w)
    ensures IsMatrix(PaddedRows(rows), h, Stride(w)) && Trims(PaddedRows(rows), rows, w)
  {
  }

  lemma StackedPicture(header: seq<byte>, padded: Pixels, rows: Pixels, l: Layout)
    requires IsMatrix(padded, l.h, l.s) && l.off == |header| && l.w <= l.s && Trims(padded, rows, l.w)
    ensures Holds(header + Stack(padded), l)
    ensures Picture(header + Stack(padded), l) == rows
  {
    var file := header + Stack(padded);
    StackLength(padded, l.h, l.s);
    forall i | 0 <= i < l.h ensures Picture(file, l)[i] == rows[i] {
      var k := l.h - 1 - i;
      StackedRow(header, padded, l, k);
      assert Upward(file, l)[k] == FileRow(file, l, k)[..l.w];
    }
  }

  /** A stored picture has the reference's header. */
  lemma StoredHeader(reference: File, rows: Pixels)
    requires HasHeader(reference) && Offset(reference) >= HEADER
    ensures HasHeader(Stored(reference, rows)) && LayoutOf(Stored(reference, rows)) == LayoutOf(reference)
  {
    var copy := Stored(reference, rows);
    assert copy[..HEADER] == reference[..HEADER];
    SameField(copy, reference, 10);
    SameField(copy, reference, 18);
    SameField(copy, reference, 22);
  }

  lemma SameField(a: File, b: File, at: nat)
    requires at + 4 <= HEADER <= |a| && HEADER <= |b| && a[..HEADER] == b[..HEADER]
    ensures Field(a, at) == Field(b, at)
  {
    assert forall k :: 0 <= k < HEADER ==> a[..HEADER][k] == a[k] && b[..HEADER][k] == b[k];
  }

  /** A stored picture cell by cell: pixel j of row i from the top, and after the last pixel the same again. */
  lemma StoredCell(header: File, rows: Pixels, l: Layout, i: nat, j: nat)
    requires IsMatrix(rows, l.h, l.w) && l.s == Stride(l.w) && l.off == |header| && i < l.h && j < l.s
    ensures Holds(header + Stack(PaddedRows(rows)), l)
    ensures l.w > 0 && (header + Stack(PaddedRows(rows)))[ByteAt(l, i, j)] == rows[i][if j < l.w then j else l.w - 1]
  {
    var file := header + Stack(PaddedRows(rows));
    PaddingTrims(rows, l.h, l.w);
    StackedRow(header, PaddedRows(rows), l, l.h - 1 - i);
    FileCell(file, l, i, j);
    PaddedCell(rows[i], j);
  }

  lemma FileCell(file: File, l: Layout, i: nat, j: nat)
    requires Holds(file, l) && i < l.h && j < l.s
    ensures FileRow(file, l, l.h - 1 - i)[j] == file[ByteAt(l, i, j)]
  {
    var k := l.h - 1 - i;
    RowCell(file, l.off, l.h, l.s, k, j);
    assert Rows(file, l.off, l.h, l.s)[k] == FileRow(file, l, k);
  }

  lemma PaddedCell(row: seq<byte>, j: nat)
    requires j < Stride(|row|)
    ensures |row| > 0 && PaddedPixels(row)[j] == row[if j < |row| then j else |row| - 1]
  {
    if j < |row| { assert PaddedPixels(row)[..|row|][j] == PaddedPixels(row)[j]; }
  }

  /** Reading back a stored picture gives the picture. */
  lemma StoredPicture(reference: File, rows: Pixels)
    requires HasHeader(reference) && Offset(reference) >= HEADER
    requires IsMatrix(rows, Height(reference), Width(reference))
    ensures Complete(Stored(reference, rows))
    ensures Picture(Stored(reference, rows), LayoutOf(Stored(reference, rows))) == rows
  {
    var l := LayoutOf(reference);
    StoredHeader(reference, rows);
    PaddingTrims(rows, l.h, l.w);
    StackedPicture(reference[..Offset(reference)], PaddedRows(rows), rows, l);
  }

  /** Row k's padding repeats its last pixel, as storeImage would write it. */
  ghost predicate RepeatsLast(file: File, l: Layout)
    requires Holds(file, l)
  {
    forall k :: 0 <= k < l.h ==> FileRow(file, l, k) == PaddedPixels(Upward(file, l)[k])
  }

  /** Storing what was read puts every pixel byte back in place. */
  lemma RestoredRow(header: seq<byte>, file: File, l: Layout, k: nat)
    requires Holds(file, l) && l.off == |header| && l.s == Stride(l.w) && k < l.h
    ensures Holds(header + Stack(PaddedRows(Picture(file, l))), l)
    ensures FileRow(header + Stack(PaddedRows(Picture(file, l))), l, k) == PaddedPixels(Upward(file, l)[k])
    ensures FileRow(header + Stack(PaddedRows(Picture(file, l))), l, k)[..l.w] == FileRow(file, l, k)[..l.w]
  {
    var rows := Picture(file, l);
    PaddingTrims(rows, l.h, l.w);
    StackedRow(header, PaddedRows(rows), l, k);
    assert rows[l.h - 1 - k] == Upward(file, l)[k];
  }

  function EndOfRows(l: Layout): nat {
    l.off + l.h * l.s
  }

  /** And reproduces the file up to the end of its rows iff its padding repeated the last pixels. */
  lemma RestoredFile(file: File, l: Layout)
    requires HasHeader(file) && l == LayoutOf(file) && Holds(file, l) && l.off >= HEADER
    ensures Stored(file, Picture(file, l)) == file[..EndOfRows(l)] <==> RepeatsLast(file, l)
  {
    var copy := Stored(file, Picture(file, l));
    PaddingTrims(Picture(file, l), l.h, l.w);
    forall k | 0 <= k < l.h ensures RowBack(copy, file, l, k) {
      RestoredRow(file[..l.off], file, l, k);
    }
    StackLength(PaddedRows(Picture(file, l)), l.h, l.s);
    Restored(copy, file, l, l.h * l.s);
  }

  ghost predicate RowBack(copy: File, file: File, l: Layout, k: nat) {
    Holds(copy, l) && Holds(file, l) && k < l.h && FileRow(copy, l, k) == PaddedPixels(Upward(file, l)[k])
  }

  lemma Restored(copy: File, file: File, l: Layout, n: nat)
    requires Holds(file, l) && n == l.h * l.s && |copy| == l.off + n && copy[..l.off] == file[..l.off]
    requires forall k :: 0 <= k < l.h ==> RowBack(copy, file, l, k)
    ensures copy == file[..l.off + n] <==> RepeatsLast(file, l)
  {
    if copy == file[..l.off + n] {
      forall k | 0 <= k < l.h ensures FileRow(file, l, k) == PaddedPixels(Upward(file, l)[k]) {
        assert RowBack(copy, file, l, k);
        RowOfPrefix(file, l.off, l.h, l.s, k, l.off + n);
      }
    }
    if RepeatsLast(file, l) {
      forall k: nat | k < l.h ensures RowsAgree(copy, file, l.off, l.h, l.s, k) {
        assert RowBack(copy, file, l, k);
        assert FileRow(file, l, k) == PaddedPixels(Upward(file, l)[k]);
      }
      SameRows(copy, file, l.off, l.h, l.s);
      Join(copy, 0, l.off, l.off + n);
      Join(file, 0, l.off, l.off + n);
    }
  }

  lemma RowOfPrefix<T>(a: seq<T>, off: nat, h: nat, c: nat, k: nat, end: nat)
    requires end == off + h * c <= |a| && k < h
    ensures RowAt(a[..end], off, h, c, k) == RowAt(a, off, h, c, k)
  {
    RowOffset(k, h, c);
  }

  ghost predicate RowsAgree<T>(a: seq<T>, b: seq<T>, off: nat, h: nat, c: nat, k: nat)
    requires off + h * c <= |a| && off + h * c <= |b|
  {
    k < h ==> RowAt(a, off, h, c, k) == RowAt(b, off, h, c, k)
  }

  lemma SameNext<T>(a: seq<T>, b: seq<T>, lo: nat, mid: nat, hi: nat)
    requires lo <= mid <= hi <= |a| && hi <= |b| && a[lo..mid] == b[lo..mid] && a[mid..hi] == b[mid..hi]
    ensures a[lo..hi] == b[lo..hi]
  {
    Join(a, lo, mid, hi);
    Join(b, lo, mid, hi);
  }

  /** Cut at these places, a and b have the same k-th piece. */
  ghost predicate SamePiece<T>(a: seq<T>, b: seq<T>, cuts: seq<nat>, k: nat)
    requires k + 1 < |cuts|
  {
    cuts[k] <= cuts[k + 1] <= |a| && cuts[k + 1] <= |b| && a[cuts[k]..cuts[k + 1]] == b[cuts[k]..cuts[k + 1]]
  }

  /** Files with the same pieces are the same from the first cut to any other. */
  lemma {:induction false} SamePieces<T>(a: seq<T>, b: seq<T>, cuts: seq<nat>, m: nat)
    requires m < |cuts| && cuts[0] <= |a| && cuts[0] <= |b| && forall k: nat :: k + 1 < |cuts| ==> SamePiece(a, b, cuts, k)
    ensures cuts[0] <= cuts[m] <= |a| && cuts[m] <= |b| && a[cuts[0]..cuts[m]] == b[cuts[0]..cuts[m]]
  {
    if m > 0 {
      SamePieces(a, b, cuts, m - 1);
      assert SamePiece(a, b, cuts, m - 1);
      SameNext(a, b, cuts[0], cuts[m - 1], cuts[m]);
    }
  }

  function RowStart(off: nat, c: nat, k: nat): nat {
    off + k * c
  }

  lemma SameRow<T>(a: seq<T>, b: seq<T>, off: nat, h: nat, c: nat, k: nat)
    requires off + h * c <= |a| && off + h * c <= |b| && k < h && RowsAgree(a, b, off, h, c, k)
    ensures RowStart(off, c, k) <= RowStart(off, c, k + 1) <= off + h * c
    ensures a[RowStart(off, c, k)..RowStart(off, c, k + 1)] == b[RowStart(off, c, k)..RowStart(off, c, k + 1)]
  {
    RowOffset(k, h, c);
    Plus(k + 1, c);
  }

  /** Files that agree on every row agree from the first to the end of the last. */
  lemma SameRows<T>(a: seq<T>, b: seq<T>, off: nat, h: nat, c: nat)
    requires off + h * c <= |a| && off + h * c <= |b| && forall k: nat :: k < h ==> RowsAgree(a, b, off, h, c, k)
    ensures a[off..off + h * c] == b[off..off + h * c]
  {
    var cuts: seq<nat> := seq(h + 1, k requires 0 <= k < h + 1 => RowStart(off, c, k));
    forall k: nat | k + 1 < |cuts| ensures SamePiece(a, b, cuts, k) {
      assert RowsAgree(a, b, off, h, c, k);
      SameRow(a, b, off, h, c, k);
    }
    NoRows(off, h, c);
    SamePieces(a, b, cuts, h);
  }

  lemma NoRows(off: nat, h: nat, c: nat)
    ensures RowStart(off, c, 0) == off <= RowStart(off, c, h) == off + h * c
  {
  }

  lemma Join<T>(a: seq<T>, lo: nat, mid: nat, hi: nat)
    requires lo <= mid <= hi <= |a|
    ensures a[lo..hi] == a[lo..mid] + a[mid..hi]
  {
  }
}
