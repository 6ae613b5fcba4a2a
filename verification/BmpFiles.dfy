/** storeImage and readImage themselves, loop by loop, and what saving and loading a picture keeps. */
module BmpFiles {
  import opened Common
  import opened Matrices
  import opened Bmp

  // ---------- pixel values ----------

  /** C's conversion to unsigned char: it truncates, and outside (-1, 256) it is undefined. */
  function ToByte(r: real): (b: byte)
    requires -1.0 < r < 256.0
    ensures r >= 0.0 ==> b as real <= r < b as real + 1.0
    ensures r < 0.0 ==> b == 0
  {
    if r < 0.0 then 0 else r.Floor
  }

  ghost predicate Representable(row: seq<real>) {
    forall j :: 0 <= j < |row| ==> -1.0 < row[j] < 256.0
  }

  function ToBytes(row: seq<real>): (r: seq<byte>)
    requires Representable(row)
    ensures |r| == |row|
  {
    seq(|row|, j requires 0 <= j < |row| => ToByte(row[j]))
  }

  function ToReals(row: seq<byte>): (r: seq<real>)
    ensures |r| == |row|
  {
    seq(|row|, j requires 0 <= j < |row| => row[j] as real)
  }

  ghost predicate AllRepresentable(rows: seq<seq<real>>) {
    forall i :: 0 <= i < |rows| ==> Representable(rows[i])
  }

  function Bytes(rows: seq<seq<real>>): (r: Pixels)
    requires AllRepresentable(rows)
    ensures |r| == |rows| && forall i :: 0 <= i < |r| ==> |r[i]| == |rows[i]|
  {
    seq(|rows|, i requires 0 <= i < |rows| => ToBytes(rows[i]))
  }

  function Reals(rows: Pixels): (r: seq<seq<real>>)
    ensures |r| == |rows| && forall i :: 0 <= i < |r| ==> |r[i]| == |rows[i]|
  {
    seq(|rows|, i requires 0 <= i < |rows| => ToReals(rows[i]))
  }

  /** Whole numbers from 0 to 255. */
  ghost predicate Whole(rows: seq<seq<real>>) {
    forall i, j :: 0 <= i < |rows| && 0 <= j < |rows[i]| ==>
      0.0 <= rows[i][j] < 256.0 && rows[i][j] == rows[i][j].Floor as real
  }

  /** Loading what was saved gives the same pixels iff they were whole numbers from 0 to 255. */
  lemma SavedPixels(rows: seq<seq<real>>)
    requires AllRepresentable(rows)
    ensures Reals(Bytes(rows)) == rows <==> Whole(rows)
  {
    var back := Reals(Bytes(rows));
    forall i, j | 0 <= i < |rows| && 0 <= j < |rows[i]| ensures back[i][j] == ToByte(rows[i][j]) as real {
      assert Representable(rows[i]);
      assert Bytes(rows)[i] == ToBytes(rows[i]);
      assert back[i] == ToReals(Bytes(rows)[i]);
    }
    if back == rows {
      forall i, j | 0 <= i < |rows| && 0 <= j < |rows[i]|
        ensures 0.0 <= rows[i][j] < 256.0 && rows[i][j] == rows[i][j].Floor as real
      {
        assert Representable(rows[i]);
        assert back[i][j] == rows[i][j];
      }
    }
    if Whole(rows) {
      forall i | 0 <= i < |rows| ensures back[i] == rows[i] {
        assert forall j :: 0 <= j < |rows[i]| ==> back[i][j] == rows[i][j];
      }
    }
  }

  lemma LoadedPixels(rows: Pixels)
    ensures AllRepresentable(Reals(rows)) && Bytes(Reals(rows)) == rows
  {
    var reals := Reals(rows);
    forall i | 0 <= i < |rows| ensures Representable(reals[i]) && ToBytes(reals[i]) == rows[i] {
      assert reals[i] == ToReals(rows[i]);
    }
  }

  // ---------- saving ----------

  /** The picture in a buffer of rows of cols cells: the first w of each. */
  function Cropped(mem: seq<real>, h: nat, w: nat, cols: nat): (rows: seq<seq<real>>)
    requires h * cols <= |mem| && w <= cols
    ensures IsMatrix(rows, h, w)
  {
    seq(h, i requires 0 <= i < h => RowAt(mem, 0, h, cols, i)[..w])
  }

  /** The loops over j: a row of pixels, then the last of them again as padding. */
  method WriteRow(out: File, imageOut: array<real>, base: nat, width: nat, mod: nat) returns (out': File)
    requires base + width <= imageOut.Length && Representable(imageOut[base..base + width]) && mod == Padding(width)
    ensures out' == out + PaddedPixels(ToBytes(imageOut[base..base + width]))
  {
    ghost var row := ToBytes(imageOut[base..base + width]);
    var tmp: byte := 0;
    out' := out;
    for j := 0 to width
      invariant out' == out + row[..j]
      invariant j > 0 ==> tmp == row[j - 1]
    {
      assert imageOut[base..base + width][j] == imageOut[base + j];
      tmp := ToByte(imageOut[base + j]);
      assert tmp == row[j];
      out' := out' + [tmp];
    }
    for j := 0 to mod
      invariant out' == out + row + seq(j, _ => tmp)
    {
      out' := out' + [tmp];
    }
  }

  lemma CroppedRow(mem: seq<real>, h: nat, w: nat, cols: nat, i: nat, base: nat)
    requires h * cols <= |mem| && w <= cols && i < h && base == i * cols
    ensures base + w <= |mem| && Cropped(mem, h, w, cols)[i] == mem[base..base + w]
  {
    RowOffset(i, h, cols);
    assert Cropped(mem, h, w, cols)[i] == RowAt(mem, 0, h, cols, i)[..w];
  }

  lemma StackNext<T>(rows: seq<seq<T>>, i: nat)
    requires i < |rows|
    ensures Stack(rows[i..]) == Stack(rows[i + 1..]) + rows[i]
  {
    assert rows[i..][1..] == rows[i + 1..];
  }

  /** Row i of the picture, converted and padded. */
  function StoredRow(rows: seq<seq<real>>, i: nat): seq<byte>
    requires i < |rows| && AllRepresentable(rows)
  {
    PaddedPixels(ToBytes(rows[i]))
  }

  lemma StoredRows(header: File, rows: seq<seq<real>>, i: nat)
    requires i < |rows| && AllRepresentable(rows)
    ensures var padded := PaddedRows(Bytes(rows));
      header + Stack(padded[i..]) == header + Stack(padded[i + 1..]) + StoredRow(rows, i)
  {
    var padded := PaddedRows(Bytes(rows));
    StackNext(padded, i);
    Regroup(header, Stack(padded[i + 1..]), StoredRow(rows, i));
  }

  lemma Regroup<T>(a: seq<T>, b: seq<T>, c: seq<T>)
    ensures a + (b + c) == a + b + c
  {
  }

  /** One turn of the loop over i. */
  method WriteNth(out: File, imageOut: array<real>, i: nat, height: nat, width: nat, cols: nat, mod: nat) returns (out': File)
    requires i < height && width <= cols && height * cols <= imageOut.Length && mod == Padding(width)
    requires AllRepresentable(Cropped(imageOut[..], height, width, cols))
    ensures out' == out + StoredRow(Cropped(imageOut[..], height, width, cols), i)
  {
    var base := i * cols;
    CroppedRow(imageOut[..], height, width, cols, i, base);
    assert imageOut[..][base..base + width] == imageOut[base..base + width];
    out' := WriteRow(out, imageOut, base, width, mod);
  }

  /** The loop over i, from the bottom row up. */
  method WriteRows(header: File, imageOut: array<real>, height: nat, width: nat, cols: nat, mod: nat) returns (out: File)
    requires width <= cols && height * cols <= imageOut.Length && mod == Padding(width)
    requires AllRepresentable(Cropped(imageOut[..], height, width, cols))
    ensures out == header + Stack(PaddedRows(Bytes(Cropped(imageOut[..], height, width, cols))))
  {
    ghost var rows := Cropped(imageOut[..], height, width, cols);
    ghost var padded := PaddedRows(Bytes(rows));
    out := header;
    for i := height downto 0
      invariant out == header + Stack(padded[i..])
    {
      StoredRows(header, rows, i);
      out := WriteNth(out, imageOut, i, height, width, cols, mod);
    }
  }

  /** Every byte of the rows: the pixel truncated, and after the last pixel of a row the same again. */
  ghost predicate IsStored(out: File, l: Layout, imageOut: seq<real>, cols: nat)
    requires Holds(out, l) && l.w <= cols && l.h * cols <= |imageOut|
  {
    forall i: nat, j: nat :: i < l.h && j < l.s ==> StoredByte(out, l, imageOut, cols, i, j)
  }

  ghost predicate StoredByte(out: File, l: Layout, imageOut: seq<real>, cols: nat, i: nat, j: nat)
    requires Holds(out, l) && l.w <= cols && l.h * cols <= |imageOut| && i < l.h && j < l.s
  {
    var b, r := out[ByteAt(l, i, j)] as real, PixelAt(imageOut, l.h, cols, i, if j < l.w then j else l.w - 1);
    if r < 0.0 then b == 0.0 else b <= r < b + 1.0
  }

  function PixelAt(imageOut: seq<real>, h: nat, cols: nat, i: nat, j: int): (r: real)
    requires h * cols <= |imageOut| && i < h
    ensures 0 <= j < cols ==> i * cols + j < |imageOut| && r == imageOut[i * cols + j]
  {
    Mul(i, h, cols);
    if 0 <= j < cols then imageOut[i * cols + j] else 0.0
  }

  lemma StoredIs(reference: File, l: Layout, imageOut: seq<real>, cols: nat)
    requires HasHeader(reference) && l == LayoutOf(reference) && l.w <= cols && l.h * cols <= |imageOut|
    requires AllRepresentable(Cropped(imageOut, l.h, l.w, cols))
    ensures var out := Stored(reference, Bytes(Cropped(imageOut, l.h, l.w, cols)));
      Holds(out, l) && |out| == EndOfRows(l) && IsStored(out, l, imageOut, cols)
  {
    var rows := Bytes(Cropped(imageOut, l.h, l.w, cols));
    var out := Stored(reference, rows);
    PaddingTrims(rows, l.h, l.w);
    StackLength(PaddedRows(rows), l.h, l.s);
    forall i: nat, j: nat | i < l.h && j < l.s ensures StoredByte(out, l, imageOut, cols, i, j) {
      StoredCell(reference[..l.off], rows, l, i, j);
      PixelIs(imageOut, l.h, l.w, cols, i, if j < l.w then j else l.w - 1);
    }
  }

  lemma PixelIs(imageOut: seq<real>, h: nat, w: nat, cols: nat, i: nat, j: nat)
    requires w <= cols && h * cols <= |imageOut| && i < h && j < w && AllRepresentable(Cropped(imageOut, h, w, cols))
    ensures Representable(Cropped(imageOut, h, w, cols)[i])
    ensures -1.0 < PixelAt(imageOut, h, cols, i, j) < 256.0
    ensures Bytes(Cropped(imageOut, h, w, cols))[i][j] == ToByte(PixelAt(imageOut, h, cols, i, j))
  {
    var rows := Cropped(imageOut, h, w, cols);
    CroppedCell(imageOut, h, w, cols, i, j, i * cols);
    assert Bytes(rows)[i] == ToBytes(rows[i]);
  }

  lemma CroppedCell(imageOut: seq<real>, h: nat, w: nat, cols: nat, i: nat, j: nat, base: nat)
    requires w <= cols && h * cols <= |imageOut| && i < h && j < w && base == i * cols
    ensures Cropped(imageOut, h, w, cols)[i][j] == PixelAt(imageOut, h, cols, i, j)
  {
    CroppedRow(imageOut, h, w, cols, i, base);
    assert PixelAt(imageOut, h, cols, i, j) == imageOut[base + j];
  }

  method StoreImage(imageOut: array<real>, cols: nat, reference: File) returns (out: File)
    requires HasHeader(reference) && Width(reference) <= cols && Height(reference) * cols <= imageOut.Length
    requires AllRepresentable(Cropped(imageOut[..], Height(reference), Width(reference), cols))
    ensures out == Stored(reference, Bytes(Cropped(imageOut[..], Height(reference), Width(reference), cols)))
    ensures out[..Offset(reference)] == reference[..Offset(reference)] && |out| == EndOfRows(LayoutOf(reference))
    ensures Holds(out, LayoutOf(reference)) && IsStored(out, LayoutOf(reference), imageOut[..], cols)
  {
    StoredIs(reference, LayoutOf(reference), imageOut[..], cols);
    var offset, width, height := Offset(reference), Width(reference), Height(reference);
    var mod := width % 4;
    if mod != 0 {
      mod := 4 - mod;
    }
    out := WriteRows(reference[..offset], imageOut, height, width, cols, mod);
  }

  // ---------- loading ----------

  method ReadRow(file: File, pos: nat, imageData: array<byte>, base: nat, width: nat, mod: nat) returns (pos': nat)
    requires pos + width + mod <= |file| && base + width <= imageData.Length
    modifies imageData
    ensures pos' == pos + width + mod
    ensures imageData[..] == Blit(old(imageData[..]), base, file[pos..pos + width])
  {
    pos' := pos;
    var tmp: byte;
    for j := 0 to width
      invariant pos' == pos + j
      invariant forall k :: 0 <= k < imageData.Length ==>
        imageData[k] == if base <= k < base + j then file[pos..pos + width][k - base] else old(imageData[k])
    {
      tmp, pos' := file[pos'], pos' + 1;
      imageData[base + j] := tmp;
    }
    for j := 0 to mod
      invariant pos' == pos + width + j
    {
      tmp, pos' := file[pos'], pos' + 1;
    }
  }

  lemma UpwardRow(file: File, l: Layout, i: nat, pos: nat)
    requires Holds(file, l) && i < l.h && pos == l.off + i * l.s
    ensures pos + l.s <= |file| && Upward(file, l)[i] == file[pos..pos + l.w]
    ensures pos + l.s == l.off + (i + 1) * l.s
  {
    RowOffset(i, l.h, l.s);
    Next(i, l.s);
    assert Upward(file, l)[i] == FileRow(file, l, i)[..l.w];
  }

  /** One turn of the loop over i. */
  method ReadNth(file: File, l: Layout, pos: nat, imageData: array<byte>, i: nat) returns (pos': nat)
    requires Holds(file, l) && l.s == Stride(l.w) && imageData.Length == l.h * l.w && i < l.h && pos == l.off + i * l.s
    modifies imageData
    ensures pos' == l.off + (i + 1) * l.s
    ensures Rows(imageData[..], 0, l.h, l.w) == old(Rows(imageData[..], 0, l.h, l.w))[i := Upward(file, l)[i]]
  {
    var base := i * l.w;
    UpwardRow(file, l, i, pos);
    BlitRow(imageData[..], l.h, l.w, i, file[pos..pos + l.w]);
    pos' := ReadRow(file, pos, imageData, base, l.w, l.s - l.w);
  }

  method ReadRows(file: File, l: Layout, imageData: array<byte>)
    requires Holds(file, l) && l.s == Stride(l.w) && imageData.Length == l.h * l.w
    modifies imageData
    ensures Rows(imageData[..], 0, l.h, l.w) == Upward(file, l)
  {
    var pos := l.off;
    for i := 0 to l.h
      invariant pos == l.off + i * l.s
      invariant UpTo(Rows(imageData[..], 0, l.h, l.w), Upward(file, l), i)
    {
      ghost var before := Rows(imageData[..], 0, l.h, l.w);
      pos := ReadNth(file, l, pos, imageData, i);
      assert Rows(imageData[..], 0, l.h, l.w) == before[i := Upward(file, l)[i]];
    }
  }

  ghost predicate UpTo<T>(a: seq<T>, b: seq<T>, n: nat) {
    |a| == |b| && n <= |a| && forall k :: 0 <= k < n ==> a[k] == b[k]
  }

  lemma Next(i: nat, s: nat)
    ensures (i + 1) * s == i * s + s
  {
  }

  /** Two rows change places. */
  method SwapRows(imageData: array<byte>, lo: nat, hi: nat, width: nat)
    requires lo + width <= hi && hi + width <= imageData.Length
    modifies imageData
    ensures imageData[..] == Blit(Blit(old(imageData[..]), lo, old(imageData[hi..hi + width])), hi, old(imageData[lo..lo + width]))
  {
    for j := 0 to width
      invariant forall k :: 0 <= k < imageData.Length ==>
        imageData[k] == (if lo <= k < lo + j then old(imageData[hi..hi + width])[k - lo]
                         else if hi <= k < hi + j then old(imageData[lo..lo + width])[k - hi]
                         else old(imageData[k]))
    {
      var tmp := imageData[lo + j];
      imageData[lo + j] := imageData[hi + j];
      imageData[hi + j] := tmp;
    }
  }

  /** Swapping two rows of memory swaps the rows. */
  lemma RowsSwapped<T>(mem: seq<T>, h: nat, c: nat, i: nat, j: nat, lo: nat, hi: nat)
    requires h * c <= |mem| && i < j < h && lo == i * c && hi == j * c
    ensures lo + c <= hi && hi + c <= |mem|
    ensures var mem' := Blit(Blit(mem, lo, mem[hi..hi + c]), hi, mem[lo..lo + c]);
      Rows(mem', 0, h, c) == Exchanged(Rows(mem, 0, h, c), i, j)
  {
    RowOffset(j, h, c);
    Mul(i, j, c);
    RowSlice(mem, h, c, i);
    RowSlice(mem, h, c, j);
    BlitRow(mem, h, c, i, mem[hi..hi + c]);
    BlitRow(Blit(mem, lo, mem[hi..hi + c]), h, c, j, mem[lo..lo + c]);
  }

  /** The first n rows and the last n have changed places. */
  ghost predicate FlippedTo<T>(rows: seq<T>, before: seq<T>, n: nat) {
    |rows| == |before| && n <= |rows| && forall k: nat :: k < |rows| ==> rows[k] == FlippedRow(before, n, k)
  }

  function FlippedRow<T>(before: seq<T>, n: nat, k: nat): T
    requires k < |before|
  {
    if k < n || k >= |before| - n then before[|before| - 1 - k] else before[k]
  }

  function Exchanged<T>(rows: seq<T>, i: nat, j: nat): (r: seq<T>)
    requires i < |rows| && j < |rows|
    ensures |r| == |rows|
  {
    rows[i := rows[j]][j := rows[i]]
  }

  lemma FlipOne<T>(rows: seq<T>, before: seq<T>, i: nat, j: nat)
    requires FlippedTo(rows, before, i) && i < j == |rows| - 1 - i
    ensures FlippedTo(Exchanged(rows, i, j), before, i + 1)
  {
    var next := Exchanged(rows, i, j);
    assert rows[i] == FlippedRow(before, i, i) && rows[j] == FlippedRow(before, i, j);
    forall k: nat | k < |rows| ensures next[k] == FlippedRow(before, i + 1, k) {
      assert rows[k] == FlippedRow(before, i, k);
    }
  }

  /** The loop over j. */
  method FlipPair(imageData: array<byte>, i: nat, flipRow: nat, height: nat, width: nat)
    requires imageData.Length == height * width && i < flipRow < height
    modifies imageData
    ensures Rows(imageData[..], 0, height, width) == Exchanged(old(Rows(imageData[..], 0, height, width)), i, flipRow)
  {
    var lo, hi := i * width, flipRow * width;
    RowsSwapped(imageData[..], height, width, i, flipRow, lo, hi);
    SwapRows(imageData, lo, hi, width);
  }

  /** The in-place flip is exact for odd and even heights. */
  method FlipRows(imageData: array<byte>, height: nat, width: nat)
    requires imageData.Length == height * width
    modifies imageData
    ensures Rows(imageData[..], 0, height, width) == Reversed(old(Rows(imageData[..], 0, height, width)))
  {
    ghost var before := Rows(imageData[..], 0, height, width);
    for i := 0 to height / 2
      invariant FlippedTo(Rows(imageData[..], 0, height, width), before, i)
    {
      var flipRow := height - (i + 1);
      FlipOne(Rows(imageData[..], 0, height, width), before, i, flipRow);
      FlipPair(imageData, i, flipRow, height, width);
    }
    Flipped(Rows(imageData[..], 0, height, width), before, height / 2);
  }

  lemma Flipped<T>(rows: seq<T>, before: seq<T>, n: nat)
    requires FlippedTo(rows, before, n) && n == |rows| / 2
    ensures rows == Reversed(before)
  {
  }

  method ConvertRow(imageData: array<byte>, floatImage: array<real>, base: nat, width: nat)
    requires base + width <= imageData.Length && base + width <= floatImage.Length
    modifies floatImage
    ensures floatImage[..] == Blit(old(floatImage[..]), base, ToReals(imageData[base..base + width]))
  {
    ghost var row := ToReals(imageData[base..base + width]);
    for j := 0 to width
      invariant forall k :: 0 <= k < floatImage.Length ==>
        floatImage[k] == if base <= k < base + j then row[k - base] else old(floatImage[k])
    {
      floatImage[base + j] := imageData[base + j] as real;
    }
  }

  /** One turn of the loop over i. */
  method ConvertNth(imageData: array<byte>, floatImage: array<real>, i: nat, height: nat, width: nat)
    requires imageData.Length == height * width <= floatImage.Length && i < height
    modifies floatImage
    ensures Rows(floatImage[..], 0, height, width)
            == old(Rows(floatImage[..], 0, height, width))[i := ToReals(Rows(imageData[..], 0, height, width)[i])]
  {
    var base := i * width;
    RowSlice(imageData[..], height, width, i);
    assert imageData[..][base..base + width] == imageData[base..base + width];
    BlitRow(floatImage[..], height, width, i, ToReals(imageData[base..base + width]));
    ConvertRow(imageData, floatImage, base, width);
  }

  method Convert(imageData: array<byte>, floatImage: array<real>, height: nat, width: nat)
    requires imageData.Length == height * width <= floatImage.Length
    modifies floatImage
    ensures Rows(floatImage[..], 0, height, width) == Reals(Rows(imageData[..], 0, height, width))
  {
    ghost var rows := Rows(imageData[..], 0, height, width);
    for i := 0 to height
      invariant UpTo(Rows(floatImage[..], 0, height, width), Reals(rows), i)
    {
      ghost var before := Rows(floatImage[..], 0, height, width);
      ConvertNth(imageData, floatImage, i, height, width);
      assert Rows(floatImage[..], 0, height, width) == before[i := ToReals(rows[i])];
    }
  }

  method ReadImage(file: File, floatImage: array<real>) returns (width: nat, height: nat)
    requires Complete(file) && Height(file) * Width(file) <= floatImage.Length
    modifies floatImage
    ensures width == Width(file) && height == Height(file)
    ensures Rows(floatImage[..], 0, height, width) == Reals(Picture(file, LayoutOf(file)))
    ensures IsLoaded(file, LayoutOf(file), floatImage[..])
  {
    width, height := Width(file), Height(file);
    var l := LayoutOf(file);
    ReadPicture(file, l, floatImage);
    LoadedIs(file, l, floatImage[..]);
  }

  /** Every pixel is the byte of its place in the file. */
  ghost predicate IsLoaded(file: File, l: Layout, image: seq<real>)
    requires Holds(file, l) && l.h * l.w <= |image|
  {
    forall i: nat, j: nat :: i < l.h && j < l.w ==> PixelAt(image, l.h, l.w, i, j) == file[ByteAt(l, i, j)] as real
  }

  lemma LoadedIs(file: File, l: Layout, image: seq<real>)
    requires Holds(file, l) && l.h * l.w <= |image| && Rows(image, 0, l.h, l.w) == Reals(Picture(file, l))
    ensures IsLoaded(file, l, image)
  {
    forall i: nat, j: nat | i < l.h && j < l.w ensures PixelAt(image, l.h, l.w, i, j) == file[ByteAt(l, i, j)] as real {
      RowCell(image, 0, l.h, l.w, i, j);
      assert Reals(Picture(file, l))[i] == ToReals(Picture(file, l)[i]);
      PictureCell(file, l, i, j);
    }
  }

  method ReadPicture(file: File, l: Layout, floatImage: array<real>)
    requires Holds(file, l) && l.s == Stride(l.w) && l.h * l.w <= floatImage.Length
    modifies floatImage
    ensures Rows(floatImage[..], 0, l.h, l.w) == Reals(Picture(file, l))
  {
    NotNegative(l.h, l.w);
    var imageData := new byte[l.h * l.w];
    ReadRows(file, l, imageData);
    FlipRows(imageData, l.h, l.w);
    Convert(imageData, floatImage, l.h, l.w);
  }

  lemma NotNegative(a: nat, b: nat)
    ensures a * b >= 0
  {
  }

  // ---------- both ----------

  /** Loading a saved picture gives back its pixels iff they are whole numbers from 0 to 255. */
  lemma SaveThenLoad(rows: seq<seq<real>>, reference: File)
    requires HasHeader(reference) && Offset(reference) >= HEADER && AllRepresentable(rows)
    requires IsMatrix(rows, Height(reference), Width(reference))
    ensures var file := Stored(reference, Bytes(rows));
      Complete(file) && (Reals(Picture(file, LayoutOf(file))) == rows <==> Whole(rows))
  {
    StoredPicture(reference, Bytes(rows));
    SavedPixels(rows);
  }

  /** Saving a loaded picture over the same header reproduces the file iff its padding repeats the last pixel of each row. */
  lemma LoadThenSave(file: File, l: Layout)
    requires HasHeader(file) && l == LayoutOf(file) && Holds(file, l) && l.off >= HEADER
    ensures AllRepresentable(Reals(Picture(file, l)))
    ensures Stored(file, Bytes(Reals(Picture(file, l)))) == file[..EndOfRows(l)] <==> RepeatsLast(file, l)
  {
    LoadedPixels(Picture(file, l));
    RestoredFile(file, l);
  }
}
