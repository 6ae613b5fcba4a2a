/** Matrices stored row after row in flat memory, and the index arithmetic that goes with it. */
module Matrices {
  import opened Common

  lemma {:induction false} Mul(a: nat, b: nat, c: nat)
    requires a < b
    ensures a * c + c <= b * c
  {
    assert b * c == (b - 1) * c + c;
    if a < b - 1 { Mul(a, b - 1, c); }
  }

  /** Cell j of row i of an r by c matrix lies inside it. */
  lemma InMatrix(i: nat, j: nat, r: nat, c: nat)
    requires i < r && j < c
    ensures i * c + j < r * c && i * c + c <= r * c
  {
    Mul(i, r, c);
  }

  lemma Divides(a: nat, b: nat)
    requires b > 0 && a % b == 0
    ensures a / b * b == a
  {
  }

  type Matrix = seq<seq<real>>

  ghost predicate IsMatrix<T>(M: seq<seq<T>>, r: nat, c: nat) {
    |M| == r && forall i :: 0 <= i < r ==> |M[i]| == c
  }

  /** The r rows of c cells that lie in memory from `off` on. */
  function Rows<T>(mem: seq<T>, off: nat, r: nat, c: nat): (M: seq<seq<T>>)
    requires off + r * c <= |mem|
    ensures IsMatrix(M, r, c)
  {
    seq(r, i requires 0 <= i < r => RowAt(mem, off, r, c, i))
  }

  function RowAt<T>(mem: seq<T>, off: nat, r: nat, c: nat, i: nat): (row: seq<T>)
    requires off + r * c <= |mem| && i < r
    ensures |row| == c
  {
    Mul(i, r, c);
    mem[off + i * c..off + i * c + c]
  }

  ghost predicate SameOn<T>(a: seq<T>, b: seq<T>, lo: nat, hi: nat) {
    forall x :: lo <= x < hi && x < |a| && x < |b| ==> a[x] == b[x]
  }

  lemma RowsSame<T>(mem: seq<T>, mem': seq<T>, off: nat, r: nat, c: nat)
    requires off + r * c <= |mem| && off + r * c <= |mem'|
    requires SameOn(mem, mem', off, off + r * c)
    ensures Rows(mem, off, r, c) == Rows(mem', off, r, c)
  {
    forall i | 0 <= i < r ensures RowAt(mem, off, r, c, i) == RowAt(mem', off, r, c, i) {
      RowSame(mem, mem', off, r, c, i, off + r * c);
    }
  }

  lemma RowSame<T>(mem: seq<T>, mem': seq<T>, off: nat, r: nat, c: nat, i: nat, end: nat)
    requires end == off + r * c <= |mem| && end <= |mem'| && i < r && SameOn(mem, mem', off, end)
    ensures RowAt(mem, off, r, c, i) == RowAt(mem', off, r, c, i)
  {
    Mul(i, r, c);
    var lo := off + i * c;
    SliceSame(mem, mem', off, end, lo, lo + c);
  }

  lemma SliceSame<T>(a: seq<T>, b: seq<T>, from: nat, to: nat, lo: nat, hi: nat)
    requires from <= lo <= hi <= to && hi <= |a| && hi <= |b| && SameOn(a, b, from, to)
    ensures a[lo..hi] == b[lo..hi]
  {
  }

  lemma RowCell<T>(mem: seq<T>, off: nat, r: nat, c: nat, i: nat, j: nat)
    requires off + r * c <= |mem| && i < r && j < c
    ensures off + i * c + j < |mem| && Rows(mem, off, r, c)[i][j] == mem[off + i * c + j]
  {
    Mul(i, r, c);
    assert Rows(mem, off, r, c)[i] == RowAt(mem, off, r, c, i);
  }

  lemma RowOffset(i: nat, r: nat, c: nat)
    requires i < r
    ensures i * c + c <= r * c
  {
    Mul(i, r, c);
  }

  /** Two different rows do not overlap. */
  lemma RowsApart(i: nat, j: nat, r: nat, c: nat)
    requires i < r && j < r && i != j
    ensures i * c + c <= j * c || j * c + c <= i * c
  {
    if i < j { Mul(i, j, c); } else { Mul(j, i, c); }
  }

  /** Writing one whole row changes that row and no other. */
  lemma BlitRow<T>(mem: seq<T>, r: nat, c: nat, i: nat, row: seq<T>)
    requires r * c <= |mem| && i < r && |row| == c
    ensures i * c + c <= |mem|
    ensures Rows(Blit(mem, i * c, row), 0, r, c) == Rows(mem, 0, r, c)[i := row]
  {
    RowOffset(i, r, c);
    var mem' := Blit(mem, i * c, row);
    forall k | 0 <= k < r ensures Rows(mem', 0, r, c)[k] == Rows(mem, 0, r, c)[i := row][k] {
      RowOffset(k, r, c);
      assert Rows(mem', 0, r, c)[k] == RowAt(mem', 0, r, c, k) == mem'[k * c..k * c + c];
      if k == i {
        BlitInside(mem, i * c, row);
      } else {
        RowsApart(i, k, r, c);
        BlitOutside(mem, i * c, row, k * c, k * c + c);
        assert Rows(mem, 0, r, c)[k] == RowAt(mem, 0, r, c, k);
      }
    }
  }

  /** Writing a row and more: the row is the start of what is written. */
  lemma BlitFrom<T>(mem: seq<T>, r: nat, c: nat, i: nat, at: nat, block: seq<T>)
    requires |mem| == r * c && i < r && c <= |block| && at == i * c && at + |block| <= |mem|
    ensures Rows(Blit(mem, at, block), 0, r, c)[i] == block[..c]
  {
    var mem' := Blit(mem, at, block);
    RowSlice(mem', r, c, i);
    BlitInside(mem, at, block);
    SubSlice(mem', at, |block|, 0, c);
  }

  /** The rows before one written at stay as they are. */
  lemma BlitAfter<T>(mem: seq<T>, r: nat, c: nat, i: nat, at: nat, block: seq<T>, k: nat)
    requires |mem| == r * c && k < i < r && at == i * c && at + |block| <= |mem|
    ensures Rows(Blit(mem, at, block), 0, r, c)[k] == Rows(mem, 0, r, c)[k]
  {
    var start := k * c;
    RowSlice(Blit(mem, at, block), r, c, k);
    RowSlice(mem, r, c, k);
    Mul(k, i, c);
    BlitOutside(mem, at, block, start, start + c);
  }

  lemma SubSlice<T>(a: seq<T>, start: nat, n: nat, lo: nat, len: nat)
    requires start + n <= |a| && lo + len <= n
    ensures a[start..start + n][lo..lo + len] == a[start + lo..start + lo + len]
  {
    var b, c := a[start..start + n][lo..lo + len], a[start + lo..start + lo + len];
    assert forall k :: 0 <= k < len ==> b[k] == c[k];
  }

  lemma RowSlice<T>(mem: seq<T>, r: nat, c: nat, i: nat)
    requires r * c <= |mem| && i < r
    ensures i * c + c <= |mem| && Rows(mem, 0, r, c)[i] == mem[i * c..i * c + c]
  {
    RowOffset(i, r, c);
    assert Rows(mem, 0, r, c)[i] == RowAt(mem, 0, r, c, i);
  }
}
