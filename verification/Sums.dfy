/** Sums of products, free of any physics. */
module Sums {
  /** The sum of m[i] * v[i] over the first n. */
  function Dot(m: seq<real>, v: seq<real>, n: nat): real
    requires n <= |m| && n <= |v|
  {
    if n == 0 then 0.0 else Dot(m, v, n - 1) + m[n - 1] * v[n - 1]
  }

  lemma Kick(m: real, v': real, v: real, g: real, d: real, gs: real, total: real)
    requires v' == v + g * d && total == gs + m * g
    ensures d * gs + m * v' == m * v + d * total
  {
    assert m * v' == m * v + m * (g * d);
    assert d * total == d * gs + d * (m * g);
  }

  lemma {:induction false} DotKick(m: seq<real>, v: seq<real>, v': seq<real>, g: seq<real>, d: real, n: nat)
    requires |m| == |v| == |v'| == |g| && n <= |m|
    requires forall i :: 0 <= i < |m| ==> v'[i] == v[i] + g[i] * d
    ensures Dot(m, v', n) == Dot(m, v, n) + d * Dot(m, g, n)
  {
    if n > 0 {
      DotKick(m, v, v', g, d, n - 1);
      Kick(m[n - 1], v'[n - 1], v[n - 1], g[n - 1], d, Dot(m, g, n - 1), Dot(m, g, n));
    }
  }

  function Row(w: (int, int) -> real, i: int, n: nat): real {
    if n == 0 then 0.0 else Row(w, i, n - 1) + w(i, n - 1)
  }

  function Square(w: (int, int) -> real, m: nat, n: nat): real {
    if m == 0 then 0.0 else Square(w, m - 1, n) + Row(w, m - 1, n)
  }

  lemma {:induction false} RowZero(w: (int, int) -> real, i: int, n: nat)
    requires forall j :: 0 <= j < n ==> w(i, j) == 0.0
    ensures Row(w, i, n) == 0.0
  {
    if n > 0 { RowZero(w, i, n - 1); }
  }

  lemma {:induction false} RowOnly(w: (int, int) -> real, i: int, n: nat, y: nat)
    requires y < n && forall j :: 0 <= j < n && j != y ==> w(i, j) == 0.0
    ensures Row(w, i, n) == w(i, y)
  {
    if y == n - 1 { RowZero(w, i, n - 1); } else { RowOnly(w, i, n - 1, y); }
  }

  lemma {:induction false} SquareZero(w: (int, int) -> real, m: nat, n: nat)
    requires forall i, j :: 0 <= i < m && 0 <= j < n ==> w(i, j) == 0.0
    ensures Square(w, m, n) == 0.0
  {
    if m > 0 {
      SquareZero(w, m - 1, n);
      RowZero(w, m - 1, n);
    }
  }

  /** A double sum with one term that is not zero. */
  lemma {:induction false} SquareOnly(w: (int, int) -> real, m: nat, n: nat, x: nat, y: nat)
    requires x < m && y < n && forall i, j :: 0 <= i < m && 0 <= j < n && (i != x || j != y) ==> w(i, j) == 0.0
    ensures Square(w, m, n) == w(x, y)
  {
    if x == m - 1 {
      SquareZero(w, m - 1, n);
      RowOnly(w, m - 1, n, y);
    } else {
      SquareOnly(w, m - 1, n, x, y);
      RowZero(w, m - 1, n);
    }
  }

  ghost predicate Antisymmetric(w: (int, int) -> real, n: nat) {
    forall i, j :: 0 <= i < n && 0 <= j < n ==> w(i, j) == -w(j, i)
  }

  lemma {:induction false} GrowColumn(w: (int, int) -> real, m: nat, n: nat, size: nat)
    requires Antisymmetric(w, size) && 0 < n <= size && m <= size
    ensures Square(w, m, n) == Square(w, m, n - 1) - Row(w, n - 1, m)
  {
    if m > 0 {
      GrowColumn(w, m - 1, n, size);
      assert w(m - 1, n - 1) == -w(n - 1, m - 1);
    }
  }

  lemma {:induction false} AntisymmetricSum(w: (int, int) -> real, n: nat, size: nat)
    requires Antisymmetric(w, size) && n <= size
    ensures Square(w, n, n) == 0.0
  {
    if n > 0 {
      AntisymmetricSum(w, n - 1, size);
      GrowColumn(w, n - 1, n, size);
      assert w(n - 1, n - 1) == -w(n - 1, n - 1);
    }
  }

  lemma {:induction false} RowScales(a: (int, int) -> real, w: (int, int) -> real, m: real, i: int, n: nat)
    requires forall j :: 0 <= j < n ==> w(i, j) == m * a(i, j)
    ensures Row(w, i, n) == m * Row(a, i, n)
  {
    if n > 0 {
      RowScales(a, w, m, i, n - 1);
      assert w(i, n - 1) == m * a(i, n - 1);
      assert m * (Row(a, i, n - 1) + a(i, n - 1)) == m * Row(a, i, n - 1) + m * a(i, n - 1);
    }
  }

  lemma {:induction false} DotIsSquare(a: (int, int) -> real, w: (int, int) -> real, m: seq<real>, g: seq<real>, n: nat)
    requires |m| == |g| && n <= |m|
    requires forall i, j :: 0 <= i < |m| && 0 <= j < |m| ==> w(i, j) == m[i] * a(i, j)
    requires forall i :: 0 <= i < |m| ==> g[i] == Row(a, i, |m|)
    ensures Dot(m, g, n) == Square(w, n, |m|)
  {
    if n > 0 {
      DotIsSquare(a, w, m, g, n - 1);
      RowScales(a, w, m[n - 1], n - 1, |m|);
      assert g[n - 1] == Row(a, n - 1, |m|);
    }
  }

  ghost predicate Weighted(w: (int, int) -> real, a: (int, int) -> real, m: seq<real>) {
    forall i, j :: 0 <= i < |m| && 0 <= j < |m| ==> w(i, j) == m[i] * a(i, j)
  }

  ghost predicate RowsOf(g: seq<real>, a: (int, int) -> real) {
    forall i :: 0 <= i < |g| ==> g[i] == Row(a, i, |g|)
  }

  ghost predicate Moved(v': seq<real>, v: seq<real>, g: seq<real>, d: real) {
    |v'| == |v| == |g| && forall i :: 0 <= i < |v| ==> v'[i] == v[i] + g[i] * d
  }

  /** If m[i] * a(i, j) is antisymmetric, kicks g[i] = sum of a(i, j) leave the weighted sum of v alone. */
  lemma KicksCancel(a: (int, int) -> real, w: (int, int) -> real, m: seq<real>, g: seq<real>, v: seq<real>, v': seq<real>, d: real)
    requires |m| == |v| && Moved(v', v, g, d) && Weighted(w, a, m) && RowsOf(g, a) && Antisymmetric(w, |m|)
    ensures Dot(m, v', |m|) == Dot(m, v, |m|)
  {
    DotKick(m, v, v', g, d, |m|);
    DotIsSquare(a, w, m, g, |m|);
    AntisymmetricSum(w, |m|, |m|);
  }
}
