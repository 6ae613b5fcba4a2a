/**
 The tiled matrix multiply accelerator, with its cached tile of B, and the host program that
 packs tiles and scatters results; and when what the program computes is the product A * B.
 */
module MatMul {
  import opened Common
  import opened Matrices

  /**
   A is m by n, B is n by p; B is cached in tiles of g columns, and one kernel call computes w
   results (A_HEIGHT, A_WIDTH = B_HEIGHT, B_WIDTH, GROUP_SIZE and WORK_ITEM_SIZE).
   */
  datatype Shape = Shape(m: nat, n: nat, p: nat, g: nat, w: nat) {
    predicate Ok() {
      n > 0 && w > 0 && g > 0 && g % w == 0 && p % g == 0
    }

    /** Where results q*w to q*w+w of tile k lie in row i of C, relative to C. */
    function Block(i: nat, k: nat, q: nat): nat { i * p + k * g + q * w }

    ghost predicate IsBlock(i: nat, k: nat, q: nat)
      requires Ok()
    {
      i < m && k < p / g && q < g / w
    }
  }

  // ---------- index arithmetic ----------

  lemma BlockInRow(s: Shape, k: nat, q: nat)
    requires s.Ok() && k < s.p / s.g && q < s.g / s.w
    ensures q * s.w + s.w <= s.g && k * s.g + s.g <= s.p
  {
    Mul(q, s.g / s.w, s.w);
    Mul(k, s.p / s.g, s.g);
    Divides(s.g, s.w);
    Divides(s.p, s.g);
  }

  lemma BlockInside(s: Shape, i: nat, k: nat, q: nat)
    requires s.Ok() && s.IsBlock(i, k, q)
    ensures s.Block(i, k, q) + s.w <= s.m * s.p
  {
    BlockInRow(s, k, q);
    Mul(i, s.m, s.p);
  }

  lemma RowsApart(s: Shape, i: nat, k: nat, q: nat, i': nat, k': nat, q': nat)
    requires s.Ok() && s.IsBlock(i, k, q) && s.IsBlock(i', k', q') && i < i'
    ensures s.Block(i, k, q) + s.w <= s.Block(i', k', q')
  {
    BlockInRow(s, k, q);
    Mul(i, i', s.p);
    NonNegative(k', s.g);
    NonNegative(q', s.w);
  }

  lemma TilesApart(s: Shape, i: nat, k: nat, q: nat, k': nat, q': nat)
    requires s.Ok() && s.IsBlock(i, k, q) && s.IsBlock(i, k', q') && k < k'
    ensures s.Block(i, k, q) + s.w <= s.Block(i, k', q')
  {
    BlockInRow(s, k, q);
    Mul(k, k', s.g);
    NonNegative(q', s.w);
  }

  lemma NonNegative(a: nat, b: nat)
    ensures a * b >= 0
  {
  }

  /** Different blocks do not overlap. */
  lemma BlocksApart(s: Shape, i: nat, k: nat, q: nat, i': nat, k': nat, q': nat)
    requires s.Ok() && s.IsBlock(i, k, q) && s.IsBlock(i', k', q') && (i, k, q) != (i', k', q')
    ensures s.Block(i, k, q) + s.w <= s.Block(i', k', q') || s.Block(i', k', q') + s.w <= s.Block(i, k, q)
  {
    if i < i' { RowsApart(s, i, k, q, i', k', q'); } else if i' < i { RowsApart(s, i', k', q', i, k, q); }
    else if k < k' { TilesApart(s, i, k, q, k', q'); } else if k' < k { TilesApart(s, i, k', q', k, q); }
    else if q < q' { Mul(q, q', s.w); } else { Mul(q', q, s.w); }
  }

  // ---------- products ----------

  /** The first k terms of the product of a row with column j of M. */
  function Dot(a: seq<real>, M: Matrix, j: nat, k: nat): real
    requires k <= |a| && k <= |M| && forall t :: 0 <= t < k ==> j < |M[t]|
  {
    if k == 0 then 0.0 else Dot(a, M, j, k - 1) + a[k - 1] * M[k - 1][j]
  }

  /** Against a column that is 1 in row x and 0 elsewhere it is a[x]. */
  lemma {:induction false} DotUnit(a: seq<real>, M: Matrix, j: nat, k: nat, x: nat)
    requires k <= |a| && k <= |M| && forall t :: 0 <= t < k ==> j < |M[t]| && M[t][j] == if t == x then 1.0 else 0.0
    ensures Dot(a, M, j, k) == if x < k then a[x] else 0.0
  {
    if k > 0 { DotUnit(a, M, j, k - 1, x); }
  }

  ghost predicate ColumnSum(M: Matrix, j: nat, N: Matrix, u: nat, P: Matrix, v: nat, c: real, k: nat) {
    && k <= |M| && k <= |N| && k <= |P|
    && forall t :: 0 <= t < k ==> j < |M[t]| && u < |N[t]| && v < |P[t]| && M[t][j] == N[t][u] + c * P[t][v]
  }

  lemma Distributes(a: real, m: real, n: real, c: real, p: real)
    requires m == n + c * p
    ensures a * m == a * n + c * (a * p)
  {
    assert a * (c * p) == c * (a * p);
  }

  lemma Collects(c: real, d: real, e: real)
    ensures c * d + c * e == c * (d + e)
  {
  }

  /** And it is linear in the column: with DotUnit this leaves no other value for it. */
  lemma {:induction false} DotLinear(a: seq<real>, M: Matrix, j: nat, N: Matrix, u: nat, P: Matrix, v: nat, c: real, k: nat)
    requires k <= |a| && ColumnSum(M, j, N, u, P, v, c, k)
    ensures Dot(a, M, j, k) == Dot(a, N, u, k) + c * Dot(a, P, v, k)
  {
    if k > 0 {
      DotLinear(a, M, j, N, u, P, v, c, k - 1);
      Distributes(a[k - 1], M[k - 1][j], N[k - 1][u], c, P[k - 1][v]);
      Collects(c, Dot(a, P, v, k - 1), a[k - 1] * P[k - 1][v]);
    }
  }

  /** Columns k*g to k*g+g of B. */
  function Tile(s: Shape, B: Matrix, k: nat): (T: Matrix)
    requires s.Ok() && IsMatrix(B, s.n, s.p) && k < s.p / s.g
    ensures IsMatrix(T, s.n, s.g)
  {
    TileInside(s, k);
    seq(s.n, t requires 0 <= t < s.n => B[t][k * s.g..k * s.g + s.g])
  }

  lemma TileInside(s: Shape, k: nat)
    requires s.Ok() && k < s.p / s.g
    ensures k * s.g + s.g <= s.p
  {
    Mul(k, s.p / s.g, s.g);
    Divides(s.p, s.g);
  }

  lemma {:induction false} DotInTile(s: Shape, a: seq<real>, B: Matrix, k: nat, j: nat, t: nat)
    requires s.Ok() && IsMatrix(B, s.n, s.p) && k < s.p / s.g && j < s.g && t <= s.n == |a| && k * s.g + j < s.p
    ensures Dot(a, Tile(s, B, k), j, t) == Dot(a, B, k * s.g + j, t)
  {
    if t > 0 {
      DotInTile(s, a, B, k, j, t - 1);
      TileInside(s, k);
      assert Tile(s, B, k)[t - 1][j] == B[t - 1][k * s.g + j];
    }
  }

  /** The results of row `a` against the first w columns of a tile. */
  function Results(a: seq<real>, T: Matrix, w: nat): (r: seq<real>)
    requires |a| == |T| && forall t :: 0 <= t < |T| ==> w <= |T[t]|
    ensures |r| == w
  {
    seq(w, j requires 0 <= j < w => Dot(a, T, j, |a|))
  }

  // ---------- the kernel ----------

  class MatrixMult {
    const n: nat
    const g: nat
    const w: nat
    const b: array2<real>  // static: kept from call to call
    const c: array<real>   // static

    ghost predicate Valid() {
      w <= g && n > 0 && g > 0 && b.Length0 == n && b.Length1 == g && c.Length == w
    }

    /** The cached tile is T. */
    ghost predicate Caches(T: Matrix)
      requires Valid()
      reads b
    {
      IsMatrix(T, n, g) && forall t, j :: 0 <= t < n && 0 <= j < g ==> b[t, j] == T[t][j]
    }

    constructor (s: Shape)
      requires s.Ok() && s.w <= s.g
      ensures Valid() && n == s.n && g == s.g && w == s.w && fresh(b) && fresh(c)
    {
      n, g, w := s.n, s.g, s.w;
      b := new real[s.n, s.g];
      c := new real[s.w];
    }

    /** One kernel call: one row of A against the cached tile, which is loaded anew when told so. */
    method Run(memory: array<real>, aOffset: nat, bOffset: nat, cOffset: nat, newGroup: bool, ghost T: Matrix)
      requires Valid() && memory != c
      requires aOffset + n <= memory.Length && bOffset + n * g <= memory.Length && cOffset + w <= memory.Length
      requires if newGroup then T == Rows(memory[..], bOffset, n, g) else Caches(T)
      modifies memory, b, c
      ensures Caches(T)
      ensures memory[..] == Blit(old(memory[..]), cOffset, Results(old(memory[..])[aOffset..aOffset + n], T, w))
    {
      var a := ReadRow(memory, aOffset);
      if newGroup {
        LoadTile(memory, bOffset);
      }
      ComputeRow(a, T);
      WriteResults(memory, cOffset);
    }

    method ReadRow(memory: array<real>, aOffset: nat) returns (a: array<real>)
      requires aOffset + n <= memory.Length
      ensures fresh(a) && a[..] == memory[..][aOffset..aOffset + n]
    {
      a := new real[n];
      forall k | 0 <= k < n { a[k] := memory[aOffset + k]; }
    }

    method WriteResults(memory: array<real>, cOffset: nat)
      requires memory != c && cOffset + c.Length <= memory.Length
      modifies memory
      ensures memory[..] == Blit(old(memory[..]), cOffset, c[..])
    {
      forall k | 0 <= k < c.Length { memory[cOffset + k] := c[k]; }
    }

    method LoadTile(memory: array<real>, bOffset: nat)
      requires Valid() && bOffset + n * g <= memory.Length
      modifies b
      ensures Caches(Rows(memory[..], bOffset, n, g))
    {
      ghost var R := Rows(memory[..], bOffset, n, g);
      for t := 0 to n
        invariant forall u, j :: 0 <= u < t && 0 <= j < g ==> b[u, j] == R[u][j]
      {
        Mul(t, n, g);
        assert R[t] == RowAt(memory[..], bOffset, n, g, t);
        LoadRow(memory, bOffset + t * g, t);
      }
    }

    method LoadRow(memory: array<real>, from: nat, t: nat)
      requires Valid() && t < n && from + g <= memory.Length
      modifies b
      ensures forall j :: 0 <= j < g ==> b[t, j] == memory[..][from..from + g][j]
      ensures forall u, j :: 0 <= u < n && u != t && 0 <= j < g ==> b[u, j] == old(b[u, j])
    {
      forall j | 0 <= j < g {
        b[t, j] := memory[from + j];
      }
    }

    method ComputeRow(a: array<real>, ghost T: Matrix)
      requires Valid() && a != c && a.Length == n && Caches(T)
      modifies c
      ensures c[..] == Results(a[..], T, w)
    {
      for j := 0 to w
        invariant forall t :: 0 <= t < j ==> c[t] == Dot(a[..], T, t, n)
      {
        var sum := 0.0;
        for k := 0 to n
          invariant k > 0 ==> sum == Dot(a[..], T, j, k)
          invariant k == n ==> c[j] == sum
          invariant forall t :: 0 <= t < j ==> c[t] == Dot(a[..], T, t, n)
        {
          if k == 0 {
            sum := 0.0;
          }
          sum := sum + a[k] * b[k, j];
          if k == n - 1 {
            c[j] := sum;
          }
        }
      }
    }
  }
}
