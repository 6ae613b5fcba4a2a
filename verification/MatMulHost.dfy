/**
 The host program of the matrix multiply accelerator on one memory that holds A, B, C, a packed
 tile of B and a buffer for results: for each tile, each row of A and each work item of the
 row, one kernel call, whose results are then scattered into C.
 */
module MatMulHost {
  import opened Common
  import opened Matrices
  import opened MatMul

  /** Where the host program puts things; A lies at 0. */
  datatype Layout = Layout(s: Shape, offB: nat, offC: nat, offTile: nat, offOut: nat, size: nat) {
    ghost predicate Ok() {
      && s.Ok() && s.w <= s.g
      && offB == s.m * s.n && offC == offB + s.n * s.p && offTile == offC + s.m * s.p
      && offOut == offTile + s.n * s.g && size == offOut + s.g
      && offB <= offC <= offTile <= offOut <= size
    }

    /** One tile as wide as B needs no packing. */
    predicate Whole() { s.g == s.p }
  }

  ghost predicate Inputs(l: Layout, mem: seq<real>, A: Matrix, B: Matrix)
    requires l.Ok() && |mem| == l.size
  {
    A == Rows(mem, 0, l.s.m, l.s.n) && B == Rows(mem, l.offB, l.s.n, l.s.p)
  }

  lemma InputsSame(l: Layout, mem: seq<real>, mem': seq<real>, A: Matrix, B: Matrix)
    requires l.Ok() && |mem| == |mem'| == l.size && Inputs(l, mem, A, B)
    requires SameOn(mem, mem', 0, l.offC)
    ensures Inputs(l, mem', A, B)
  {
    RowsSame(mem, mem', 0, l.s.m, l.s.n);
    RowsSame(mem, mem', l.offB, l.s.n, l.s.p);
  }

  // ---------- packing a tile ----------

  function Cell(off: nat, t: nat, j: nat, c: nat): nat {
    off + t * c + j
  }

  lemma CellsApart(off: nat, t: nat, j: nat, t': nat, j': nat, c: nat)
    requires j < c && j' < c && (t, j) != (t', j')
    ensures Cell(off, t, j, c) != Cell(off, t', j', c)
  {
    if t < t' { Mul(t, t', c); } else if t' < t { Mul(t', t, c); }
  }

  lemma CellInside(l: Layout, t: nat, j: nat)
    requires l.Ok() && t < l.s.n && j < l.s.g
    ensures l.offTile <= Cell(l.offTile, t, j, l.s.g) < l.offOut
  {
    InMatrix(t, j, l.s.n, l.s.g);
  }

  ghost predicate Packed(l: Layout, mem: seq<real>, B: Matrix, k: nat, t: nat, j: nat)
    requires l.Ok() && |mem| == l.size && IsMatrix(B, l.s.n, l.s.p) && k < l.s.p / l.s.g && t < l.s.n && j < l.s.g
  {
    CellInside(l, t, j);
    mem[Cell(l.offTile, t, j, l.s.g)] == Tile(l.s, B, k)[t][j]
  }

  /** The cells packed before (ii, jj): whole columns, then part of column ii. */
  ghost predicate PackedUpTo(l: Layout, mem: seq<real>, B: Matrix, k: nat, ii: nat, jj: nat)
    requires l.Ok() && |mem| == l.size && IsMatrix(B, l.s.n, l.s.p) && k < l.s.p / l.s.g
  {
    forall t: nat, j: nat :: t < l.s.n && j < l.s.g && (j < ii || (j == ii && t < jj)) ==> Packed(l, mem, B, k, t, j)
  }

  lemma PackOne(l: Layout, mem: seq<real>, B: Matrix, k: nat, ii: nat, jj: nat, v: real)
    requires l.Ok() && |mem| == l.size && IsMatrix(B, l.s.n, l.s.p) && k < l.s.p / l.s.g && ii < l.s.g && jj < l.s.n
    requires PackedUpTo(l, mem, B, k, ii, jj) && v == Tile(l.s, B, k)[jj][ii]
    requires Cell(l.offTile, jj, ii, l.s.g) < l.size
    ensures PackedUpTo(l, mem[Cell(l.offTile, jj, ii, l.s.g) := v], B, k, ii, jj + 1)
  {
    var mem' := mem[Cell(l.offTile, jj, ii, l.s.g) := v];
    forall t: nat, j: nat | t < l.s.n && j < l.s.g && (j < ii || (j == ii && t < jj + 1)) ensures Packed(l, mem', B, k, t, j) {
      CellInside(l, t, j);
      if (t, j) != (jj, ii) {
        CellsApart(l.offTile, t, j, jj, ii, l.s.g);
        assert Packed(l, mem, B, k, t, j);
      }
    }
  }

  /** Row jj, column ii + k * g of B. */
  function BIndex(l: Layout, k: nat, ii: nat, jj: nat): nat {
    l.offB + jj * l.s.p + ii + k * l.s.g
  }

  lemma BInside(l: Layout, k: nat, ii: nat, jj: nat)
    requires l.Ok() && k < l.s.p / l.s.g && ii < l.s.g && jj < l.s.n
    ensures k * l.s.g + ii < l.s.p && BIndex(l, k, ii, jj) < l.offC
  {
    TileInside(l.s, k);
    Mul(jj, l.s.n, l.s.p);
  }

  lemma TileCell(s: Shape, B: Matrix, k: nat, t: nat, j: nat)
    requires s.Ok() && IsMatrix(B, s.n, s.p) && k < s.p / s.g && t < s.n && j < s.g && k * s.g + j < s.p
    ensures Tile(s, B, k)[t][j] == B[t][k * s.g + j]
  {
    TileInside(s, k);
  }

  lemma BCell(l: Layout, mem: seq<real>, A: Matrix, B: Matrix, k: nat, ii: nat, jj: nat)
    requires l.Ok() && |mem| == l.size && Inputs(l, mem, A, B) && k < l.s.p / l.s.g && ii < l.s.g && jj < l.s.n
    ensures BIndex(l, k, ii, jj) < l.offC && mem[BIndex(l, k, ii, jj)] == Tile(l.s, B, k)[jj][ii]
  {
    var col := k * l.s.g + ii;
    BInside(l, k, ii, jj);
    TileCell(l.s, B, k, jj, ii);
    assert BIndex(l, k, ii, jj) == l.offB + jj * l.s.p + col;
    RowCell(mem, l.offB, l.s.n, l.s.p, jj, col);
  }

  /** Nothing changes but the cells of the tile buffer. */
  ghost predicate OnlyTileChanges(l: Layout, mem: seq<real>, mem': seq<real>)
    requires l.Ok() && |mem| == |mem'| == l.size
  {
    forall x :: 0 <= x < l.offTile || l.offOut <= x < l.size ==> mem[x] == mem'[x]
  }

  method PackCell(memory: array<real>, l: Layout, k: nat, ii: nat, jj: nat, ghost A: Matrix, ghost B: Matrix)
    requires l.Ok() && memory.Length == l.size && Inputs(l, memory[..], A, B) && k < l.s.p / l.s.g && ii < l.s.g && jj < l.s.n
    requires PackedUpTo(l, memory[..], B, k, ii, jj)
    modifies memory
    ensures PackedUpTo(l, memory[..], B, k, ii, jj + 1) && OnlyTileChanges(l, old(memory[..]), memory[..])
  {
    ghost var now := memory[..];
    BCell(l, now, A, B, k, ii, jj);
    CellInside(l, jj, ii);
    PackOne(l, now, B, k, ii, jj, now[BIndex(l, k, ii, jj)]);
    memory[Cell(l.offTile, jj, ii, l.s.g)] := memory[BIndex(l, k, ii, jj)];
    assert memory[..] == now[Cell(l.offTile, jj, ii, l.s.g) := now[BIndex(l, k, ii, jj)]];
  }

  method Pack(memory: array<real>, l: Layout, k: nat, ghost A: Matrix, ghost B: Matrix)
    requires l.Ok() && memory.Length == l.size && Inputs(l, memory[..], A, B) && k < l.s.p / l.s.g
    modifies memory
    ensures PackedUpTo(l, memory[..], B, k, l.s.g, 0) && OnlyTileChanges(l, old(memory[..]), memory[..])
  {
    ghost var before := memory[..];
    for ii := 0 to l.s.g
      invariant PackedUpTo(l, memory[..], B, k, ii, 0) && OnlyTileChanges(l, before, memory[..])
    {
      for jj := 0 to l.s.n
        invariant PackedUpTo(l, memory[..], B, k, ii, jj) && OnlyTileChanges(l, before, memory[..])
      {
        InputsSame(l, before, memory[..], A, B);
        PackCell(memory, l, k, ii, jj, A, B);
      }
      NextColumn(l, memory[..], B, k, ii);
    }
  }

  lemma NextColumn(l: Layout, mem: seq<real>, B: Matrix, k: nat, ii: nat)
    requires l.Ok() && |mem| == l.size && IsMatrix(B, l.s.n, l.s.p) && k < l.s.p / l.s.g
    requires PackedUpTo(l, mem, B, k, ii, l.s.n)
    ensures PackedUpTo(l, mem, B, k, ii + 1, 0)
  {
  }

  /** Where the kernel finds the tile: in B itself, or packed. */
  function TileOffset(l: Layout): nat {
    if l.Whole() then l.offB else l.offTile
  }

  ghost predicate TileReady(l: Layout, mem: seq<real>, B: Matrix, k: nat)
    requires l.Ok() && |mem| == l.size && IsMatrix(B, l.s.n, l.s.p) && k < l.s.p / l.s.g
  {
    Rows(mem, TileOffset(l), l.s.n, l.s.g) == Tile(l.s, B, k)
  }

  lemma PackedIsReady(l: Layout, mem: seq<real>, B: Matrix, k: nat)
    requires l.Ok() && !l.Whole() && |mem| == l.size && IsMatrix(B, l.s.n, l.s.p) && k < l.s.p / l.s.g
    requires PackedUpTo(l, mem, B, k, l.s.g, 0)
    ensures TileReady(l, mem, B, k)
  {
    forall t | 0 <= t < l.s.n ensures Rows(mem, l.offTile, l.s.n, l.s.g)[t] == Tile(l.s, B, k)[t] {
      PackedRow(l, mem, B, k, t);
    }
  }

  lemma PackedRow(l: Layout, mem: seq<real>, B: Matrix, k: nat, t: nat)
    requires l.Ok() && |mem| == l.size && IsMatrix(B, l.s.n, l.s.p) && k < l.s.p / l.s.g && t < l.s.n
    requires PackedUpTo(l, mem, B, k, l.s.g, 0)
    ensures Rows(mem, l.offTile, l.s.n, l.s.g)[t] == Tile(l.s, B, k)[t]
  {
    forall j | 0 <= j < l.s.g ensures Rows(mem, l.offTile, l.s.n, l.s.g)[t][j] == Tile(l.s, B, k)[t][j] {
      assert Packed(l, mem, B, k, t, j);
      RowCell(mem, l.offTile, l.s.n, l.s.g, t, j);
    }
  }

  lemma WholeIsReady(l: Layout, mem: seq<real>, A: Matrix, B: Matrix)
    requires l.Ok() && l.Whole() && |mem| == l.size && Inputs(l, mem, A, B) && 0 < l.s.p / l.s.g
    ensures TileReady(l, mem, B, 0)
  {
    forall t | 0 <= t < l.s.n ensures Tile(l.s, B, 0)[t] == B[t] {
      assert Tile(l.s, B, 0)[t] == B[t][0..l.s.g];
    }
  }

  // ---------- blocks of C ----------

  /** Block (i, k, q) of C as it lies in memory. */
  function BlockAt(l: Layout, mem: seq<real>, i: nat, k: nat, q: nat): (r: seq<real>)
    requires Start(l, i, k, q) + l.s.w <= |mem|
    ensures |r| == l.s.w
  {
    mem[Start(l, i, k, q)..Start(l, i, k, q) + l.s.w]
  }

  ghost predicate BlockIs(l: Layout, mem: seq<real>, i: nat, k: nat, q: nat, v: seq<real>)
    requires l.Ok() && |mem| == l.size && l.s.IsBlock(i, k, q)
  {
    BlockInside(l.s, i, k, q);
    BlockAt(l, mem, i, k, q) == v
  }

  /** Writing w cells at one block leaves every other block alone. */
  lemma BlockWritten(l: Layout, mem: seq<real>, v: seq<real>, i: nat, k: nat, q: nat)
    requires l.Ok() && |mem| == l.size && l.s.IsBlock(i, k, q) && |v| == l.s.w
    ensures Start(l, i, k, q) + l.s.w <= l.offTile
    ensures BlockIs(l, Blit(mem, Start(l, i, k, q), v), i, k, q, v)
  {
    BlockInside(l.s, i, k, q);
    BlitInside(mem, Start(l, i, k, q), v);
  }

  lemma BlockKept(l: Layout, mem: seq<real>, v: seq<real>, i: nat, k: nat, q: nat, i': nat, k': nat, q': nat, u: seq<real>)
    requires l.Ok() && |mem| == l.size && l.s.IsBlock(i, k, q) && |v| == l.s.w
    requires l.s.IsBlock(i', k', q') && (i, k, q) != (i', k', q') && BlockIs(l, mem, i', k', q', u)
    requires Start(l, i, k, q) + l.s.w <= l.offTile
    ensures BlockIs(l, Blit(mem, Start(l, i, k, q), v), i', k', q', u)
  {
    BlocksApart(l.s, i, k, q, i', k', q');
    BlockInside(l.s, i', k', q');
    BlitApart(mem, Start(l, i, k, q), v, Start(l, i', k', q'), l.s.w);
  }

  lemma BlitApart(mem: seq<real>, at: nat, v: seq<real>, lo: nat, w: nat)
    requires at + |v| <= |mem| && lo + w <= |mem| && (at + |v| <= lo || lo + w <= at)
    ensures Blit(mem, at, v)[lo..lo + w] == mem[lo..lo + w]
  {
    BlitOutside(mem, at, v, lo, lo + w);
  }

  /** Writing beyond C leaves every block alone. */
  lemma BlockBeyond(l: Layout, mem: seq<real>, at: nat, v: seq<real>, i: nat, k: nat, q: nat, u: seq<real>)
    requires l.Ok() && |mem| == l.size && l.s.IsBlock(i, k, q) && l.offTile <= at && at + |v| <= l.size && BlockIs(l, mem, i, k, q, u)
    ensures BlockIs(l, Blit(mem, at, v), i, k, q, u)
  {
    BlockInside(l.s, i, k, q);
    var lo := Start(l, i, k, q);
    BlitOutside(mem, at, v, lo, lo + l.s.w);
  }

  // ---------- what the program computes ----------

  /** Row i of A against the first w columns of tile k. */
  function Out(l: Layout, A: Matrix, B: Matrix, i: nat, k: nat): (r: seq<real>)
    requires l.s.Ok() && l.s.w <= l.s.g && IsMatrix(A, l.s.m, l.s.n) && IsMatrix(B, l.s.n, l.s.p) && i < l.s.m && k < l.s.p / l.s.g
    ensures |r| == l.s.w
  {
    Results(A[i], Tile(l.s, B, k), l.s.w)
  }

  /**
   Block (i, k, q) after `done` turns for its row and tile.  The kernel always takes the first w
   columns of the tile, whatever q is.  With a single unpacked tile it writes them straight into
   block 0, and what is scattered, over block q, is a buffer it never writes.
   */
  function Value(l: Layout, A: Matrix, B: Matrix, stale: seq<real>, i: nat, k: nat, q: nat, done: nat): (r: seq<real>)
    requires l.s.Ok() && l.s.w <= l.s.g && IsMatrix(A, l.s.m, l.s.n) && IsMatrix(B, l.s.n, l.s.p) && i < l.s.m && k < l.s.p / l.s.g
    requires |stale| == l.s.w
    ensures |r| == l.s.w
  {
    if !l.Whole() || l.s.w == l.s.g || (q == 0 && done > 1) then Out(l, A, B, i, k) else stale
  }

  ghost predicate BlockDone(l: Layout, mem: seq<real>, A: Matrix, B: Matrix, stale: seq<real>, i: nat, k: nat, q: nat, done: nat)
    requires l.Ok() && |mem| == l.size && IsMatrix(A, l.s.m, l.s.n) && IsMatrix(B, l.s.n, l.s.p) && |stale| == l.s.w
    requires l.s.IsBlock(i, k, q)
  {
    BlockIs(l, mem, i, k, q, Value(l, A, B, stale, i, k, q, done))
  }

  predicate Before(k: nat, i: nat, q: nat, k': nat, i': nat, q': nat) {
    k < k' || (k == k' && (i < i' || (i == i' && q < q')))
  }

  /** All blocks before turn (k, i, q) are as they should be by then. */
  ghost predicate DoneUpTo(l: Layout, mem: seq<real>, A: Matrix, B: Matrix, stale: seq<real>, k: nat, i: nat, q: nat)
    requires l.Ok() && |mem| == l.size && IsMatrix(A, l.s.m, l.s.n) && IsMatrix(B, l.s.n, l.s.p) && |stale| == l.s.w
  {
    forall i': nat, k': nat, q': nat :: l.s.IsBlock(i', k', q') && Before(k', i', q', k, i, q) ==>
      BlockDone(l, mem, A, B, stale, i', k', q', if (k', i') == (k, i) then q else l.s.g / l.s.w)
  }

  /** Where block (i, k, q) starts in memory. */
  function Start(l: Layout, i: nat, k: nat, q: nat): nat {
    l.offC + l.s.Block(i, k, q)
  }

  /** Memory after a turn with results `out`: `at` is where its block starts, `first` where block 0 of the row does. */
  function Turned(l: Layout, mem: seq<real>, out: seq<real>, stale: seq<real>, first: nat, at: nat): (r: seq<real>)
    requires |out| == |stale| == l.s.w && at + l.s.w <= |mem| && first + l.s.w <= |mem| && l.offOut + l.s.w <= |mem|
    ensures |r| == |mem|
  {
    if !l.Whole() then Blit(Blit(mem, l.offOut, out), at, out)
    else if l.s.w == l.s.g then Blit(mem, first, out)
    else Blit(Blit(mem, first, out), at, stale)
  }

  lemma BlockRooms(l: Layout, k: nat, i: nat, q: nat)
    requires l.Ok() && l.s.IsBlock(i, k, q)
    ensures l.s.IsBlock(i, 0, 0)
    ensures Start(l, i, k, q) + l.s.w <= l.offTile && Start(l, i, 0, 0) + l.s.w <= l.offTile
  {
    BlockInside(l.s, i, k, q);
    BlockInside(l.s, i, 0, 0);
  }

  /** A block written earlier survives a turn, except that a turn for its row renews block 0 of a single tile. */
  lemma TurnKeeps(l: Layout, mem: seq<real>, A: Matrix, B: Matrix, stale: seq<real>, k: nat, i: nat, q: nat, i': nat, k': nat, q': nat)
    requires l.Ok() && |mem| == l.size && IsMatrix(A, l.s.m, l.s.n) && IsMatrix(B, l.s.n, l.s.p) && |stale| == l.s.w
    requires l.s.IsBlock(i, k, q) && l.s.IsBlock(i', k', q') && Before(k', i', q', k, i, q)
    requires Start(l, i, k, q) + l.s.w <= l.offTile && Start(l, i, 0, 0) + l.s.w <= l.offTile
    requires l.Whole() ==> k == 0
    requires BlockDone(l, mem, A, B, stale, i', k', q', if (k', i') == (k, i) then q else l.s.g / l.s.w)
    ensures BlockDone(l, Turned(l, mem, Out(l, A, B, i, k), stale, Start(l, i, 0, 0), Start(l, i, k, q)),
                      A, B, stale, i', k', q', if (k', i') == (k, i) then q + 1 else l.s.g / l.s.w)
  {
    if l.Whole() {
      WholeTurnKeeps(l, mem, A, B, stale, i, q, i', q');
    } else {
      PackedTurnKeeps(l, mem, A, B, stale, k, i, q, i', k', q');
    }
  }

  lemma PackedTurnKeeps(l: Layout, mem: seq<real>, A: Matrix, B: Matrix, stale: seq<real>, k: nat, i: nat, q: nat, i': nat, k': nat, q': nat)
    requires l.Ok() && |mem| == l.size && IsMatrix(A, l.s.m, l.s.n) && IsMatrix(B, l.s.n, l.s.p) && |stale| == l.s.w && !l.Whole()
    requires l.s.IsBlock(i, k, q) && l.s.IsBlock(i', k', q') && (i', k', q') != (i, k, q)
    requires Start(l, i, k, q) + l.s.w <= l.offTile && Start(l, i, 0, 0) + l.s.w <= l.offTile
    requires BlockIs(l, mem, i', k', q', Out(l, A, B, i', k'))
    ensures BlockIs(l, Turned(l, mem, Out(l, A, B, i, k), stale, Start(l, i, 0, 0), Start(l, i, k, q)), i', k', q', Out(l, A, B, i', k'))
  {
    var out, v := Out(l, A, B, i, k), Out(l, A, B, i', k');
    BlockBeyond(l, mem, l.offOut, out, i', k', q', v);
    BlockKept(l, Blit(mem, l.offOut, out), out, i, k, q, i', k', q', v);
  }

  lemma WholeTurnKeeps(l: Layout, mem: seq<real>, A: Matrix, B: Matrix, stale: seq<real>, i: nat, q: nat, i': nat, q': nat)
    requires l.Ok() && |mem| == l.size && IsMatrix(A, l.s.m, l.s.n) && IsMatrix(B, l.s.n, l.s.p) && |stale| == l.s.w && l.Whole()
    requires l.s.IsBlock(i, 0, q) && l.s.IsBlock(i', 0, q') && (i' < i || (i' == i && q' < q))
    requires Start(l, i, 0, q) + l.s.w <= l.offTile && Start(l, i, 0, 0) + l.s.w <= l.offTile
    requires BlockDone(l, mem, A, B, stale, i', 0, q', if i' == i then q else l.s.g / l.s.w)
    ensures BlockDone(l, Turned(l, mem, Out(l, A, B, i, 0), stale, Start(l, i, 0, 0), Start(l, i, 0, q)),
                      A, B, stale, i', 0, q', if i' == i then q + 1 else l.s.g / l.s.w)
  {
    var out, v := Out(l, A, B, i, 0), Value(l, A, B, stale, i', 0, q', if i' == i then q else l.s.g / l.s.w);
    var direct := Blit(mem, Start(l, i, 0, 0), out);
    if (i', q') == (i, 0) {
      BlockWritten(l, mem, out, i, 0, 0);
      if l.s.w != l.s.g { BlockKept(l, direct, stale, i, 0, q, i', 0, q', out); }
    } else {
      BlockKept(l, mem, out, i, 0, 0, i', 0, q', v);
      if l.s.w != l.s.g { BlockKept(l, direct, stale, i, 0, q, i', 0, q', v); }
    }
  }

  lemma TurnWrites(l: Layout, mem: seq<real>, A: Matrix, B: Matrix, stale: seq<real>, k: nat, i: nat, q: nat)
    requires l.Ok() && |mem| == l.size && IsMatrix(A, l.s.m, l.s.n) && IsMatrix(B, l.s.n, l.s.p) && |stale| == l.s.w
    requires l.s.IsBlock(i, k, q) && (l.Whole() ==> k == 0)
    requires Start(l, i, k, q) + l.s.w <= l.offTile && Start(l, i, 0, 0) + l.s.w <= l.offTile
    ensures BlockDone(l, Turned(l, mem, Out(l, A, B, i, k), stale, Start(l, i, 0, 0), Start(l, i, k, q)), A, B, stale, i, k, q, q + 1)
  {
    var out := Out(l, A, B, i, k);
    if !l.Whole() {
      BlockWritten(l, Blit(mem, l.offOut, out), out, i, k, q);
    } else if l.s.w == l.s.g {
      OneItem(l.s, q);
      BlockWritten(l, mem, out, i, 0, 0);
    } else {
      BlockWritten(l, Blit(mem, Start(l, i, 0, 0), out), stale, i, k, q);
    }
  }

  lemma OneItem(s: Shape, q: nat)
    requires s.Ok() && s.w == s.g && q < s.g / s.w
    ensures q == 0
  {
  }

  lemma TurnDone(l: Layout, mem: seq<real>, A: Matrix, B: Matrix, stale: seq<real>, k: nat, i: nat, q: nat)
    requires l.Ok() && |mem| == l.size && IsMatrix(A, l.s.m, l.s.n) && IsMatrix(B, l.s.n, l.s.p) && |stale| == l.s.w
    requires l.s.IsBlock(i, k, q) && (l.Whole() ==> k == 0) && DoneUpTo(l, mem, A, B, stale, k, i, q)
    requires Start(l, i, k, q) + l.s.w <= l.offTile && Start(l, i, 0, 0) + l.s.w <= l.offTile
    ensures DoneUpTo(l, Turned(l, mem, Out(l, A, B, i, k), stale, Start(l, i, 0, 0), Start(l, i, k, q)), A, B, stale, k, i, q + 1)
  {
    forall i': nat, k': nat, q': nat | l.s.IsBlock(i', k', q') && Before(k', i', q', k, i, q + 1)
      ensures BlockDone(l, Turned(l, mem, Out(l, A, B, i, k), stale, Start(l, i, 0, 0), Start(l, i, k, q)),
                      A, B, stale, i', k', q', if (k', i') == (k, i) then q + 1 else l.s.g / l.s.w)
    {
      if (i', k', q') == (i, k, q) {
        TurnWrites(l, mem, A, B, stale, k, i, q);
      } else {
        TurnKeeps(l, mem, A, B, stale, k, i, q, i', k', q');
      }
    }
  }

  // ---------- the host loops ----------

  ghost predicate Ready(l: Layout, mem: seq<real>, A: Matrix, B: Matrix, stale: seq<real>, k: nat)
    requires l.Ok() && |mem| == l.size && IsMatrix(A, l.s.m, l.s.n) && IsMatrix(B, l.s.n, l.s.p) && |stale| == l.s.w && k < l.s.p / l.s.g
  {
    && Inputs(l, mem, A, B) && TileReady(l, mem, B, k)
    && (l.Whole() ==> k == 0 && mem[l.offOut..l.offOut + l.s.w] == stale)
  }

  lemma TurnStaysReady(l: Layout, mem: seq<real>, A: Matrix, B: Matrix, stale: seq<real>, k: nat, i: nat, q: nat)
    requires l.Ok() && |mem| == l.size && IsMatrix(A, l.s.m, l.s.n) && IsMatrix(B, l.s.n, l.s.p) && |stale| == l.s.w
    requires l.s.IsBlock(i, k, q) && Ready(l, mem, A, B, stale, k)
    requires Start(l, i, k, q) + l.s.w <= l.offTile && Start(l, i, 0, 0) + l.s.w <= l.offTile
    ensures Ready(l, Turned(l, mem, Out(l, A, B, i, k), stale, Start(l, i, 0, 0), Start(l, i, k, q)), A, B, stale, k)
  {
    var mem' := Turned(l, mem, Out(l, A, B, i, k), stale, Start(l, i, 0, 0), Start(l, i, k, q));
    InputsSame(l, mem, mem', A, B);
    if l.Whole() {
      assert mem'[l.offOut..l.offOut + l.s.w] == mem[l.offOut..l.offOut + l.s.w];
      RowsSame(mem, mem', l.offB, l.s.n, l.s.g);
    } else {
      RowsSame(mem, mem', l.offTile, l.s.n, l.s.g);
    }
  }

  lemma BlitGrows(a: seq<real>, from: nat, to: nat, n: nat)
    requires from + n < |a| && to + n < from
    ensures var b := Blit(a, to, a[from..from + n]);
      b[from + n] == a[from + n] && b[to + n := a[from + n]] == Blit(a, to, a[from..from + n + 1])
  {
  }

  /** The copy loop from the result buffer into C. */
  method Scatter(memory: array<real>, from: nat, to: nat, w: nat)
    requires from + w <= memory.Length && to + w <= from
    modifies memory
    ensures memory[..] == Blit(old(memory[..]), to, old(memory[..])[from..from + w])
  {
    ghost var before := memory[..];
    assert before[from..from + 0] == [];
    for ii := 0 to w
      invariant memory[..] == Blit(before, to, before[from..from + ii])
    {
      BlitGrows(before, from, to, ii);
      memory[to + ii] := memory[from + ii];
    }
  }

  lemma RowOfA(l: Layout, mem: seq<real>, A: Matrix, B: Matrix, i: nat)
    requires l.Ok() && |mem| == l.size && Inputs(l, mem, A, B) && i < l.s.m
    ensures i * l.s.n + l.s.n <= |mem| && A[i] == mem[i * l.s.n..i * l.s.n + l.s.n]
  {
    Mul(i, l.s.m, l.s.n);
    assert A[i] == RowAt(mem, 0, l.s.m, l.s.n, i);
  }

  /** Where the kernel puts its results. */
  function ResultOffset(l: Layout, i: nat): nat {
    if l.Whole() then l.offC + i * l.s.g else l.offOut
  }

  /** The kernel's operands and results are inside memory. */
  lemma Rooms(l: Layout, i: nat)
    requires l.Ok() && i < l.s.m && l.s.IsBlock(i, 0, 0)
    ensures TileOffset(l) + l.s.n * l.s.g <= l.size && i * l.s.n + l.s.n <= l.size && ResultOffset(l, i) + l.s.w <= l.size
    ensures l.Whole() ==> ResultOffset(l, i) == Start(l, i, 0, 0)
  {
    Mul(i, l.s.m, l.s.n);
    BlockInside(l.s, i, 0, 0);
  }

  /** One kernel call: row i of A against tile k. */
  method Call(memory: array<real>, kernel: MatrixMult, l: Layout, k: nat, i: nat, newGroup: bool,
              ghost A: Matrix, ghost B: Matrix, ghost stale: seq<real>)
    requires l.Ok() && kernel.Valid() && kernel.n == l.s.n && kernel.g == l.s.g && kernel.w == l.s.w
    requires memory.Length == l.size && memory != kernel.c
    requires IsMatrix(A, l.s.m, l.s.n) && IsMatrix(B, l.s.n, l.s.p) && |stale| == l.s.w
    requires l.s.IsBlock(i, 0, 0) && k < l.s.p / l.s.g && Ready(l, memory[..], A, B, stale, k)
    requires !newGroup ==> kernel.Caches(Tile(l.s, B, k))
    modifies memory, kernel.b, kernel.c
    ensures kernel.Caches(Tile(l.s, B, k))
    ensures ResultOffset(l, i) + l.s.w <= l.size && (l.Whole() ==> ResultOffset(l, i) == Start(l, i, 0, 0))
    ensures memory[..] == Blit(old(memory[..]), ResultOffset(l, i), Out(l, A, B, i, k))
  {
    Rooms(l, i);
    RowOfA(l, memory[..], A, B, i);
    var aOffset, bOffset, cOffset := i * l.s.n, TileOffset(l), ResultOffset(l, i);
    ghost var T := Tile(l.s, B, k);
    assert memory[..][aOffset..aOffset + l.s.n] == A[i] && Rows(memory[..], bOffset, l.s.n, l.s.g) == T;
    kernel.Run(memory, aOffset, bOffset, cOffset, newGroup, T);
  }

  /** What the scattered buffer holds after the kernel call, and so what the turn comes to. */
  lemma TurnedIs(l: Layout, mem: seq<real>, out: seq<real>, stale: seq<real>, first: nat, at: nat, result: nat, called: seq<real>)
    requires l.Ok() && |mem| == l.size && |out| == |stale| == l.s.w && at + l.s.w <= l.offTile && first + l.s.w <= l.offTile
    requires l.Whole() ==> mem[l.offOut..l.offOut + l.s.w] == stale
    requires result == (if l.Whole() then first else l.offOut) && called == Blit(mem, result, out)
    ensures Turned(l, mem, out, stale, first, at) ==
              if !l.Whole() || l.s.w != l.s.g then Blit(called, at, called[l.offOut..l.offOut + l.s.w]) else called
  {
    if l.Whole() {
      BlitOutside(mem, first, out, l.offOut, l.offOut + l.s.w);
    } else {
      BlitInside(mem, l.offOut, out);
    }
  }

  /** Scattering comes to a given memory. */
  method ScatterTo(memory: array<real>, from: nat, to: nat, w: nat, ghost target: seq<real>)
    requires from + w <= memory.Length && to + w <= from
    requires target == Blit(memory[..], to, memory[..][from..from + w])
    modifies memory
    ensures memory[..] == target
  {
    Scatter(memory, from, to, w);
  }

  method ScatterIfNeeded(memory: array<real>, l: Layout, ghost mem: seq<real>, ghost out: seq<real>, ghost stale: seq<real>,
                         ghost first: nat, at: nat, ghost result: nat)
    requires l.Ok() && memory.Length == |mem| == l.size && |out| == |stale| == l.s.w && at + l.s.w <= l.offTile && first + l.s.w <= l.offTile
    requires l.Whole() ==> mem[l.offOut..l.offOut + l.s.w] == stale
    requires result == (if l.Whole() then first else l.offOut) && memory[..] == Blit(mem, result, out)
    modifies memory
    ensures memory[..] == Turned(l, mem, out, stale, first, at)
  {
    ghost var called, turned := memory[..], Turned(l, mem, out, stale, first, at);
    TurnedIs(l, mem, out, stale, first, at, result, called);
    if !l.Whole() || l.s.w != l.s.g {
      ScatterTo(memory, l.offOut, at, l.s.w, turned);
    } else {
      assert turned == called;
    }
  }

  /** One turn of the two inner loops: a kernel call and the scattering of its results. */
  method Turn(memory: array<real>, kernel: MatrixMult, l: Layout, k: nat, i: nat, q: nat,
              ghost A: Matrix, ghost B: Matrix, ghost stale: seq<real>)
    requires l.Ok() && kernel.Valid() && kernel.n == l.s.n && kernel.g == l.s.g && kernel.w == l.s.w
    requires memory.Length == l.size && memory != kernel.c
    requires IsMatrix(A, l.s.m, l.s.n) && IsMatrix(B, l.s.n, l.s.p) && |stale| == l.s.w
    requires l.s.IsBlock(i, k, q) && l.s.IsBlock(i, 0, 0) && Ready(l, memory[..], A, B, stale, k)
    requires !(i == 0 && q == 0) ==> kernel.Caches(Tile(l.s, B, k))
    requires Start(l, i, k, q) + l.s.w <= l.offTile && Start(l, i, 0, 0) + l.s.w <= l.offTile
    modifies memory, kernel.b, kernel.c
    ensures kernel.Caches(Tile(l.s, B, k))
    ensures memory[..] == Turned(l, old(memory[..]), Out(l, A, B, i, k), stale, Start(l, i, 0, 0), Start(l, i, k, q))
  {
    ghost var mem := memory[..];
    Call(memory, kernel, l, k, i, i == 0 && q == 0, A, B, stale);
    ScatterIfNeeded(memory, l, mem, Out(l, A, B, i, k), stale, Start(l, i, 0, 0), Start(l, i, k, q), ResultOffset(l, i));
  }

  lemma NextRow(l: Layout, mem: seq<real>, A: Matrix, B: Matrix, stale: seq<real>, k: nat, i: nat)
    requires l.Ok() && |mem| == l.size && IsMatrix(A, l.s.m, l.s.n) && IsMatrix(B, l.s.n, l.s.p) && |stale| == l.s.w
    requires DoneUpTo(l, mem, A, B, stale, k, i, l.s.g / l.s.w)
    ensures DoneUpTo(l, mem, A, B, stale, k, i + 1, 0)
  {
    forall i': nat, k': nat, q': nat | l.s.IsBlock(i', k', q') && Before(k', i', q', k, i + 1, 0)
      ensures BlockDone(l, mem, A, B, stale, i', k', q', if (k', i') == (k, i + 1) then 0 else l.s.g / l.s.w)
    {
      assert Before(k', i', q', k, i, l.s.g / l.s.w);
    }
  }

  lemma NextTile(l: Layout, mem: seq<real>, A: Matrix, B: Matrix, stale: seq<real>, k: nat)
    requires l.Ok() && |mem| == l.size && IsMatrix(A, l.s.m, l.s.n) && IsMatrix(B, l.s.n, l.s.p) && |stale| == l.s.w
    requires DoneUpTo(l, mem, A, B, stale, k, l.s.m, 0)
    ensures DoneUpTo(l, mem, A, B, stale, k + 1, 0, 0)
  {
    forall i': nat, k': nat, q': nat | l.s.IsBlock(i', k', q') && Before(k', i', q', k + 1, 0, 0)
      ensures BlockDone(l, mem, A, B, stale, i', k', q', l.s.g / l.s.w)
    {
      assert Before(k', i', q', k, l.s.m, 0);
    }
  }

  /** All rows of A against tile k. */
  method MultiplyTile(memory: array<real>, kernel: MatrixMult, l: Layout, k: nat, ghost A: Matrix, ghost B: Matrix, ghost stale: seq<real>)
    requires l.Ok() && kernel.Valid() && kernel.n == l.s.n && kernel.g == l.s.g && kernel.w == l.s.w
    requires memory.Length == l.size && memory != kernel.c
    requires IsMatrix(A, l.s.m, l.s.n) && IsMatrix(B, l.s.n, l.s.p) && |stale| == l.s.w
    requires k < l.s.p / l.s.g && Ready(l, memory[..], A, B, stale, k) && DoneUpTo(l, memory[..], A, B, stale, k, 0, 0)
    modifies memory, kernel.b, kernel.c
    ensures Ready(l, memory[..], A, B, stale, k) && DoneUpTo(l, memory[..], A, B, stale, k + 1, 0, 0)
  {
    for i := 0 to l.s.m
      invariant Ready(l, memory[..], A, B, stale, k) && DoneUpTo(l, memory[..], A, B, stale, k, i, 0)
      invariant i > 0 ==> kernel.Caches(Tile(l.s, B, k))
    {
      HasItems(l.s);
      for q := 0 to l.s.g / l.s.w
        invariant Ready(l, memory[..], A, B, stale, k) && DoneUpTo(l, memory[..], A, B, stale, k, i, q)
        invariant i > 0 || q > 0 ==> kernel.Caches(Tile(l.s, B, k))
      {
        ghost var mem := memory[..];
        BlockRooms(l, k, i, q);
        TurnStaysReady(l, mem, A, B, stale, k, i, q);
        TurnDone(l, mem, A, B, stale, k, i, q);
        Turn(memory, kernel, l, k, i, q, A, B, stale);
      }
      NextRow(l, memory[..], A, B, stale, k, i);
    }
    NextTile(l, memory[..], A, B, stale, k);
  }

  lemma HasItems(s: Shape)
    requires s.Ok() && s.w <= s.g
    ensures s.g / s.w > 0
  {
  }

  /** Packing, where there is something to pack, makes tile k ready and leaves C alone. */
  method PackIfNeeded(memory: array<real>, l: Layout, k: nat, ghost A: Matrix, ghost B: Matrix, ghost stale: seq<real>)
    requires l.Ok() && memory.Length == l.size && IsMatrix(A, l.s.m, l.s.n) && IsMatrix(B, l.s.n, l.s.p) && |stale| == l.s.w
    requires k < l.s.p / l.s.g && Inputs(l, memory[..], A, B) && DoneUpTo(l, memory[..], A, B, stale, k, 0, 0)
    requires l.Whole() ==> memory[..][l.offOut..l.offOut + l.s.w] == stale
    modifies memory
    ensures Ready(l, memory[..], A, B, stale, k) && DoneUpTo(l, memory[..], A, B, stale, k, 0, 0)
  {
    ghost var mem := memory[..];
    if !l.Whole() {
      Pack(memory, l, k, A, B);
      InputsSame(l, mem, memory[..], A, B);
      PackedIsReady(l, memory[..], B, k);
      PackKeeps(l, mem, memory[..], A, B, stale, k);
    } else {
      OneTile(l.s, k);
      WholeIsReady(l, mem, A, B);
    }
  }

  lemma OneTile(s: Shape, k: nat)
    requires s.Ok() && s.g == s.p && k < s.p / s.g
    ensures k == 0
  {
  }

  lemma PackKeeps(l: Layout, mem: seq<real>, mem': seq<real>, A: Matrix, B: Matrix, stale: seq<real>, k: nat)
    requires l.Ok() && |mem| == |mem'| == l.size && IsMatrix(A, l.s.m, l.s.n) && IsMatrix(B, l.s.n, l.s.p) && |stale| == l.s.w
    requires OnlyTileChanges(l, mem, mem') && DoneUpTo(l, mem, A, B, stale, k, 0, 0)
    ensures DoneUpTo(l, mem', A, B, stale, k, 0, 0)
  {
    forall i': nat, k': nat, q': nat | l.s.IsBlock(i', k', q') && Before(k', i', q', k, 0, 0)
      ensures BlockDone(l, mem', A, B, stale, i', k', q', l.s.g / l.s.w)
    {
      BlockInside(l.s, i', k', q');
      assert BlockDone(l, mem, A, B, stale, i', k', q', l.s.g / l.s.w);
      var lo := Start(l, i', k', q');
      SliceSame(mem, mem', lo, lo + l.s.w, lo, lo + l.s.w);
    }
  }

  /**
   The whole program.  Each block of C ends up as its Value after all turns; A and B are as they
   were.  `stale` is what the result buffer held when the program began.
   */
  method Multiply(memory: array<real>, kernel: MatrixMult, l: Layout, ghost A: Matrix, ghost B: Matrix, ghost stale: seq<real>)
    requires l.Ok() && kernel.Valid() && kernel.n == l.s.n && kernel.g == l.s.g && kernel.w == l.s.w
    requires memory.Length == l.size && memory != kernel.c && Inputs(l, memory[..], A, B)
    requires stale == memory[..][l.offOut..l.offOut + l.s.w]
    modifies memory, kernel.b, kernel.c
    ensures Inputs(l, memory[..], A, B)
    ensures forall i: nat, k: nat, q: nat :: l.s.IsBlock(i, k, q) ==> BlockDone(l, memory[..], A, B, stale, i, k, q, l.s.g / l.s.w)
    ensures forall i: nat, k: nat, q: nat, c: nat :: l.s.IsBlock(i, k, q) && c < l.s.w ==>
      CellIs(l, memory[..], A, B, stale, i, k, q, c)
    ensures l.s.w == l.s.g ==> IsProduct(l, memory[..], A, B)
  {
    for k := 0 to l.s.p / l.s.g
      invariant Inputs(l, memory[..], A, B) && DoneUpTo(l, memory[..], A, B, stale, k, 0, 0)
      invariant l.Whole() ==> memory[..][l.offOut..l.offOut + l.s.w] == stale
    {
      PackIfNeeded(memory, l, k, A, B, stale);
      MultiplyTile(memory, kernel, l, k, A, B, stale);
    }
    forall i: nat, k: nat, q: nat | l.s.IsBlock(i, k, q) ensures BlockDone(l, memory[..], A, B, stale, i, k, q, l.s.g / l.s.w) {
      assert Before(k, i, q, l.s.p / l.s.g, 0, 0);
    }
    AllCells(l, memory[..], A, B, stale);
  }

  lemma AllCells(l: Layout, mem: seq<real>, A: Matrix, B: Matrix, stale: seq<real>)
    requires l.Ok() && |mem| == l.size && IsMatrix(A, l.s.m, l.s.n) && IsMatrix(B, l.s.n, l.s.p) && |stale| == l.s.w
    requires forall i: nat, k: nat, q: nat :: l.s.IsBlock(i, k, q) ==> BlockDone(l, mem, A, B, stale, i, k, q, l.s.g / l.s.w)
    ensures forall i: nat, k: nat, q: nat, c: nat :: l.s.IsBlock(i, k, q) && c < l.s.w ==> CellIs(l, mem, A, B, stale, i, k, q, c)
    ensures l.s.w == l.s.g ==> IsProduct(l, mem, A, B)
  {
    forall i: nat, k: nat, q: nat, c: nat | l.s.IsBlock(i, k, q) && c < l.s.w
      ensures CellIs(l, mem, A, B, stale, i, k, q, c)
    {
      DoneCellIs(l, mem, A, B, stale, i, k, q, c);
    }
    if l.s.w == l.s.g { CellsAreProduct(l, mem, A, B, stale); }
  }

  // ---------- when this is the product ----------

  /** Column k*g + q*w + c of row i of A * B. */
  function ProductCell(s: Shape, A: Matrix, B: Matrix, i: nat, k: nat, q: nat, c: nat): real
    requires s.Ok() && IsMatrix(A, s.m, s.n) && IsMatrix(B, s.n, s.p) && s.IsBlock(i, k, q) && c < s.w
  {
    BlockInRow(s, k, q);
    Dot(A[i], B, k * s.g + q * s.w + c, s.n)
  }

  /** Against the identity it is the cell of A itself. */
  lemma IdentityProduct(s: Shape, A: Matrix, B: Matrix, i: nat, k: nat, q: nat, c: nat)
    requires s.Ok() && IsMatrix(A, s.m, s.n) && IsMatrix(B, s.n, s.p) && s.n == s.p && s.IsBlock(i, k, q) && c < s.w
    requires forall t, j :: 0 <= t < s.n && 0 <= j < s.p ==> B[t][j] == if t == j then 1.0 else 0.0
    ensures 0 <= k * s.g + q * s.w + c < s.p && ProductCell(s, A, B, i, k, q, c) == A[i][k * s.g + q * s.w + c]
  {
    BlockInRow(s, k, q);
    NonNegative(k, s.g);
    NonNegative(q, s.w);
    DotUnit(A[i], B, k * s.g + q * s.w + c, s.n, k * s.g + q * s.w + c);
  }

  ghost predicate ComputesProduct(l: Layout, A: Matrix, B: Matrix, stale: seq<real>)
    requires l.Ok() && IsMatrix(A, l.s.m, l.s.n) && IsMatrix(B, l.s.n, l.s.p) && |stale| == l.s.w
  {
    forall i: nat, k: nat, q: nat, c: nat :: l.s.IsBlock(i, k, q) && c < l.s.w ==>
      Value(l, A, B, stale, i, k, q, l.s.g / l.s.w)[c] == ProductCell(l.s, A, B, i, k, q, c)
  }

  /**
   Cell c of block (i, k, q) in memory, when the program has ended: row i of A times column k*g + c of B, whatever
   q is, except that with a single tile of several work items only block 0 is ever written by the kernel.
   */
  ghost predicate CellIs(l: Layout, mem: seq<real>, A: Matrix, B: Matrix, stale: seq<real>, i: nat, k: nat, q: nat, c: nat)
    requires l.Ok() && |mem| == l.size && IsMatrix(A, l.s.m, l.s.n) && IsMatrix(B, l.s.n, l.s.p) && |stale| == l.s.w
    requires l.s.IsBlock(i, k, q) && c < l.s.w
  {
    var at, column := CellOfC(l, i, k, q, c), ColumnOfB(l.s, k, c);
    mem[at] == if l.s.g == l.s.p && l.s.w < l.s.g && q > 0 then stale[c] else Dot(A[i], B, column, l.s.n)
  }

  function ColumnOfB(s: Shape, k: nat, c: nat): (column: nat)
    requires s.Ok() && k < s.p / s.g && c < s.g
    ensures column == k * s.g + c < s.p
  {
    TileInside(s, k);
    k * s.g + c
  }

  /** Where row i, column k*g + q*w + c of C lies. */
  function CellOfC(l: Layout, i: nat, k: nat, q: nat, c: nat): (at: nat)
    requires l.Ok() && l.s.IsBlock(i, k, q) && c < l.s.w
    ensures at == l.offC + i * l.s.p + (k * l.s.g + q * l.s.w + c) < l.size
  {
    BlockInside(l.s, i, k, q);
    l.offC + i * l.s.p + (k * l.s.g + q * l.s.w + c)
  }

  lemma DoneCellIs(l: Layout, mem: seq<real>, A: Matrix, B: Matrix, stale: seq<real>, i: nat, k: nat, q: nat, c: nat)
    requires l.Ok() && |mem| == l.size && IsMatrix(A, l.s.m, l.s.n) && IsMatrix(B, l.s.n, l.s.p) && |stale| == l.s.w
    requires l.s.IsBlock(i, k, q) && c < l.s.w && BlockDone(l, mem, A, B, stale, i, k, q, l.s.g / l.s.w)
    ensures CellIs(l, mem, A, B, stale, i, k, q, c)
  {
    BlockInside(l.s, i, k, q);
    DotInTile(l.s, A[i], B, k, ColumnOfB(l.s, k, c) - k * l.s.g, l.s.n);
    assert CellOfC(l, i, k, q, c) == Start(l, i, k, q) + c;
    assert BlockAt(l, mem, i, k, q)[c] == mem[Start(l, i, k, q) + c];
    if l.s.w < l.s.g { TwoItems(l.s); } else { OneItem(l.s, q); }
  }

  /** All of C, row by row and column by column, is A * B. */
  ghost predicate IsProduct(l: Layout, mem: seq<real>, A: Matrix, B: Matrix)
    requires l.Ok() && |mem| == l.size && IsMatrix(A, l.s.m, l.s.n) && IsMatrix(B, l.s.n, l.s.p)
  {
    forall i: nat, j: nat :: i < l.s.m && j < l.s.p ==> (CInside(l, i, j); mem[l.offC + i * l.s.p + j] == Dot(A[i], B, j, l.s.n))
  }

  lemma CInside(l: Layout, i: nat, j: nat)
    requires l.Ok() && i < l.s.m && j < l.s.p
    ensures 0 <= l.offC + i * l.s.p + j < l.size
  {
    InMatrix(i, j, l.s.m, l.s.p);
  }

  lemma CellsAreProduct(l: Layout, mem: seq<real>, A: Matrix, B: Matrix, stale: seq<real>)
    requires l.Ok() && |mem| == l.size && IsMatrix(A, l.s.m, l.s.n) && IsMatrix(B, l.s.n, l.s.p) && |stale| == l.s.w && l.s.w == l.s.g
    requires forall i: nat, k: nat, q: nat, c: nat :: l.s.IsBlock(i, k, q) && c < l.s.w ==> CellIs(l, mem, A, B, stale, i, k, q, c)
    ensures IsProduct(l, mem, A, B)
  {
    forall i: nat, j: nat | i < l.s.m && j < l.s.p
      ensures 0 <= l.offC + i * l.s.p + j < l.size && mem[l.offC + i * l.s.p + j] == Dot(A[i], B, j, l.s.n)
    {
      CInside(l, i, j);
      var k, c := InTile(l.s, j);
      assert l.s.IsBlock(i, k, 0) && CellIs(l, mem, A, B, stale, i, k, 0, c);
    }
  }

  /** The tile of a column and its place there. */
  lemma InTile(s: Shape, j: nat) returns (k: nat, c: nat)
    requires s.Ok() && j < s.p
    ensures k < s.p / s.g && c < s.g && k * s.g + c == j
  {
    k, c := j / s.g, j % s.g;
    Divides(s.p, s.g);
    if k >= s.p / s.g { MulAtLeast(s.p / s.g, k, s.g); }
  }

  lemma MulAtLeast(a: nat, b: nat, c: nat)
    requires a <= b
    ensures a * c <= b * c
  {
    if a < b { Mul(a, b, c); }
  }

  /** The kernel's result c for tile k is column k*g + c of the product, so blocks 0 are always right. */
  lemma OutIsProduct(l: Layout, A: Matrix, B: Matrix, i: nat, k: nat, c: nat)
    requires l.Ok() && IsMatrix(A, l.s.m, l.s.n) && IsMatrix(B, l.s.n, l.s.p) && l.s.IsBlock(i, k, 0) && c < l.s.w
    ensures Out(l, A, B, i, k)[c] == ProductCell(l.s, A, B, i, k, 0, c)
  {
    BlockInRow(l.s, k, 0);
    DotInTile(l.s, A[i], B, k, c, l.s.n);
  }

  lemma ProductWhenEqual(l: Layout, A: Matrix, B: Matrix, stale: seq<real>)
    requires l.Ok() && IsMatrix(A, l.s.m, l.s.n) && IsMatrix(B, l.s.n, l.s.p) && |stale| == l.s.w && l.s.w == l.s.g
    ensures ComputesProduct(l, A, B, stale)
  {
    forall i: nat, k: nat, q: nat, c: nat | l.s.IsBlock(i, k, q) && c < l.s.w
      ensures Value(l, A, B, stale, i, k, q, l.s.g / l.s.w)[c] == ProductCell(l.s, A, B, i, k, q, c)
    {
      OneItem(l.s, q);
      OutIsProduct(l, A, B, i, k, c);
    }
  }

  /** A is zero but for its first cell, and B but for one in its first row. */
  function OneCell(r: nat, c: nat, j: nat): (M: Matrix)
    ensures IsMatrix(M, r, c)
  {
    seq(r, t => seq(c, u => if t == 0 && u == j then 1.0 else 0.0))
  }

  lemma {:induction false} DotOneCell(a: seq<real>, M: Matrix, j: nat, k: nat, x: nat, c: nat)
    requires k <= |a| && k <= |M| && j < c && M == OneCell(|M|, c, x)
    ensures Dot(a, M, j, k) == if k > 0 && j == x then a[0] else 0.0
  {
    if k > 0 {
      DotOneCell(a, M, j, k - 1, x, c);
      assert M[k - 1][j] == if k == 1 && j == x then 1.0 else 0.0;
    }
  }

  lemma NotProductWhenLess(l: Layout) returns (A: Matrix, B: Matrix, stale: seq<real>)
    requires l.Ok() && l.s.w < l.s.g && l.s.m > 0 && l.s.p > 0
    ensures IsMatrix(A, l.s.m, l.s.n) && IsMatrix(B, l.s.n, l.s.p) && |stale| == l.s.w && !ComputesProduct(l, A, B, stale)
  {
    var s := l.s;
    A, B, stale := OneCell(s.m, s.n, 0), OneCell(s.n, s.p, s.w), seq(s.w, _ => 0.0);
    TwoItems(s);
    BlockInRow(s, 0, 1);
    assert s.IsBlock(0, 0, 1);
    DotOneCell(A[0], B, s.w, s.n, s.w, s.p);
    assert ProductCell(s, A, B, 0, 0, 1, 0) == 1.0;
    OutIsProduct(l, A, B, 0, 0, 0);
    DotOneCell(A[0], B, 0, s.n, s.w, s.p);
    assert Value(l, A, B, stale, 0, 0, 1, s.g / s.w)[0] == 0.0;
  }

  lemma TwoItems(s: Shape)
    requires s.Ok() && s.w < s.g && s.p > 0
    ensures s.g / s.w > 1 && s.p / s.g > 0
  {
  }

  /** The program computes A * B for all matrices exactly when a work item is a whole group. */
  lemma ProductIff(l: Layout)
    requires l.Ok() && l.s.m > 0 && l.s.p > 0
    ensures l.s.w == l.s.g <==>
            forall A: Matrix, B: Matrix, stale: seq<real> ::
              IsMatrix(A, l.s.m, l.s.n) && IsMatrix(B, l.s.n, l.s.p) && |stale| == l.s.w ==> ComputesProduct(l, A, B, stale)
  {
    if l.s.w == l.s.g {
      forall A: Matrix, B: Matrix, stale: seq<real> |
        IsMatrix(A, l.s.m, l.s.n) && IsMatrix(B, l.s.n, l.s.p) && |stale| == l.s.w
        ensures ComputesProduct(l, A, B, stale)
      {
        ProductWhenEqual(l, A, B, stale);
      }
    } else {
      var A, B, stale := NotProductWhenLess(l);
    }
  }
}
