/**
 * Shared vocabulary of the Tentai Show (Galaxies) solvers and checker.
 *
 * A puzzle of W x H tiles lives on an internal grid of (2W+1) x (2H+1)
 * cells: tile (tx, ty) has its centre at (2tx+1, 2ty+1), cells with both
 * coordinates even are vertices and the rest are edges.  A dot sits on any
 * internal cell.  A search state assigns every tile an owner: -1 for an
 * empty tile, otherwise the index of the dot whose region holds it.
 */
module Tiles {

  import opened Words

  datatype Option<T> = None | Some(value: T)

  /** A clue dot at internal coordinates (x, y). */
  datatype Dot = Dot(x: int, y: int, isBlack: bool)

  /** Tile dimensions, internal dimensions and the dots in descriptor order. */
  datatype Puzzle = Puzzle(w: int, h: int, sx: int, sy: int, dots: seq<Dot>)

  /** Owner grid, row by row: grid[ty][tx]. */
  type Grid = seq<seq<int>>

  /** Zobrist table: one 64-bit key per (tile index ty*w+tx, dot index). */
  type Table = seq<seq<Word>>

  /** A search state: owners, number of filled tiles and the incremental hash. */
  datatype State = State(cells: Grid, filledCount: int, hash: Word)

  /** A solver move: give (tx, ty) to dot d, and its mirror (sx, sy) too when that was empty. */
  datatype Move = Move(tx: int, ty: int, d: int, sx: int, sy: int, symmetricWasEmpty: bool)

  function Abs(a: int): nat { if a < 0 then -a else a }

  /** a / 2 as C and C++ compute it: the quotient is truncated toward zero. */
  function CHalf(a: int): int
  {
    if a >= 0 then a / 2 else -((-a) / 2)
  }

  /** Floor division as Python's // computes it. */
  function PyDiv(a: int, b: int): int
    requires b != 0
  {
    if b > 0 then a / b else (-a) / (-b)
  }

  /** Python's %: the remainder takes the sign of the divisor. */
  function PyMod(a: int, b: int): int
    requires b != 0
  {
    a - b * PyDiv(a, b)
  }

  lemma CHalfOfEven(a: int)
    requires a % 2 == 0
    ensures CHalf(a) * 2 == a
  {
  }

  // ---------------------------------------------------------------------
  // Geometry
  // ---------------------------------------------------------------------

  predicate InTileBounds(w: int, h: int, tx: int, ty: int)
  {
    0 <= tx < w && 0 <= ty < h
  }

  /**
   * The tile whose centre is the reflection of (tx, ty)'s centre through
   * the dot: the centre 2t+1 maps to 2*dot - (2t+1).
   */
  function SymmetricTile(dotX: int, dotY: int, tx: int, ty: int): (r: (int, int))
    ensures 2 * r.0 + 1 == 2 * dotX - (2 * tx + 1) && 2 * r.1 + 1 == 2 * dotY - (2 * ty + 1)
  {
    (dotX - tx - 1, dotY - ty - 1)
  }

  /**
   * getSymmetricTile as the solvers compute it, in internal-grid
   * coordinates with C's truncating division; the difference divided is
   * always even, so truncation never applies and the result is SymmetricTile.
   */
  method GetSymmetricTile(dotX: int, dotY: int, tx: int, ty: int) returns (sx: int, sy: int)
    ensures (sx, sy) == SymmetricTile(dotX, dotY, tx, ty)
  {
    var cx := tx * 2 + 1;
    var cy := ty * 2 + 1;
    var rx := 2 * dotX - cx;
    var ry := 2 * dotY - cy;
    CHalfOfEven(rx - 1);
    CHalfOfEven(ry - 1);
    sx := CHalf(rx - 1);
    sy := CHalf(ry - 1);
  }

  /** Reflecting twice through the same dot gives the tile back. */
  lemma SymmetricTileInvolution(dotX: int, dotY: int, tx: int, ty: int)
    ensures var r := SymmetricTile(dotX, dotY, tx, ty);
            SymmetricTile(dotX, dotY, r.0, r.1) == (tx, ty)
  {
  }

  /** A tile touches a dot when the dot lies on the tile's centre, edges or corners. */
  predicate TouchesDot(dotX: int, dotY: int, tx: int, ty: int)
  {
    Abs(tx * 2 + 1 - dotX) <= 1 && Abs(ty * 2 + 1 - dotY) <= 1
  }

  /**
   * The tiles a dot forces into its own region, in the order the seeding
   * loops try them: one tile for a dot on a tile centre, two for a dot on
   * an edge, four for a dot on a vertex.
   */
  function ForcedTiles(dx: int, dy: int): seq<(int, int)>
  {
    var oddx := dx % 2 != 0;
    var oddy := dy % 2 != 0;
    if oddx && oddy then
      [(CHalf(dx - 1), CHalf(dy - 1))]
    else if oddx then
      [(CHalf(dx - 1), CHalf(dy) - 1), (CHalf(dx - 1), CHalf(dy))]
    else if oddy then
      [(CHalf(dx) - 1, CHalf(dy - 1)), (CHalf(dx), CHalf(dy - 1))]
    else
      [(CHalf(dx) - 1, CHalf(dy) - 1), (CHalf(dx) - 1, CHalf(dy)),
       (CHalf(dx), CHalf(dy) - 1), (CHalf(dx), CHalf(dy))]
  }

  lemma CHalfOfOdd(a: int)
    requires a % 2 != 0
    ensures CHalf(a - 1) * 2 == a - 1
  {
    CHalfOfEven(a - 1);
  }

  /** The forced tiles of a dot are exactly the tiles that touch it. */
  lemma ForcedTilesAreTouching(dx: int, dy: int, tx: int, ty: int)
    ensures TouchesDot(dx, dy, tx, ty) <==> (tx, ty) in ForcedTiles(dx, dy)
  {
    if dx % 2 != 0 { CHalfOfOdd(dx); } else { CHalfOfEven(dx); }
    if dy % 2 != 0 { CHalfOfOdd(dy); } else { CHalfOfEven(dy); }
  }

  /** The forced tiles of a dot are pairwise distinct. */
  lemma ForcedTilesDistinct(dx: int, dy: int)
    ensures var f := ForcedTiles(dx, dy);
            forall i, j :: 0 <= i < j < |f| ==> f[i] != f[j]
  {
  }

  /** The forced tiles of a dot are mirrors of each other through it. */
  lemma ForcedTilesMirror(dx: int, dy: int, tx: int, ty: int)
    requires (tx, ty) in ForcedTiles(dx, dy)
    ensures SymmetricTile(dx, dy, tx, ty) in ForcedTiles(dx, dy)
  {
    var r := SymmetricTile(dx, dy, tx, ty);
    ForcedTilesAreTouching(dx, dy, tx, ty);
    ForcedTilesAreTouching(dx, dy, r.0, r.1);
  }

  /**
   * Every tile touching dot (dx, dy) lies in the 3x3 window centred on
   * (CHalf(dx-1), CHalf(dy-1)), the window the C solvers scan; this
   * holds with C's truncating division, including for a dot at x = 0 or y = 0.
   */
  lemma TouchingTilesInWindow(dx: int, dy: int, tx: int, ty: int)
    requires TouchesDot(dx, dy, tx, ty)
    ensures CHalf(dx - 1) - 1 <= tx <= CHalf(dx - 1) + 1
    ensures CHalf(dy - 1) - 1 <= ty <= CHalf(dy - 1) + 1
  {
    WindowCoordinate(dx, tx);
    WindowCoordinate(dy, ty);
  }

  lemma WindowCoordinate(d: int, t: int)
    requires Abs(t * 2 + 1 - d) <= 1
    ensures CHalf(d - 1) - 1 <= t <= CHalf(d - 1) + 1
  {
    var c := CHalf(d - 1);
    if d - 1 >= 0 {
      assert c == (d - 1) / 2;
      assert 2 * c <= d - 1 <= 2 * c + 1;
    } else {
      assert c == -((1 - d) / 2);
      assert 2 * c - 1 <= d - 1 <= 2 * c;
    }
  }

  // ---------------------------------------------------------------------
  // Owner grids
  // ---------------------------------------------------------------------

  /** The grid has h rows of w tiles. */
  predicate Shaped(g: Grid, w: int, h: int)
  {
    |g| == h && forall y :: 0 <= y < |g| ==> |g[y]| == w
  }

  predicate Fits(g: Grid, x: int, y: int)
  {
    0 <= y < |g| && 0 <= x < |g[y]|
  }

  /** Every owner is -1 or a dot index below n. */
  predicate Owners(g: Grid, n: int)
  {
    forall y, x :: 0 <= y < |g| && 0 <= x < |g[y]| ==> -1 <= g[y][x] < n
  }

  function SetCell(g: Grid, x: int, y: int, v: int): (r: Grid)
    requires Fits(g, x, y)
    ensures |r| == |g| && forall k :: 0 <= k < |g| ==> |r[k]| == |g[k]|
  {
    g[y := g[y][x := v]]
  }

  function Indicator(v: int): nat { if v != -1 then 1 else 0 }

  /** Number of owned tiles among the first k of a row. */
  function RowFilled(r: seq<int>, k: nat): nat
    requires k <= |r|
  {
    if k == 0 then 0 else RowFilled(r, k - 1) + Indicator(r[k - 1])
  }

  /** Number of owned tiles in the first k rows. */
  function FilledRows(g: Grid, k: nat): nat
    requires k <= |g|
  {
    if k == 0 then 0 else FilledRows(g, k - 1) + RowFilled(g[k - 1], |g[k - 1]|)
  }

  /** Number of tiles that have an owner. */
  function CountFilled(g: Grid): nat
  {
    FilledRows(g, |g|)
  }

  /** The key of tile i for owner v; an empty tile (v = -1) contributes nothing. */
  function Entry(z: Table, i: int, v: int): Word
  {
    if 0 <= v && 0 <= i < |z| && v < |z[i]| then z[i][v] else 0
  }

  /** XOR of the keys of the first k tiles of row r, whose first tile has index base. */
  function RowHash(r: seq<int>, z: Table, base: int, k: nat): Word
    requires k <= |r|
  {
    if k == 0 then 0 else Xor(RowHash(r, z, base, k - 1), Entry(z, base + (k - 1), r[k - 1]))
  }

  /** XOR of the keys of the first k rows. */
  function HashRows(g: Grid, z: Table, w: int, k: nat): Word
    requires k <= |g|
  {
    if k == 0 then 0 else Xor(HashRows(g, z, w, k - 1), RowHash(g[k - 1], z, (k - 1) * w, |g[k - 1]|))
  }

  /** Zobrist hash of a grid: the XOR of zobrist[y*w+x][owner] over all filled tiles. */
  function HashOf(g: Grid, z: Table, w: int): Word
  {
    HashRows(g, z, w, |g|)
  }

  /** The table has a key for every tile index below size and every dot below n. */
  predicate TableFits(z: Table, size: int, n: int)
  {
    |z| >= size && forall i :: 0 <= i < |z| ==> |z[i]| >= n
  }

  /** The stored count and hash agree with the owners. */
  predicate Consistent(s: State, z: Table, w: int)
  {
    s.filledCount == CountFilled(s.cells) && s.hash == HashOf(s.cells, z, w)
  }

  lemma {:induction false} RowFilledUpdate(r: seq<int>, x: int, v: int, k: nat)
    requires 0 <= x < |r| && k <= |r|
    ensures k <= x ==> RowFilled(r[x := v], k) == RowFilled(r, k)
    ensures x < k ==> RowFilled(r[x := v], k) + Indicator(r[x]) == RowFilled(r, k) + Indicator(v)
    decreases k
  {
    if k > 0 {
      RowFilledUpdate(r, x, v, k - 1);
    }
  }

  lemma {:induction false} RowHashUpdate(r: seq<int>, z: Table, base: int, x: int, v: int, k: nat)
    requires 0 <= x < |r| && k <= |r|
    ensures k <= x ==> RowHash(r[x := v], z, base, k) == RowHash(r, z, base, k)
    ensures x < k ==> RowHash(r[x := v], z, base, k) ==
                      Xor(Xor(RowHash(r, z, base, k), Entry(z, base + x, r[x])), Entry(z, base + x, v))
    decreases k
  {
    if k > 0 {
      var r' := r[x := v];
      RowHashUpdate(r, z, base, x, v, k - 1);
      var p := RowHash(r, z, base, k - 1);
      var a := Entry(z, base + x, r[x]);
      var b := Entry(z, base + x, v);
      if k - 1 > x {
        assert r'[k - 1] == r[k - 1];
        XorRotate(p, a, b, Entry(z, base + (k - 1), r[k - 1]));
      } else if k - 1 == x {
        XorReplace(p, a, b);
      } else {
        assert r'[k - 1] == r[k - 1];
      }
    }
  }

  lemma {:induction false} FilledRowsUpdate(g: Grid, x: int, y: int, v: int, k: nat)
    requires Fits(g, x, y) && k <= |g|
    ensures k <= y ==> FilledRows(SetCell(g, x, y, v), k) == FilledRows(g, k)
    ensures y < k ==> FilledRows(SetCell(g, x, y, v), k) + Indicator(g[y][x]) == FilledRows(g, k) + Indicator(v)
    decreases k
  {
    if k > 0 {
      FilledRowsUpdate(g, x, y, v, k - 1);
      if k - 1 == y {
        RowFilledUpdate(g[y], x, v, |g[y]|);
      }
    }
  }

  lemma {:induction false} HashRowsUpdate(g: Grid, z: Table, w: int, x: int, y: int, v: int, k: nat)
    requires Fits(g, x, y) && k <= |g|
    ensures k <= y ==> HashRows(SetCell(g, x, y, v), z, w, k) == HashRows(g, z, w, k)
    ensures y < k ==> HashRows(SetCell(g, x, y, v), z, w, k) ==
                      Xor(Xor(HashRows(g, z, w, k), Entry(z, y * w + x, g[y][x])), Entry(z, y * w + x, v))
    decreases k
  {
    if k > 0 {
      var g' := SetCell(g, x, y, v);
      HashRowsUpdate(g, z, w, x, y, v, k - 1);
      var p := HashRows(g, z, w, k - 1);
      var a := Entry(z, y * w + x, g[y][x]);
      var b := Entry(z, y * w + x, v);
      if k - 1 > y {
        assert g'[k - 1] == g[k - 1];
        XorRotate(p, a, b, RowHash(g[k - 1], z, (k - 1) * w, |g[k - 1]|));
      } else if k - 1 == y {
        var base := y * w;
        var row := RowHash(g[y], z, base, |g[y]|);
        RowHashUpdate(g[y], z, base, x, v, |g[y]|);
        assert HashRows(g', z, w, k) == Xor(p, Xor(Xor(row, a), b));
        XorAssoc(p, Xor(row, a), b);
        XorAssoc(p, row, a);
      } else {
        assert g'[k - 1] == g[k - 1];
      }
    }
  }

  /** Changing one owner changes the filled count by the change in filledness. */
  lemma CountUpdate(g: Grid, x: int, y: int, v: int)
    requires Fits(g, x, y)
    ensures CountFilled(SetCell(g, x, y, v)) + Indicator(g[y][x]) == CountFilled(g) + Indicator(v)
  {
    FilledRowsUpdate(g, x, y, v, |g|);
  }

  /** Changing one owner XORs out the old key and XORs in the new one. */
  lemma HashUpdate(g: Grid, z: Table, w: int, x: int, y: int, v: int)
    requires Fits(g, x, y)
    ensures HashOf(SetCell(g, x, y, v), z, w) ==
            Xor(Xor(HashOf(g, z, w), Entry(z, y * w + x, g[y][x])), Entry(z, y * w + x, v))
  {
    HashRowsUpdate(g, z, w, x, y, v, |g|);
  }

  lemma {:induction false} RowFilledBound(r: seq<int>, k: nat)
    requires k <= |r|
    ensures RowFilled(r, k) <= k
    ensures RowFilled(r, k) == k <==> forall x :: 0 <= x < k ==> r[x] != -1
    decreases k
  {
    if k > 0 {
      RowFilledBound(r, k - 1);
    }
  }

  lemma {:induction false} FilledRowsBound(g: Grid, w: int, k: nat)
    requires k <= |g| && forall y :: 0 <= y < |g| ==> |g[y]| == w
    ensures FilledRows(g, k) <= k * w
    ensures FilledRows(g, k) == k * w <==> forall y, x :: 0 <= y < k && 0 <= x < w ==> g[y][x] != -1
    decreases k
  {
    if k > 0 {
      FilledRowsBound(g, w, k - 1);
      RowFilledBound(g[k - 1], w);
      assert k * w == (k - 1) * w + w;
    }
  }

  /** Every tile is filled exactly when the count reaches w*h. */
  lemma FullGrid(g: Grid, w: int, h: int)
    requires Shaped(g, w, h)
    ensures CountFilled(g) <= w * h
    ensures CountFilled(g) == w * h <==> forall y, x :: 0 <= y < h && 0 <= x < w ==> g[y][x] != -1
  {
    FilledRowsBound(g, w, h);
  }

  /** The grid a solver starts from: h rows of w empty tiles. */
  function EmptyGrid(w: nat, h: nat): (g: Grid)
    ensures Shaped(g, w, h)
    ensures forall y, x :: 0 <= y < h && 0 <= x < w ==> g[y][x] == -1
  {
    seq(h, _ => seq(w, _ => -1))
  }

  lemma {:induction false} EmptyRows(g: Grid, z: Table, w: int, k: nat)
    requires k <= |g| && forall y, x :: 0 <= y < |g| && 0 <= x < |g[y]| ==> g[y][x] == -1
    ensures FilledRows(g, k) == 0 && HashRows(g, z, w, k) == 0
    decreases k
  {
    if k > 0 {
      EmptyRows(g, z, w, k - 1);
      EmptyRow(g[k - 1], z, (k - 1) * w, |g[k - 1]|);
    }
  }

  lemma {:induction false} EmptyRow(r: seq<int>, z: Table, base: int, k: nat)
    requires k <= |r| && forall x :: 0 <= x < |r| ==> r[x] == -1
    ensures RowFilled(r, k) == 0 && RowHash(r, z, base, k) == 0
    decreases k
  {
    if k > 0 {
      EmptyRow(r, z, base, k - 1);
    }
  }

  /** The initial state: nothing filled, hash 0, which is consistent. */
  function EmptyState(w: nat, h: nat): (s: State)
    ensures forall z: Table :: Consistent(s, z, w)
  {
    var g := EmptyGrid(w, h);
    forall z: Table ensures Consistent(State(g, 0, 0), z, w) {
      EmptyRows(g, z, w, h);
    }
    State(g, 0, 0)
  }

  /**
   * What tryFill does to a state: a tile off the board is ignored and
   * succeeds; an empty tile is given to d; a tile d owns already succeeds
   * unchanged; a tile owned by another dot fails unchanged.
   */
  function TryFillResult(s: State, z: Table, w: int, h: int, tx: int, ty: int, d: int): (r: (bool, State))
    requires Shaped(s.cells, w, h)
  {
    if !InTileBounds(w, h, tx, ty) then (true, s)
    else if s.cells[ty][tx] == -1 then (true, Filled(s, z, w, tx, ty, d))
    else (s.cells[ty][tx] == d, s)
  }

  /** tryFill keeps the shape, the owner range and the count/hash consistency. */
  lemma TryFillKeeps(s: State, z: Table, w: int, h: int, tx: int, ty: int, d: int, n: int)
    requires Shaped(s.cells, w, h) && Owners(s.cells, n) && 0 <= d < n && Consistent(s, z, w)
    ensures var r := TryFillResult(s, z, w, h, tx, ty, d);
            Shaped(r.1.cells, w, h) && Owners(r.1.cells, n) && Consistent(r.1, z, w)
  {
    if InTileBounds(w, h, tx, ty) && s.cells[ty][tx] == -1 {
      FillOne(s.cells, z, w, tx, ty, d);
    }
  }

  /** Dot d owns at least one tile. */
  predicate Used(g: Grid, d: int)
  {
    exists y, x :: 0 <= y < |g| && 0 <= x < |g[y]| && g[y][x] == d
  }

  /** Every dot below n owns at least one tile. */
  predicate AllUsed(g: Grid, n: int)
  {
    forall d :: 0 <= d < n ==> Used(g, d)
  }

  /** The mirror of an owned tile through its dot is on the board and owned by the same dot. */
  predicate MirrorHolds(p: Puzzle, g: Grid, x: int, y: int)
    requires Fits(g, x, y)
  {
    var d := g[y][x];
    d < 0 ||
    (d < |p.dots| &&
     var m := SymmetricTile(p.dots[d].x, p.dots[d].y, x, y);
     Fits(g, m.0, m.1) && g[m.1][m.0] == d)
  }

  /** Every region built so far is symmetric about its own dot. */
  predicate Symmetric(p: Puzzle, g: Grid)
  {
    forall y, x :: 0 <= y < |g| && 0 <= x < |g[y]| ==> MirrorHolds(p, g, x, y)
  }

  // ---------------------------------------------------------------------
  // Moves
  // ---------------------------------------------------------------------

  /** The mirror is a different tile that the move also fills. */
  predicate FillsMirror(m: Move)
  {
    (m.tx != m.sx || m.ty != m.sy) && m.symmetricWasEmpty
  }

  /** The tiles a move writes are on the grid and currently empty. */
  predicate MoveReady(g: Grid, m: Move)
  {
    Fits(g, m.tx, m.ty) && g[m.ty][m.tx] == -1 &&
    (FillsMirror(m) ==> Fits(g, m.sx, m.sy) && g[m.sy][m.sx] == -1)
  }

  /** The state with empty tile (x, y) given to dot d: one more filled tile, its key XORed in. */
  function Filled(s: State, z: Table, w: int, x: int, y: int, d: int): State
    requires Fits(s.cells, x, y)
  {
    State(SetCell(s.cells, x, y, d), s.filledCount + 1, Xor(s.hash, Entry(z, y * w + x, d)))
  }

  /** The state with tile (x, y), owned by d, emptied: one fewer filled tile, its key XORed out. */
  function Cleared(s: State, z: Table, w: int, x: int, y: int, d: int): State
    requires Fits(s.cells, x, y)
  {
    State(SetCell(s.cells, x, y, -1), s.filledCount - 1, Xor(s.hash, Entry(z, y * w + x, d)))
  }

  /** State after applying a move: the target, and the mirror if flagged, get owner d. */
  function Applied(s: State, m: Move, z: Table, w: int): State
    requires Fits(s.cells, m.tx, m.ty)
    requires FillsMirror(m) ==> Fits(s.cells, m.sx, m.sy)
  {
    var s1 := Filled(s, z, w, m.tx, m.ty, m.d);
    if FillsMirror(m) then Filled(s1, z, w, m.sx, m.sy, m.d) else s1
  }

  /** State after undoing a move: the tiles it wrote become empty again. */
  function Undone(s: State, m: Move, z: Table, w: int): State
    requires Fits(s.cells, m.tx, m.ty)
    requires FillsMirror(m) ==> Fits(s.cells, m.sx, m.sy)
  {
    var s1 := Cleared(s, z, w, m.tx, m.ty, m.d);
    if FillsMirror(m) then Cleared(s1, z, w, m.sx, m.sy, m.d) else s1
  }

  /**
   * A move the solvers may make on grid g: the target is an empty tile, d is
   * a dot, the mirror of the target through dot d is on the board, and the
   * flag records whether that mirror is empty; a mirror that is not empty
   * already belongs to d.
   */
  predicate Legal(p: Puzzle, g: Grid, m: Move)
  {
    Fits(g, m.tx, m.ty) && g[m.ty][m.tx] == -1 && 0 <= m.d < |p.dots| &&
    (m.sx, m.sy) == SymmetricTile(p.dots[m.d].x, p.dots[m.d].y, m.tx, m.ty) &&
    Fits(g, m.sx, m.sy) && m.symmetricWasEmpty == (g[m.sy][m.sx] == -1) &&
    (!m.symmetricWasEmpty ==> g[m.sy][m.sx] == m.d)
  }

  /** Applying a ready move keeps count and hash consistent and fills one or two tiles. */
  lemma AppliedConsistent(s: State, m: Move, z: Table, w: int)
    requires MoveReady(s.cells, m) && Consistent(s, z, w) && m.d >= 0
    ensures Consistent(Applied(s, m, z, w), z, w)
    ensures Applied(s, m, z, w).filledCount == s.filledCount + (if FillsMirror(m) then 2 else 1)
  {
    var g1 := SetCell(s.cells, m.tx, m.ty, m.d);
    FillOne(s.cells, z, w, m.tx, m.ty, m.d);
    if FillsMirror(m) {
      assert g1[m.sy][m.sx] == -1;
      FillOne(g1, z, w, m.sx, m.sy, m.d);
    }
  }

  /** The tiles a move wrote are on the grid and still owned by its dot. */
  predicate MoveDone(g: Grid, m: Move)
  {
    Fits(g, m.tx, m.ty) && g[m.ty][m.tx] == m.d &&
    (FillsMirror(m) ==> Fits(g, m.sx, m.sy) && g[m.sy][m.sx] == m.d)
  }

  /** Undoing a move whose tiles its dot owns keeps count and hash consistent. */
  lemma UndoneConsistent(s: State, m: Move, z: Table, w: int)
    requires MoveDone(s.cells, m) && Consistent(s, z, w) && m.d >= 0
    ensures Consistent(Undone(s, m, z, w), z, w)
  {
    var g1 := SetCell(s.cells, m.tx, m.ty, -1);
    ClearOne(s.cells, z, w, m.tx, m.ty);
    if FillsMirror(m) {
      assert g1[m.sy][m.sx] == m.d;
      ClearOne(g1, z, w, m.sx, m.sy);
    }
  }

  /** A legal move keeps shape, owner range and consistency, and leaves the move undoable. */
  lemma LegalApplied(p: Puzzle, s: State, m: Move, z: Table, w: int, h: int)
    requires Shaped(s.cells, w, h) && Owners(s.cells, |p.dots|) && Consistent(s, z, w) && Legal(p, s.cells, m)
    ensures var a := Applied(s, m, z, w);
            Shaped(a.cells, w, h) && Owners(a.cells, |p.dots|) && Consistent(a, z, w) && MoveDone(a.cells, m)
  {
    AppliedConsistent(s, m, z, w);
  }

  /** Undoing keeps shape, owner range and consistency. */
  lemma UndoneKeeps(s: State, m: Move, z: Table, w: int, h: int, n: int)
    requires Shaped(s.cells, w, h) && Owners(s.cells, n) && Consistent(s, z, w) && MoveDone(s.cells, m) && m.d >= 0
    ensures var u := Undone(s, m, z, w);
            Shaped(u.cells, w, h) && Owners(u.cells, n) && Consistent(u, z, w)
  {
    UndoneConsistent(s, m, z, w);
  }

  /** Filling one empty tile adds one to the count and XORs in its key. */
  lemma FillOne(g: Grid, z: Table, w: int, x: int, y: int, d: int)
    requires Fits(g, x, y) && g[y][x] == -1 && d >= 0
    ensures CountFilled(SetCell(g, x, y, d)) == CountFilled(g) + 1
    ensures HashOf(SetCell(g, x, y, d), z, w) == Xor(HashOf(g, z, w), Entry(z, y * w + x, d))
  {
    CountUpdate(g, x, y, d);
    HashUpdate(g, z, w, x, y, d);
    assert Entry(z, y * w + x, g[y][x]) == 0;
    XorZero(HashOf(g, z, w));
  }

  /** Emptying a tile owned by d subtracts one from the count and XORs its key out. */
  lemma ClearOne(g: Grid, z: Table, w: int, x: int, y: int)
    requires Fits(g, x, y) && g[y][x] != -1
    ensures CountFilled(SetCell(g, x, y, -1)) + 1 == CountFilled(g)
    ensures HashOf(SetCell(g, x, y, -1), z, w) == Xor(HashOf(g, z, w), Entry(z, y * w + x, g[y][x]))
  {
    CountUpdate(g, x, y, -1);
    HashUpdate(g, z, w, x, y, -1);
    assert Entry(z, y * w + x, -1) == 0;
    XorZero(Xor(HashOf(g, z, w), Entry(z, y * w + x, g[y][x])));
  }

  lemma SetCellSwap(g: Grid, x1: int, y1: int, v1: int, x2: int, y2: int, v2: int)
    requires Fits(g, x1, y1) && Fits(g, x2, y2) && (x1 != x2 || y1 != y2)
    ensures SetCell(SetCell(g, x1, y1, v1), x2, y2, v2) == SetCell(SetCell(g, x2, y2, v2), x1, y1, v1)
  {
    if y1 == y2 {
      assert g[y1][x1 := v1][x2 := v2] == g[y1][x2 := v2][x1 := v1];
    }
  }

  lemma SetCellRestore(g: Grid, x: int, y: int, v: int)
    requires Fits(g, x, y)
    ensures SetCell(SetCell(g, x, y, v), x, y, g[y][x]) == g
  {
    assert SetCell(SetCell(g, x, y, v), x, y, g[y][x])[y] == g[y];
  }

  /** Undoing a move right after applying it restores the state exactly. */
  lemma UndoneApplied(s: State, m: Move, z: Table, w: int)
    requires MoveReady(s.cells, m)
    ensures var a := Applied(s, m, z, w);
            Fits(a.cells, m.tx, m.ty) && (FillsMirror(m) ==> Fits(a.cells, m.sx, m.sy)) &&
            Undone(a, m, z, w) == s
  {
    var g := s.cells;
    var g1 := SetCell(g, m.tx, m.ty, m.d);
    var k1 := Entry(z, m.ty * w + m.tx, m.d);
    if FillsMirror(m) {
      var k2 := Entry(z, m.sy * w + m.sx, m.d);
      var g2 := SetCell(g1, m.sx, m.sy, m.d);
      SetCellSwap(g2, m.tx, m.ty, -1, m.sx, m.sy, -1);
      assert g1[m.sy][m.sx] == -1;
      SetCellRestore(g1, m.sx, m.sy, m.d);
      assert SetCell(g2, m.sx, m.sy, -1) == g1;
      SetCellRestore(g, m.tx, m.ty, m.d);
      assert SetCell(g1, m.tx, m.ty, -1) == g;
      assert SetCell(SetCell(g2, m.tx, m.ty, -1), m.sx, m.sy, -1) == g;
      var a := State(g2, s.filledCount + 2, Xor(Xor(s.hash, k1), k2));
      assert Applied(s, m, z, w) == a;
      var u := Undone(a, m, z, w);
      assert u.cells == g;
      assert u.filledCount == s.filledCount;
      XorUndoTwo(s.hash, k1, k2);
      assert u.hash == s.hash;
    } else {
      SetCellRestore(g, m.tx, m.ty, m.d);
      var a := State(g1, s.filledCount + 1, Xor(s.hash, k1));
      assert Applied(s, m, z, w) == a;
      var u := Undone(a, m, z, w);
      assert u.cells == g;
      XorCancel(s.hash, k1);
      assert u.hash == s.hash;
    }
  }

  /** A legal move keeps every region symmetric about its dot. */
  lemma AppliedKeepsSymmetric(p: Puzzle, s: State, m: Move, z: Table, w: int)
    requires Symmetric(p, s.cells) && Legal(p, s.cells, m)
    ensures Symmetric(p, Applied(s, m, z, w).cells)
  {
    var g := s.cells;
    var g' := Applied(s, m, z, w).cells;
    var dot := p.dots[m.d];
    SymmetricTileInvolution(dot.x, dot.y, m.tx, m.ty);
    assert Fits(g', m.sx, m.sy) && g'[m.sy][m.sx] == m.d;
    assert g'[m.ty][m.tx] == m.d;
    forall y, x | 0 <= y < |g'| && 0 <= x < |g'[y]| ensures MirrorHolds(p, g', x, y) {
      if (x == m.tx && y == m.ty) || (x == m.sx && y == m.sy) {
      } else {
        assert g'[y][x] == g[y][x];
        assert MirrorHolds(p, g, x, y);
        var d := g[y][x];
        if d >= 0 {
          var r := SymmetricTile(p.dots[d].x, p.dots[d].y, x, y);
          assert g[r.1][r.0] == d;
          assert g'[r.1][r.0] == d;
        }
      }
    }
  }

  /** g keeps every owner g0 has assigned: the search only ever adds tiles. */
  predicate Extends(g0: Grid, g: Grid)
  {
    |g| == |g0| &&
    forall y, x :: 0 <= y < |g0| && 0 <= x < |g0[y]| && g0[y][x] != -1 ==> x < |g[y]| && g[y][x] == g0[y][x]
  }

  /** A legal move only fills empty tiles, so it keeps every assigned owner. */
  lemma AppliedExtends(p: Puzzle, s: State, m: Move, z: Table, w: int)
    requires Legal(p, s.cells, m)
    ensures Extends(s.cells, Applied(s, m, z, w).cells)
  {
  }

  lemma ExtendsTrans(g0: Grid, g1: Grid, g2: Grid)
    requires Extends(g0, g1) && Extends(g1, g2)
    ensures Extends(g0, g2)
  {
  }
}
