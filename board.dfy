/**
 * The in-place search state of the C++ depth-first solvers: the owner grid,
 * the number of filled tiles and the incremental Zobrist hash, changed by
 * tryFill, seedForcedTiles, applyMove and undoMove.  The sequential and the
 * OpenMP depth-first solver carry identical copies of these members.
 */
module Boards {

  import opened Words
  import opened Tiles
  import opened Seeding

  class Board {
    const p: Puzzle
    const w: int
    const h: int
    /** zobrist_[ty*w+tx][d], generated at random by the solver and passed in here. */
    const z: Table
    var grid: Grid
    var filledCount: int
    var hash: Word

    function Snapshot(): State
      reads this
    {
      State(grid, filledCount, hash)
    }

    /** The grid has the puzzle's shape, owners are dots or -1, and count and hash match the grid. */
    ghost predicate Valid()
      reads this
    {
      w == p.w && h == p.h && w >= 0 && h >= 0 &&
      Shaped(grid, w, h) && Owners(grid, |p.dots|) && Consistent(Snapshot(), z, w)
    }

    /** The solver's constructor: every tile empty, count 0, hash 0. */
    constructor(p: Puzzle, z: Table)
      requires p.w >= 0 && p.h >= 0
      ensures Valid() && this.p == p && this.z == z
      ensures Snapshot() == EmptyState(p.w, p.h)
    {
      this.p := p;
      this.w := p.w;
      this.h := p.h;
      this.z := z;
      var e := EmptyState(p.w, p.h);
      assert Consistent(e, z, p.w);
      grid := e.cells;
      filledCount := e.filledCount;
      hash := e.hash;
    }

    /** tryFill: give tile (tx, ty) to dot d if it is empty; see TryFillResult for the cases. */
    method TryFill(tx: int, ty: int, d: int) returns (ok: bool)
      requires Valid() && 0 <= d < |p.dots|
      modifies this
      ensures Valid()
      ensures (ok, Snapshot()) == TryFillResult(old(Snapshot()), z, w, h, tx, ty, d)
    {
      TryFillKeeps(Snapshot(), z, w, h, tx, ty, d, |p.dots|);
      if !(tx >= 0 && tx < w && ty >= 0 && ty < h) {
        return true;
      }
      var cur := grid[ty][tx];
      if cur == -1 {
        grid := grid[ty := grid[ty][tx := d]];
        hash := Xor(hash, Entry(z, ty * w + tx, d));
        filledCount := filledCount + 1;
        return true;
      }
      return cur == d;
    }

    /** The forced tiles of one dot, tried in the source's order with short-circuit ||. */
    method SeedDot(d: int) returns (ok: bool)
      requires Valid() && 0 <= d < |p.dots|
      modifies this
      ensures Valid()
      ensures (ok, Snapshot()) == SeedTiles(old(Snapshot()), z, w, h, d, ForcedTiles(p.dots[d].x, p.dots[d].y))
    {
      var dx := p.dots[d].x;
      var dy := p.dots[d].y;
      var oddx := dx % 2 != 0;
      var oddy := dy % 2 != 0;
      ghost var s0 := Snapshot();
      ghost var ts := ForcedTiles(dx, dy);
      ghost var rest := ts;
      if oddx && oddy {
        ok := TryFill(CHalf(dx - 1), CHalf(dy - 1), d);
        rest := SeedStep(s0, z, w, h, d, ts, ok, Snapshot());
      } else if oddx && !oddy {
        var tx := CHalf(dx - 1);
        var ty1 := CHalf(dy) - 1;
        var ty2 := CHalf(dy);
        ok := TryFill(tx, ty1, d);
        rest := SeedStep(s0, z, w, h, d, ts, ok, Snapshot());
        if ok {
          ghost var s1 := Snapshot();
          ok := TryFill(tx, ty2, d);
          rest := SeedStep(s1, z, w, h, d, rest, ok, Snapshot());
        }
      } else if !oddx && oddy {
        var ty := CHalf(dy - 1);
        var tx1 := CHalf(dx) - 1;
        var tx2 := CHalf(dx);
        ok := TryFill(tx1, ty, d);
        rest := SeedStep(s0, z, w, h, d, ts, ok, Snapshot());
        if ok {
          ghost var s1 := Snapshot();
          ok := TryFill(tx2, ty, d);
          rest := SeedStep(s1, z, w, h, d, rest, ok, Snapshot());
        }
      } else {
        ok := SeedVertex(d, CHalf(dx) - 1, CHalf(dx), CHalf(dy) - 1, CHalf(dy));
      }
    }

    /** A dot on a vertex: its four tiles in the source's order, stopping at the first failure. */
    method SeedVertex(d: int, tx1: int, tx2: int, ty1: int, ty2: int) returns (ok: bool)
      requires Valid() && 0 <= d < |p.dots|
      modifies this
      ensures Valid()
      ensures (ok, Snapshot()) == SeedTiles(old(Snapshot()), z, w, h, d, [(tx1, ty1), (tx1, ty2), (tx2, ty1), (tx2, ty2)])
    {
      ghost var s0 := Snapshot();
      ghost var rest := [(tx1, ty1), (tx1, ty2), (tx2, ty1), (tx2, ty2)];
      ok := TryFill(tx1, ty1, d);
      rest := SeedStep(s0, z, w, h, d, rest, ok, Snapshot());
      if ok {
        ghost var s1 := Snapshot();
        ok := TryFill(tx1, ty2, d);
        rest := SeedStep(s1, z, w, h, d, rest, ok, Snapshot());
        if ok {
          ghost var s2 := Snapshot();
          ok := TryFill(tx2, ty1, d);
          rest := SeedStep(s2, z, w, h, d, rest, ok, Snapshot());
          if ok {
            ghost var s3 := Snapshot();
            ok := TryFill(tx2, ty2, d);
            rest := SeedStep(s3, z, w, h, d, rest, ok, Snapshot());
          }
        }
      }
    }

    /** seedForcedTiles: seed every dot in order and stop at the first conflict. */
    method SeedForcedTiles() returns (ok: bool)
      requires Valid()
      modifies this
      ensures Valid()
      ensures (ok, Snapshot()) == SeedDots(old(Snapshot()), p, z, |p.dots|)
    {
      ghost var s0 := Snapshot();
      var d := 0;
      while d < |p.dots|
        invariant 0 <= d <= |p.dots| && Valid()
        invariant SeedDots(s0, p, z, d) == (true, Snapshot())
      {
        ghost var before := Snapshot();
        ok := SeedDot(d);
        SeedDotsNext(s0, p, z, d, before);
        if !ok {
          SeedDotsStopped(s0, p, z, d + 1, |p.dots|);
          return false;
        }
        d := d + 1;
      }
      return true;
    }

    /** applyMove: the target gets dot d, and the mirror too when it was empty and differs. */
    method ApplyMove(m: Move)
      requires Valid() && Legal(p, grid, m)
      modifies this
      ensures Valid()
      ensures Snapshot() == Applied(old(Snapshot()), m, z, w)
    {
      LegalApplied(p, Snapshot(), m, z, w, h);
      grid := grid[m.ty := grid[m.ty][m.tx := m.d]];
      hash := Xor(hash, Entry(z, m.ty * w + m.tx, m.d));
      filledCount := filledCount + 1;
      if m.tx != m.sx || m.ty != m.sy {
        if m.symmetricWasEmpty {
          grid := grid[m.sy := grid[m.sy][m.sx := m.d]];
          hash := Xor(hash, Entry(z, m.sy * w + m.sx, m.d));
          filledCount := filledCount + 1;
        }
      }
    }

    /** undoMove: empty the tiles the move wrote and XOR their keys out again. */
    method UndoMove(m: Move)
      requires Valid() && MoveDone(grid, m) && 0 <= m.d
      modifies this
      ensures Valid()
      ensures Snapshot() == Undone(old(Snapshot()), m, z, w)
    {
      UndoneKeeps(Snapshot(), m, z, w, h, |p.dots|);
      grid := grid[m.ty := grid[m.ty][m.tx := -1]];
      hash := Xor(hash, Entry(z, m.ty * w + m.tx, m.d));
      filledCount := filledCount - 1;
      if m.tx != m.sx || m.ty != m.sy {
        if m.symmetricWasEmpty {
          grid := grid[m.sy := grid[m.sy][m.sx := -1]];
          hash := Xor(hash, Entry(z, m.sy * w + m.sx, m.d));
          filledCount := filledCount - 1;
        }
      }
    }

    /** allDotsUsed on the board's grid. */
    method AllDotsUsed() returns (b: bool)
      requires Valid()
      ensures b == AllUsed(grid, |p.dots|)
    {
      b := AllDotsUsedIn(grid, w, h, |p.dots|);
    }
  }

  /** allDotsUsed: mark the owners that are dot indices, then require every dot marked. */
  method AllDotsUsedIn(grid: Grid, w: int, h: int, n: int) returns (b: bool)
    requires Shaped(grid, w, h) && n >= 0
    ensures b == AllUsed(grid, n)
  {
    var used := new bool[n](_ => false);
    var y := 0;
    while y < h
      invariant 0 <= y <= h
      invariant forall v :: 0 <= v < n ==> (used[v] <==> SeenBefore(grid, v, y, 0))
    {
      assert |grid[y]| == w;
      var x := 0;
      while x < w
        invariant 0 <= x <= w
        invariant forall v :: 0 <= v < n ==> (used[v] <==> SeenBefore(grid, v, y, x))
      {
        var v := grid[y][x];
        if v >= 0 && v < n {
          used[v] := true;
        }
        x := x + 1;
      }
      y := y + 1;
    }
    b := true;
    var i := 0;
    while i < n
      invariant 0 <= i <= n
      invariant forall j :: 0 <= j < i ==> used[j]
    {
      if !used[i] {
        b := false;
        break;
      }
      i := i + 1;
    }
    forall v | 0 <= v < n ensures used[v] <==> Used(grid, v) {
    }
  }

  /** The four directions the solvers scan, in their order: right, left, down, up. */
  const Dirs: seq<(int, int)> := [(1, 0), (-1, 0), (0, 1), (0, -1)]

  /** Tile (x, y) is on the w x h board and owned by d. */
  predicate OwnedAt(g: Grid, w: int, h: int, x: int, y: int, d: int)
    requires Shaped(g, w, h)
  {
    InTileBounds(w, h, x, y) && g[y][x] == d
  }

  /** Tile (x, y) has an orthogonal neighbour on the board owned by d. */
  predicate Adjacent(g: Grid, w: int, h: int, x: int, y: int, d: int)
    requires Shaped(g, w, h)
  {
    exists k :: 0 <= k < 4 && OwnedAt(g, w, h, x + Dirs[k].0, y + Dirs[k].1, d)
  }

  /** Some move of ms targets (x, y) for dot d. */
  predicate KeyIn(ms: seq<Move>, x: int, y: int, d: int)
  {
    exists i :: 0 <= i < |ms| && ms[i].tx == x && ms[i].ty == y && ms[i].d == d
  }

  /** No two moves of ms share target and dot. */
  predicate KeysUnique(ms: seq<Move>)
  {
    forall i, j :: 0 <= i < j < |ms| ==> (ms[i].tx, ms[i].ty, ms[i].d) != (ms[j].tx, ms[j].ty, ms[j].d)
  }

  /** The de-duplication scan over the moves generated so far. */
  method AlreadyAdded(moves: seq<Move>, x: int, y: int, d: int) returns (found: bool)
    ensures found <==> KeyIn(moves, x, y, d)
  {
    found := false;
    var i := 0;
    while i < |moves|
      invariant 0 <= i <= |moves|
      invariant !KeyIn(moves[..i], x, y, d)
    {
      var m := moves[i];
      if m.tx == x && m.ty == y && m.d == d {
        found := true;
        return;
      }
      assert moves[..i + 1] == moves[..i] + [m];
      i := i + 1;
    }
    assert moves[..i] == moves;
  }

  /** Owner v occurs in a row above y, or in row y left of x. */
  ghost predicate SeenBefore(g: Grid, v: int, y: int, x: int)
  {
    (exists yy, xx :: 0 <= yy < y && yy < |g| && 0 <= xx < |g[yy]| && g[yy][xx] == v) ||
    (exists xx :: 0 <= y < |g| && 0 <= xx < x && xx < |g[y]| && g[y][xx] == v)
  }

  /**
   * One tryFill of the seeding: if it fills the first tile of ts and yields
   * (ok, s'), seeding ts from s is seeding the rest from s' when ok, and
   * (false, s') otherwise.
   */
  lemma SeedStep(s: State, z: Table, w: int, h: int, d: int, ts: seq<(int, int)>, ok: bool, s': State)
      returns (rest: seq<(int, int)>)
    requires Shaped(s.cells, w, h) && ts != []
    requires (ok, s') == TryFillResult(s, z, w, h, ts[0].0, ts[0].1, d)
    ensures rest == ts[1..]
    ensures SeedTiles(s, z, w, h, d, ts) == if ok then SeedTiles(s', z, w, h, d, rest) else (false, s')
  {
    rest := ts[1..];
  }

  /** Seeding dot k after the dots before it all succeeded. */
  lemma SeedDotsNext(s0: State, p: Puzzle, z: Table, k: nat, s: State)
    requires Shaped(s0.cells, p.w, p.h) && k < |p.dots| && SeedDots(s0, p, z, k) == (true, s)
    ensures SeedDots(s0, p, z, k + 1) == SeedTiles(s, z, p.w, p.h, k, ForcedTiles(p.dots[k].x, p.dots[k].y))
  {
  }

  /** Once seeding has failed at dot k, the later dots change nothing. */
  lemma {:induction false} SeedDotsStopped(s0: State, p: Puzzle, z: Table, k: nat, n: nat)
    requires Shaped(s0.cells, p.w, p.h) && k <= n <= |p.dots| && !SeedDots(s0, p, z, k).0
    ensures SeedDots(s0, p, z, n) == SeedDots(s0, p, z, k)
    decreases n
  {
    if n > k {
      SeedDotsStopped(s0, p, z, k, n - 1);
    }
  }

  lemma KeyInAppend(ms: seq<Move>, m: Move, x: int, y: int, d: int)
    requires KeyIn(ms, x, y, d)
    ensures KeyIn(ms + [m], x, y, d)
  {
    var i :| 0 <= i < |ms| && ms[i].tx == x && ms[i].ty == y && ms[i].d == d;
    assert (ms + [m])[i] == ms[i];
  }

  /** Appending a move with a new key keeps keys unique and every key already present. */
  lemma PushMove(ms: seq<Move>, m: Move, x: int, y: int, d: int)
    requires KeysUnique(ms) && !KeyIn(ms, x, y, d) && m.tx == x && m.ty == y && m.d == d
    ensures KeysUnique(ms + [m]) && KeyIn(ms + [m], x, y, d)
    ensures forall x', y', d' :: KeyIn(ms, x', y', d') ==> KeyIn(ms + [m], x', y', d')
  {
    assert (ms + [m])[|ms|] == m;
    forall x', y', d' | KeyIn(ms, x', y', d') ensures KeyIn(ms + [m], x', y', d') {
      KeyInAppend(ms, m, x', y', d');
    }
  }
}
