/**
 * The sequential depth-first solver (solver/seq_solver_dfs.cpp): seed the
 * forced tiles, then extend regions one legal move at a time on a single
 * board, backtracking with undoMove, and prune with the set of visited
 * Zobrist hashes.
 */
module SeqDfs {

  import opened Words
  import opened Tiles
  import opened Seeding
  import opened Boards

  /**
   * The moves this solver generates: an empty tile next to a tile of dot
   * d whose mirror through d is an empty tile of the board or the tile itself.
   */
  predicate Candidate(p: Puzzle, g: Grid, w: int, h: int, x: int, y: int, d: int)
    requires Shaped(g, w, h)
  {
    InTileBounds(w, h, x, y) && g[y][x] == -1 && 0 <= d < |p.dots| && Adjacent(g, w, h, x, y, d) &&
    var t := SymmetricTile(p.dots[d].x, p.dots[d].y, x, y);
    (InTileBounds(w, h, t.0, t.1) && g[t.1][t.0] == -1) || t == (x, y)
  }

  /** Move m is the move generated for its candidate: mirror filled in, flag set. */
  predicate Generated(p: Puzzle, g: Grid, w: int, h: int, m: Move)
    requires Shaped(g, w, h)
  {
    Candidate(p, g, w, h, m.tx, m.ty, m.d) &&
    (m.sx, m.sy) == SymmetricTile(p.dots[m.d].x, p.dots[m.d].y, m.tx, m.ty) &&
    m.symmetricWasEmpty
  }

  /** A generated move is legal, and its mirror is always empty (so the skip never fires). */
  lemma GeneratedLegal(p: Puzzle, g: Grid, w: int, h: int, m: Move)
    requires Shaped(g, w, h) && Generated(p, g, w, h, m)
    ensures Legal(p, g, m) && g[m.sy][m.sx] == -1
  {
  }

  /** The four directions scanned from empty tile (x, y), appending its new candidates. */
  method MovesAt(p: Puzzle, g: Grid, w: int, h: int, moves0: seq<Move>, x: int, y: int) returns (moves: seq<Move>)
    requires Shaped(g, w, h) && Owners(g, |p.dots|) && InTileBounds(w, h, x, y) && g[y][x] == -1
    requires forall i :: 0 <= i < |moves0| ==> Generated(p, g, w, h, moves0[i])
    requires KeysUnique(moves0)
    ensures forall i :: 0 <= i < |moves| ==> Generated(p, g, w, h, moves[i])
    ensures KeysUnique(moves)
    ensures forall x', y', d :: KeyIn(moves0, x', y', d) ==> KeyIn(moves, x', y', d)
    ensures forall d :: Candidate(p, g, w, h, x, y, d) ==> KeyIn(moves, x, y, d)
  {
    moves := moves0;
    var k := 0;
    while k < 4
      invariant 0 <= k <= 4
      invariant forall i :: 0 <= i < |moves| ==> Generated(p, g, w, h, moves[i])
      invariant KeysUnique(moves)
      invariant forall x', y', d :: KeyIn(moves0, x', y', d) ==> KeyIn(moves, x', y', d)
      invariant forall k', d ::
                  (0 <= k' < k && OwnedAt(g, w, h, x + Dirs[k'].0, y + Dirs[k'].1, d) && Candidate(p, g, w, h, x, y, d)) ==>
                  KeyIn(moves, x, y, d)
    {
      moves := MoveFrom(p, g, w, h, moves, x, y, k);
      k := k + 1;
    }
  }

  /** The scan of direction k from empty tile (x, y): the candidate for the neighbour's owner, if new. */
  method MoveFrom(p: Puzzle, g: Grid, w: int, h: int, moves0: seq<Move>, x: int, y: int, k: int) returns (moves: seq<Move>)
    requires Shaped(g, w, h) && Owners(g, |p.dots|) && InTileBounds(w, h, x, y) && g[y][x] == -1 && 0 <= k < 4
    requires forall i :: 0 <= i < |moves0| ==> Generated(p, g, w, h, moves0[i])
    requires KeysUnique(moves0)
    ensures forall i :: 0 <= i < |moves| ==> Generated(p, g, w, h, moves[i])
    ensures KeysUnique(moves)
    ensures forall x', y', d :: KeyIn(moves0, x', y', d) ==> KeyIn(moves, x', y', d)
    ensures forall d :: OwnedAt(g, w, h, x + Dirs[k].0, y + Dirs[k].1, d) && Candidate(p, g, w, h, x, y, d) ==>
              KeyIn(moves, x, y, d)
  {
    moves := moves0;
    var nx := x + Dirs[k].0;
    var ny := y + Dirs[k].1;
    if 0 <= nx < w && 0 <= ny < h && g[ny][nx] != -1 {
      var d := g[ny][nx];
      var alreadyAdded := AlreadyAdded(moves, x, y, d);
      if !alreadyAdded {
        var sx, sy := GetSymmetricTile(p.dots[d].x, p.dots[d].y, x, y);
        if (0 <= sx < w && 0 <= sy < h && g[sy][sx] == -1) || (sx == x && sy == y) {
          var symEmpty := g[sy][sx] == -1;
          // The guard above leaves the mirror empty, so the source's
          // `if (!sym_empty && grid_[sy][sx] != d) continue;` never fires.
          assert symEmpty;
          var m := Move(x, y, d, sx, sy, symEmpty);
          assert Generated(p, g, w, h, m);
          PushMove(moves, m, x, y, d);
          moves := moves + [m];
        }
      }
    }
  }

  class Solver {
    const board: Board
    var visited: set<Word>

    constructor(p: Puzzle, z: Table)
      requires p.w >= 0 && p.h >= 0
      ensures fresh(board) && board.Valid() && board.p == p && board.z == z
      ensures board.Snapshot() == EmptyState(p.w, p.h) && visited == {}
    {
      board := new Board(p, z);
      visited := {};
    }

    /**
     * The move generation inside dfs: every generated move is a candidate,
     * no two share (tx, ty, d), and every candidate is generated.
     */
    method GenerateMoves() returns (moves: seq<Move>)
      requires board.Valid()
      ensures forall i :: 0 <= i < |moves| ==> Generated(board.p, board.grid, board.w, board.h, moves[i])
      ensures KeysUnique(moves)
      ensures forall x, y, d :: Candidate(board.p, board.grid, board.w, board.h, x, y, d) ==> KeyIn(moves, x, y, d)
    {
      var p, g, w, h := board.p, board.grid, board.w, board.h;
      moves := [];
      var y := 0;
      while y < h
        invariant 0 <= y <= h
        invariant forall i :: 0 <= i < |moves| ==> Generated(p, g, w, h, moves[i])
        invariant KeysUnique(moves)
        invariant forall x', y', d :: 0 <= y' < y && Candidate(p, g, w, h, x', y', d) ==> KeyIn(moves, x', y', d)
      {
        var x := 0;
        while x < w
          invariant 0 <= x <= w
          invariant forall i :: 0 <= i < |moves| ==> Generated(p, g, w, h, moves[i])
          invariant KeysUnique(moves)
          invariant forall x', y', d :: (0 <= y' < y || (y' == y && x' < x)) && Candidate(p, g, w, h, x', y', d) ==>
                      KeyIn(moves, x', y', d)
        {
          if g[y][x] == -1 {
            moves := MovesAt(p, g, w, h, moves, x, y);
          }
          x := x + 1;
        }
        y := y + 1;
      }
    }

    /**
     * dfs: on true the board is full, every dot is used, and it is left in
     * place; on false the board is exactly as on entry.  The visited set
     * only grows, and regions symmetric on entry stay symmetric.
     */
    method Dfs() returns (r: bool)
      requires board.Valid()
      modifies board, this
      ensures board.Valid() && old(visited) <= visited
      ensures r ==> board.filledCount == board.w * board.h && AllUsed(board.grid, |board.p.dots|)
      ensures !r ==> board.Snapshot() == old(board.Snapshot())
      ensures Symmetric(board.p, old(board.grid)) ==> Symmetric(board.p, board.grid)
      decreases board.w * board.h - board.filledCount
    {
      FullGrid(board.grid, board.w, board.h);
      if board.filledCount == board.w * board.h {
        r := board.AllDotsUsed();
        return;
      }
      var moves := GenerateMoves();
      if |moves| == 0 {
        return false;
      }
      ghost var s0 := board.Snapshot();
      var i := 0;
      while i < |moves|
        invariant 0 <= i <= |moves|
        invariant board.Valid() && board.Snapshot() == s0 && old(visited) <= visited
      {
        var m := moves[i];
        GeneratedLegal(board.p, s0.cells, board.w, board.h, m);
        LegalApplied(board.p, s0, m, board.z, board.w, board.h);
        UndoneApplied(s0, m, board.z, board.w);
        if Symmetric(board.p, s0.cells) {
          AppliedKeepsSymmetric(board.p, s0, m, board.z, board.w);
        }
        board.ApplyMove(m);
        if board.hash !in visited {
          visited := visited + {board.hash};
          FullGrid(board.grid, board.w, board.h);
          r := Dfs();
          if r {
            return true;
          }
        }
        board.UndoMove(m);
        i := i + 1;
      }
      return false;
    }

    /**
     * solve: seed the forced tiles, mark the seeded hash visited and search.
     * A seeding conflict (two dots forcing one tile) gives false; true means
     * the board is a full grid using every dot.
     */
    method Solve() returns (r: bool)
      requires board.Valid() && board.Snapshot() == EmptyState(board.w, board.h)
      modifies board, this
      ensures board.Valid()
      ensures !NoClash(board.p, |board.p.dots|) ==> !r
      ensures r ==> board.filledCount == board.w * board.h && AllUsed(board.grid, |board.p.dots|)
      ensures r && Symmetric(board.p, SeedDots(EmptyState(board.w, board.h), board.p, board.z, |board.p.dots|).1.cells) ==>
                Symmetric(board.p, board.grid)
    {
      var ok := board.SeedForcedTiles();
      SeedDotsOutcome(board.p, board.z, |board.p.dots|);
      if !ok {
        return false;
      }
      visited := visited + {board.hash};
      r := Dfs();
    }
  }
}
