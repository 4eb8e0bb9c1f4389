/**
 * The OpenMP depth-first solver (solver/openmp_solver_dfs.cpp), run as a
 * single worker: a shared visited set behind insertIfNew, a worker-local
 * cache of seen hashes, a found flag and a solution grid written once.
 */
module OmpDfs {

  import opened Words
  import opened Tiles
  import opened Seeding
  import opened Boards

  /**
   * The moves generateMoves produces: an empty tile next to a tile of dot d
   * whose mirror through d is on the board and is empty or already d's.
   */
  predicate Candidate(p: Puzzle, g: Grid, w: int, h: int, x: int, y: int, d: int)
    requires Shaped(g, w, h)
  {
    InTileBounds(w, h, x, y) && g[y][x] == -1 && 0 <= d < |p.dots| && Adjacent(g, w, h, x, y, d) &&
    var t := SymmetricTile(p.dots[d].x, p.dots[d].y, x, y);
    InTileBounds(w, h, t.0, t.1) && (g[t.1][t.0] == -1 || g[t.1][t.0] == d)
  }

  /** Move m is the move generated for its candidate, its flag telling whether the mirror was empty. */
  predicate Generated(p: Puzzle, g: Grid, w: int, h: int, m: Move)
    requires Shaped(g, w, h)
  {
    Candidate(p, g, w, h, m.tx, m.ty, m.d) &&
    var t := SymmetricTile(p.dots[m.d].x, p.dots[m.d].y, m.tx, m.ty);
    (m.sx, m.sy) == t && m.symmetricWasEmpty == (g[t.1][t.0] == -1)
  }

  lemma GeneratedLegal(p: Puzzle, g: Grid, w: int, h: int, m: Move)
    requires Shaped(g, w, h) && Generated(p, g, w, h, m)
    ensures Legal(p, g, m)
  {
  }

  /** A full grid: every tile of the board has an owner. */
  predicate Complete(g: Grid, w: int, h: int)
    requires Shaped(g, w, h)
  {
    forall y, x :: 0 <= y < h && 0 <= x < w ==> g[y][x] != -1
  }

  /** What a written solution holds: a full grid using every dot, symmetric when the start was. */
  predicate Solution(p: Puzzle, sol: Grid, w: int, h: int, start: Grid)
  {
    Shaped(sol, w, h) && Complete(sol, w, h) && AllUsed(sol, |p.dots|) &&
    (Symmetric(p, start) ==> Symmetric(p, sol))
  }

  /** The shared visited set; insertIfNew inserts h and says whether it was new. */
  class Shared {
    var visited: set<Word>

    constructor()
      ensures visited == {}
    {
      visited := {};
    }

    method InsertIfNew(h: Word) returns (inserted: bool)
      modifies this
      ensures inserted <==> h !in old(visited)
      ensures visited == old(visited) + {h}
    {
      inserted := h !in visited;
      visited := visited + {h};
    }
  }

  /** The four directions scanned from empty tile (x, y), appending its new candidates. */
  method MovesAt(p: Puzzle, g: Grid, w: int, h: int, moves0: seq<Move>, x: int, y: int) returns (moves: seq<Move>)
    requires Shaped(g, w, h) && Owners(g, |p.dots|) && InTileBounds(w, h, x, y) && g[y][x] == -1
    requires forall i :: 0 <= i < |moves0| ==> Generated(p, g, w, h, moves0[i])
    requires KeysUnique(moves0)
    ensures forall i :: 0 <= i < |moves| ==> Generated(p, g, w, h, moves[i])
    ensures KeysUnique(moves)
    ensures forall x', y', d :: KeyIn(moves0, x', y', d) ==> KeyIn(moves, x', y', d)
    ensures forall d :: Candidate(p, g, w, h, x, y, d) ==> KeyIn(moves, x, y, d)
  {
    moves := moves0;
    var k := 0;
    while k < 4
      invariant 0 <= k <= 4
      invariant forall i :: 0 <= i < |moves| ==> Generated(p, g, w, h, moves[i])
      invariant KeysUnique(moves)
      invariant forall x', y', d :: KeyIn(moves0, x', y', d) ==> KeyIn(moves, x', y', d)
      invariant forall k', d ::
                  (0 <= k' < k && OwnedAt(g, w, h, x + Dirs[k'].0, y + Dirs[k'].1, d) && Candidate(p, g, w, h, x, y, d)) ==>
                  KeyIn(moves, x, y, d)
    {
      moves := MoveFrom(p, g, w, h, moves, x, y, k);
      k := k + 1;
    }
  }

  /** The scan of direction k from empty tile (x, y): the candidate for the neighbour's owner, if new. */
  method MoveFrom(p: Puzzle, g: Grid, w: int, h: int, moves0: seq<Move>, x: int, y: int, k: int) returns (moves: seq<Move>)
    requires Shaped(g, w, h) && Owners(g, |p.dots|) && InTileBounds(w, h, x, y) && g[y][x] == -1 && 0 <= k < 4
    requires forall i :: 0 <= i < |moves0| ==> Generated(p, g, w, h, moves0[i])
    requires KeysUnique(moves0)
    ensures forall i :: 0 <= i < |moves| ==> Generated(p, g, w, h, moves[i])
    ensures KeysUnique(moves)
    ensures forall x', y', d :: KeyIn(moves0, x', y', d) ==> KeyIn(moves, x', y', d)
    ensures forall d :: OwnedAt(g, w, h, x + Dirs[k].0, y + Dirs[k].1, d) && Candidate(p, g, w, h, x, y, d) ==>
              KeyIn(moves, x, y, d)
  {
    moves := moves0;
    var nx := x + Dirs[k].0;
    var ny := y + Dirs[k].1;
    if 0 <= nx < w && 0 <= ny < h {
      var d := g[ny][nx];
      if d != -1 {
        var alreadyAdded := AlreadyAdded(moves, x, y, d);
        if !alreadyAdded {
          var sx, sy := GetSymmetricTile(p.dots[d].x, p.dots[d].y, x, y);
          if 0 <= sx < w && 0 <= sy < h {
            var symEmpty := g[sy][sx] == -1;
            if symEmpty || g[sy][sx] == d {
              var m := Move(x, y, d, sx, sy, symEmpty);
              assert Generated(p, g, w, h, m);
              PushMove(moves, m, x, y, d);
              moves := moves + [m];
            }
          }
        }
      }
    }
  }

  class Solver {
    const board: Board
    const shared: Shared

    constructor(p: Puzzle, z: Table)
      requires p.w >= 0 && p.h >= 0
      ensures fresh(board) && fresh(shared) && board.Valid() && board.p == p && board.z == z
      ensures board.Snapshot() == EmptyState(p.w, p.h) && shared.visited == {}
    {
      board := new Board(p, z);
      shared := new Shared();
    }

    /** generateMoves: every move is a candidate, keys are unique, and every candidate is generated. */
    method GenerateMoves() returns (moves: seq<Move>)
      requires board.Valid()
      ensures forall i :: 0 <= i < |moves| ==> Generated(board.p, board.grid, board.w, board.h, moves[i])
      ensures KeysUnique(moves)
      ensures forall x, y, d :: Candidate(board.p, board.grid, board.w, board.h, x, y, d) ==> KeyIn(moves, x, y, d)
    {
      var p, g, w, h := board.p, board.grid, board.w, board.h;
      moves := [];
      var y := 0;
      while y < h
        invariant 0 <= y <= h
        invariant forall i :: 0 <= i < |moves| ==> Generated(p, g, w, h, moves[i])
        invariant KeysUnique(moves)
        invariant forall x', y', d :: 0 <= y' < y && Candidate(p, g, w, h, x', y', d) ==> KeyIn(moves, x', y', d)
      {
        var x := 0;
        while x < w
          invariant 0 <= x <= w
          invariant forall i :: 0 <= i < |moves| ==> Generated(p, g, w, h, moves[i])
          invariant KeysUnique(moves)
          invariant forall x', y', d :: (0 <= y' < y || (y' == y && x' < x)) && Candidate(p, g, w, h, x', y', d) ==>
                      KeyIn(moves, x', y', d)
        {
          if g[y][x] == -1 {
            moves := MovesAt(p, g, w, h, moves, x, y);
          }
          x := x + 1;
        }
        y := y + 1;
      }
    }

    method TryMarkVisited(h: Word) returns (inserted: bool)
      modifies shared
      ensures inserted <==> h !in old(shared.visited)
      ensures shared.visited == old(shared.visited) + {h}
    {
      inserted := shared.InsertIfNew(h);
    }

    /**
     * tryMarkVisitedWithLocal: true iff h is new both to the local cache and
     * to the shared set, and then h is in both; on false the cache is
     * unchanged.  A cache inside the shared set stays inside it.
     */
    method TryMarkVisitedWithLocal(h: Word, localSeen: set<Word>) returns (ok: bool, localSeen': set<Word>)
      modifies shared
      ensures ok <==> h !in localSeen && h !in old(shared.visited)
      ensures ok ==> localSeen' == localSeen + {h}
      ensures !ok ==> localSeen' == localSeen
      ensures shared.visited == old(shared.visited) + (if h in localSeen then {} else {h})
      ensures localSeen <= old(shared.visited) ==> localSeen' <= shared.visited
    {
      localSeen' := localSeen;
      if h in localSeen {
        return false, localSeen';
      }
      var inserted := TryMarkVisited(h);
      if !inserted {
        return false, localSeen';
      }
      localSeen' := localSeen + {h};
      ok := true;
    }

    /**
     * dfs with the found flag, the solution buffer and the local cache passed
     * by reference (here: in and out).  Every return leaves the board as on
     * entry, the success path included, since it undoes after copying the
     * grid.  The solution is written only by the call that raises found, and
     * then holds a full grid using every dot.
     */
    method Dfs(found: bool, solution: Grid, localSeen: set<Word>)
        returns (r: bool, found': bool, solution': Grid, localSeen': set<Word>)
      requires board.Valid() && localSeen <= shared.visited
      modifies board, shared
      ensures board.Valid() && board.Snapshot() == old(board.Snapshot())
      ensures old(shared.visited) <= shared.visited && localSeen <= localSeen' <= shared.visited
      ensures found ==> !r && found' && solution' == solution
      ensures r ==> found'
      ensures !found' ==> solution' == solution
      ensures !found && found' ==> Solution(board.p, solution', board.w, board.h, old(board.grid))
      decreases board.w * board.h - board.filledCount, 1
    {
      found', solution', localSeen' := found, solution, localSeen;
      if found' {
        return false, found', solution', localSeen';
      }
      FullGrid(board.grid, board.w, board.h);
      if board.filledCount == board.w * board.h {
        var used := board.AllDotsUsed();
        if !used {
          return false, found', solution', localSeen';
        }
        // compare_exchange(false, true) succeeds: found was false.
        found' := true;
        solution' := board.grid;
        return true, found', solution', localSeen';
      }
      var moves := GenerateMoves();
      if |moves| == 0 {
        return false, found', solution', localSeen';
      }
      ghost var s0 := board.Snapshot();
      var i := 0;
      while i < |moves|
        invariant 0 <= i <= |moves|
        invariant board.Valid() && board.Snapshot() == s0
        invariant old(shared.visited) <= shared.visited && localSeen <= localSeen' <= shared.visited
        invariant !found' ==> solution' == solution
        invariant found' ==> Solution(board.p, solution', board.w, board.h, s0.cells)
      {
        if found' {
          return false, found', solution', localSeen';
        }
        GeneratedLegal(board.p, s0.cells, board.w, board.h, moves[i]);
        var sub: bool;
        sub, found', solution', localSeen' := TryMove(moves[i], solution', localSeen');
        if sub {
          return true, found', solution', localSeen';
        }
        i := i + 1;
      }
      return false, found', solution', localSeen';
    }

    /**
     * One iteration of the move loop of dfs, entered with found still false:
     * apply m, recurse when the new hash is new to both caches, undo m.
     */
    method TryMove(m: Move, solution: Grid, localSeen: set<Word>)
        returns (sub: bool, found': bool, solution': Grid, localSeen': set<Word>)
      requires board.Valid() && Legal(board.p, board.grid, m) && localSeen <= shared.visited
      modifies board, shared
      ensures board.Valid() && board.Snapshot() == old(board.Snapshot())
      ensures old(shared.visited) <= shared.visited && localSeen <= localSeen' <= shared.visited
      ensures sub ==> found'
      ensures !found' ==> solution' == solution
      ensures found' ==> Solution(board.p, solution', board.w, board.h, old(board.grid))
      decreases board.w * board.h - board.filledCount, 0
    {
      FullGrid(board.grid, board.w, board.h);
      ghost var s0 := board.Snapshot();
      LegalApplied(board.p, s0, m, board.z, board.w, board.h);
      UndoneApplied(s0, m, board.z, board.w);
      if Symmetric(board.p, s0.cells) {
        AppliedKeepsSymmetric(board.p, s0, m, board.z, board.w);
      }
      board.ApplyMove(m);
      found', solution', sub := false, solution, false;
      var isNew: bool;
      isNew, localSeen' := TryMarkVisitedWithLocal(board.hash, localSeen);
      if isNew {
        sub, found', solution', localSeen' := Dfs(false, solution, localSeen');
      }
      board.UndoMove(m);
    }

    /**
     * The sequential path of solve: seed, mark the seeded hash, search, and
     * on success install the solution with filled_count = w*h.  The hash is
     * not recomputed and keeps its seeded value.
     */
    method Solve() returns (ok: bool)
      requires board.Valid() && board.Snapshot() == EmptyState(board.w, board.h)
      modifies board, shared
      ensures !NoClash(board.p, |board.p.dots|) ==> !ok
      ensures ok ==> Shaped(board.grid, board.w, board.h) && Complete(board.grid, board.w, board.h) &&
                     AllUsed(board.grid, |board.p.dots|) && board.filledCount == board.w * board.h &&
                     board.filledCount == CountFilled(board.grid)
      ensures ok ==> board.hash == SeedDots(EmptyState(board.w, board.h), board.p, board.z, |board.p.dots|).1.hash
      ensures ok && Symmetric(board.p, SeedDots(EmptyState(board.w, board.h), board.p, board.z, |board.p.dots|).1.cells) ==>
                Symmetric(board.p, board.grid)
    {
      var seeded := board.SeedForcedTiles();
      SeedDotsOutcome(board.p, board.z, |board.p.dots|);
      if !seeded {
        return false;
      }
      var _ := TryMarkVisited(board.hash);
      var found := false;
      var solution: Grid := [];
      var localSeen: set<Word> := {};
      ok, found, solution, localSeen := Dfs(found, solution, localSeen);
      if ok {
        FullGrid(solution, board.w, board.h);
        board.grid := solution;
        board.filledCount := board.w * board.h;
      }
    }

    /**
     * The root-split path of solve with every iteration of the worksharing
     * loop run by one worker in order, one local cache for all of them.
     * Each iteration works on a copy of the seeded board; here the board is
     * restored by undo instead, which leaves the same state behind.
     */
    method SolveRootSplit() returns (ok: bool)
      requires board.Valid() && board.Snapshot() == EmptyState(board.w, board.h)
      modifies board, shared
      ensures !NoClash(board.p, |board.p.dots|) ==> !ok
      ensures ok ==> Shaped(board.grid, board.w, board.h) && Complete(board.grid, board.w, board.h) &&
                     AllUsed(board.grid, |board.p.dots|) && board.filledCount == board.w * board.h &&
                     board.filledCount == CountFilled(board.grid)
      ensures ok ==> board.hash == SeedDots(EmptyState(board.w, board.h), board.p, board.z, |board.p.dots|).1.hash
      ensures ok && Symmetric(board.p, SeedDots(EmptyState(board.w, board.h), board.p, board.z, |board.p.dots|).1.cells) ==>
                Symmetric(board.p, board.grid)
    {
      var seeded := board.SeedForcedTiles();
      SeedDotsOutcome(board.p, board.z, |board.p.dots|);
      if !seeded {
        return false;
      }
      var _ := TryMarkVisited(board.hash);
      var found := false;
      var solution: Grid := [];
      var rootMoves := GenerateMoves();
      if |rootMoves| == 0 {
        return false;
      }
      var localSeen: set<Word> := {};
      ghost var s0 := board.Snapshot();
      var i := 0;
      while i < |rootMoves|
        invariant 0 <= i <= |rootMoves|
        invariant board.Valid() && board.Snapshot() == s0 && localSeen <= shared.visited
        invariant found ==> Solution(board.p, solution, board.w, board.h, s0.cells)
      {
        if !found {
          GeneratedLegal(board.p, s0.cells, board.w, board.h, rootMoves[i]);
          var sub: bool;
          sub, found, solution, localSeen := TryMove(rootMoves[i], solution, localSeen);
        }
        i := i + 1;
      }
      if found {
        FullGrid(solution, board.w, board.h);
        board.grid := solution;
        board.filledCount := board.w * board.h;
        return true;
      }
      return false;
    }
  }
}
