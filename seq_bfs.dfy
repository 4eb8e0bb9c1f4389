/**
 * The breadth-first solver of solver/seq_solver.cpp: states are values,
 * seeded like the other C++ solvers, then expanded level by level from a
 * FIFO queue, every state whose hash was seen before being dropped.
 */
module SeqBfs {

  import opened Words
  import opened Tiles
  import opened Seeding
  import opened Boards

  /**
   * The expansion step from owned tile (x, y) in direction k: the neighbour
   * n is an empty board tile, and the mirror of n through the owner's dot is
   * an empty board tile or n itself.
   */
  predicate Expandable(p: Puzzle, g: Grid, x: int, y: int, k: int)
    requires Shaped(g, p.w, p.h) && Owners(g, |p.dots|) && 0 <= k < 4
  {
    InTileBounds(p.w, p.h, x, y) && g[y][x] != -1 &&
    var nx, ny := x + Dirs[k].0, y + Dirs[k].1;
    InTileBounds(p.w, p.h, nx, ny) && g[ny][nx] == -1 &&
    var t := SymmetricTile(p.dots[g[y][x]].x, p.dots[g[y][x]].y, nx, ny);
    (InTileBounds(p.w, p.h, t.0, t.1) && g[t.1][t.0] == -1) || t == (nx, ny)
  }

  /** The move the expansion step makes: n, and its mirror, to the owner of (x, y). */
  function ChildMove(p: Puzzle, g: Grid, x: int, y: int, k: int): (m: Move)
    requires Shaped(g, p.w, p.h) && Owners(g, |p.dots|) && 0 <= k < 4 && Expandable(p, g, x, y, k)
    ensures Legal(p, g, m) && m.symmetricWasEmpty
    ensures (m.tx, m.ty) == (x + Dirs[k].0, y + Dirs[k].1) && m.d == g[y][x]
  {
    var d := g[y][x];
    var nx, ny := x + Dirs[k].0, y + Dirs[k].1;
    var t := SymmetricTile(p.dots[d].x, p.dots[d].y, nx, ny);
    Move(nx, ny, d, t.0, t.1, true)
  }

  /**
   * What every queued state satisfies: a consistent owner grid that extends
   * the seeded grid, and is symmetric when the seeded grid is.
   */
  predicate Reached(p: Puzzle, z: Table, seed: Grid, s: State)
  {
    Shaped(s.cells, p.w, p.h) && Owners(s.cells, |p.dots|) && Consistent(s, z, p.w) &&
    Extends(seed, s.cells) && (Symmetric(p, seed) ==> Symmetric(p, s.cells))
  }

  /** The child of a reached state by a legal move is reached. */
  lemma ChildReached(p: Puzzle, z: Table, seed: Grid, s: State, m: Move)
    requires Reached(p, z, seed, s) && Legal(p, s.cells, m)
    ensures Reached(p, z, seed, Applied(s, m, z, p.w))
  {
    LegalApplied(p, s, m, z, p.w, p.h);
    AppliedExtends(p, s, m, z, p.w);
    ExtendsTrans(seed, s.cells, Applied(s, m, z, p.w).cells);
    if Symmetric(p, seed) {
      AppliedKeepsSymmetric(p, s, m, z, p.w);
    }
  }

  /** A goal state: every tile filled and every dot owning a tile. */
  predicate Goal(p: Puzzle, s: State)
    requires Shaped(s.cells, p.w, p.h)
  {
    (forall y, x :: 0 <= y < p.h && 0 <= x < p.w ==> s.cells[y][x] != -1) && AllUsed(s.cells, |p.dots|)
  }

  /** Every queued state is reached and its hash is in the seen set. */
  predicate Queued(p: Puzzle, z: Table, seed: Grid, q: seq<State>, seen: set<Word>)
  {
    forall i :: 0 <= i < |q| ==> Reached(p, z, seed, q[i]) && q[i].hash in seen
  }

  lemma QueuedPush(p: Puzzle, z: Table, seed: Grid, q: seq<State>, seen: set<Word>, next: State)
    requires Queued(p, z, seed, q, seen) && Reached(p, z, seed, next) && next.hash in seen
    ensures Queued(p, z, seed, q + [next], seen)
  {
    assert forall i :: 0 <= i < |q| ==> (q + [next])[i] == q[i];
    assert (q + [next])[|q|] == next;
  }

  lemma QueuedAppend(p: Puzzle, z: Table, seed: Grid, q: seq<State>, q': seq<State>, seen: set<Word>)
    requires Queued(p, z, seed, q, seen) && Queued(p, z, seed, q', seen)
    ensures Queued(p, z, seed, q + q', seen)
  {
  }

  lemma QueuedTail(p: Puzzle, z: Table, seed: Grid, q: seq<State>, seen: set<Word>)
    requires Queued(p, z, seed, q, seen) && |q| > 0
    ensures Queued(p, z, seed, q[1..], seen)
  {
    assert forall i :: 0 <= i < |q| - 1 ==> q[1..][i] == q[i + 1];
  }

  lemma QueuedGrow(p: Puzzle, z: Table, seed: Grid, q: seq<State>, seen: set<Word>, seen': set<Word>)
    requires Queued(p, z, seed, q, seen) && seen <= seen'
    ensures Queued(p, z, seed, q, seen')
  {
  }

  /** The move of step k from tile (x, y) of g: one move when the step applies, none otherwise. */
  function StepMoves(p: Puzzle, g: Grid, x: int, y: int, k: int): seq<Move>
    requires Shaped(g, p.w, p.h) && Owners(g, |p.dots|) && 0 <= k < 4
  {
    if Expandable(p, g, x, y, k) then [ChildMove(p, g, x, y, k)] else []
  }

  /** The moves of steps 0 .. k-1 from tile (x, y), in the order of dirs. */
  function TileMoves(p: Puzzle, g: Grid, x: int, y: int, k: int): seq<Move>
    requires Shaped(g, p.w, p.h) && Owners(g, |p.dots|) && k <= 4
    decreases k
  {
    if k <= 0 then [] else TileMoves(p, g, x, y, k - 1) + StepMoves(p, g, x, y, k - 1)
  }

  /** The moves from tile (x, y) when it has an owner, none otherwise. */
  function OwnedMoves(p: Puzzle, g: Grid, x: int, y: int): seq<Move>
  {
    if Shaped(g, p.w, p.h) && Owners(g, |p.dots|) && InTileBounds(p.w, p.h, x, y) && g[y][x] != -1
    then TileMoves(p, g, x, y, 4) else []
  }

  /** OwnedMoves as a function of the tile. */
  function TileScan(p: Puzzle, g: Grid): (int, int) -> seq<Move>
  {
    (x, y) => OwnedMoves(p, g, x, y)
  }

  /**
   * The lists f gives the cells before (x, y) in row order, rows w cells
   * wide: rows 0 .. y-1, then cells 0 .. x-1 of row y.
   */
  function Before<T>(f: (int, int) -> seq<T>, w: int, y: int, x: int): seq<T>
    decreases y, x
  {
    if x > 0 then Before(f, w, y, x - 1) + f(x - 1, y)
    else if y > 0 then Before(f, w, y - 1, w)
    else []
  }

  /** What comes before a cursor is a prefix of what comes before every later cursor. */
  lemma {:induction false} BeforePrefix<T>(f: (int, int) -> seq<T>, w: int, y: int, x: int, y': int, x': int)
      returns (rest: seq<T>)
    requires 0 <= y && 0 <= x <= w && 0 <= x'
    requires y < y' || (y == y' && x <= x')
    ensures Before(f, w, y', x') == Before(f, w, y, x) + rest
    decreases y', x'
  {
    if y == y' && x == x' {
      rest := [];
      assert Before(f, w, y, x) + rest == Before(f, w, y, x);
    } else if x' > 0 {
      var rest0 := BeforePrefix(f, w, y, x, y', x' - 1);
      rest := rest0 + f(x' - 1, y');
      ConcatAssoc(Before(f, w, y, x), rest0, f(x' - 1, y'));
    } else {
      rest := BeforePrefix(f, w, y, x, y' - 1, w);
    }
  }

  /** The end of row y is the start of row y + 1. */
  lemma BeforeRowEnd<T>(f: (int, int) -> seq<T>, w: int, y: int)
    requires 0 <= y
    ensures Before(f, w, y + 1, 0) == Before(f, w, y, w)
  {
  }

  /** Everything before a cursor comes from a cell before it. */
  lemma {:induction false} BeforeHas<T>(f: (int, int) -> seq<T>, w: int, y: int, x: int, e: T) returns (i: int, r: int)
    requires e in Before(f, w, y, x)
    ensures (0 <= r < y && 0 <= i < w) || (r == y && 0 <= i < x)
    ensures e in f(i, r)
    decreases y, x
  {
    if x > 0 {
      if e in f(x - 1, y) {
        i, r := x - 1, y;
      } else {
        i, r := BeforeHas(f, w, y, x - 1, e);
      }
    } else {
      i, r := BeforeHas(f, w, y - 1, w, e);
    }
  }

  /**
   * Every move the expansion of a state with grid g makes, in the order the
   * source makes them: owned tiles in row order, and from each tile the
   * steps right, left, down, up.
   */
  function Moves(p: Puzzle, g: Grid): seq<Move>
  {
    Before(TileScan(p, g), p.w, p.h, 0)
  }

  /** The state move m builds from s; a move off the board leaves s as it is. */
  function Built(p: Puzzle, z: Table, s: State, m: Move): State
  {
    if Fits(s.cells, m.tx, m.ty) && Fits(s.cells, m.sx, m.sy) then Applied(s, m, z, p.w) else s
  }

  /** The states the moves ms build from s, one per move, in order. */
  function States(p: Puzzle, z: Table, s: State, ms: seq<Move>): (cs: seq<State>)
    ensures |cs| == |ms|
    decreases |ms|
  {
    if |ms| == 0 then [] else States(p, z, s, ms[..|ms| - 1]) + [Built(p, z, s, ms[|ms| - 1])]
  }

  /** Every child the expansion of s builds, in order. */
  function Children(p: Puzzle, z: Table, s: State): seq<State>
    requires Shaped(s.cells, p.w, p.h) && Owners(s.cells, |p.dots|)
  {
    States(p, z, s, Moves(p, s.cells))
  }

  /** The i-th state is built by the i-th move. */
  lemma {:induction false} StatesAt(p: Puzzle, z: Table, s: State, ms: seq<Move>)
    ensures forall i :: 0 <= i < |ms| ==> States(p, z, s, ms)[i] == Built(p, z, s, ms[i])
    decreases |ms|
  {
    if |ms| > 0 {
      var init := ms[..|ms| - 1];
      StatesAt(p, z, s, init);
      forall i | 0 <= i < |ms| ensures States(p, z, s, ms)[i] == Built(p, z, s, ms[i]) {
        if i < |init| {
          assert States(p, z, s, ms)[i] == States(p, z, s, init)[i];
          assert ms[i] == init[i];
        }
      }
    }
  }

  lemma {:induction false} StatesAppend(p: Puzzle, z: Table, s: State, a: seq<Move>, b: seq<Move>)
    ensures States(p, z, s, a + b) == States(p, z, s, a) + States(p, z, s, b)
    decreases |b|
  {
    if |b| == 0 {
      assert a + b == a;
    } else {
      var b' := b[..|b| - 1];
      assert (a + b)[..|a + b| - 1] == a + b';
      assert (a + b)[|a + b| - 1] == b[|b| - 1];
      StatesAppend(p, z, s, a, b');
    }
  }

  /**
   * A loop that has queued the new states of moves a, then queues those of
   * moves t against the grown seen set, has queued the new states of a + t.
   */
  lemma MovesChain(p: Puzzle, z: Table, s: State, a: seq<Move>, t: seq<Move>, at: seq<Move>, seen: set<Word>,
                   q0: seq<State>, q: seq<State>, v: set<Word>, q': seq<State>, v': set<Word>)
    requires at == a + t
    requires q == q0 + Unseen(States(p, z, s, a), seen) && v == seen + Hashes(States(p, z, s, a))
    requires q' == q + Unseen(States(p, z, s, t), v) && v' == v + Hashes(States(p, z, s, t))
    ensures q' == q0 + Unseen(States(p, z, s, at), seen) && v' == seen + Hashes(States(p, z, s, at))
  {
    StatesAppend(p, z, s, a, t);
    UnseenChain(States(p, z, s, a), States(p, z, s, t), States(p, z, s, at), seen, q0, q, v, q', v');
  }

  /** One more tile: an unowned tile adds nothing, an owned one its four steps. */
  lemma TileAdvance(p: Puzzle, z: Table, s: State, y: int, x: int, v0: set<Word>, q0: seq<State>,
                    qb: seq<State>, vb: set<Word>, q: seq<State>, v: set<Word>)
    requires Shaped(s.cells, p.w, p.h) && Owners(s.cells, |p.dots|) && 0 <= y < p.h && 0 <= x < p.w
    requires qb == q0 + Unseen(States(p, z, s, Before(TileScan(p, s.cells), p.w, y, x)), v0)
    requires vb == v0 + Hashes(States(p, z, s, Before(TileScan(p, s.cells), p.w, y, x)))
    requires s.cells[y][x] != -1 ==>
               q == qb + Unseen(States(p, z, s, OwnedMoves(p, s.cells, x, y)), vb) &&
               v == vb + Hashes(States(p, z, s, OwnedMoves(p, s.cells, x, y)))
    requires s.cells[y][x] == -1 ==> q == qb && v == vb
    ensures q == q0 + Unseen(States(p, z, s, Before(TileScan(p, s.cells), p.w, y, x + 1)), v0)
    ensures v == v0 + Hashes(States(p, z, s, Before(TileScan(p, s.cells), p.w, y, x + 1)))
  {
    var g := s.cells;
    assert Before(TileScan(p, g), p.w, y, x + 1) == Before(TileScan(p, g), p.w, y, x) + OwnedMoves(p, g, x, y);
    if g[y][x] == -1 {
      assert OwnedMoves(p, g, x, y) == [];
      assert q == qb + Unseen([], vb) && v == vb + Hashes([]);
    }
    MovesChain(p, z, s, Before(TileScan(p, g), p.w, y, x), OwnedMoves(p, g, x, y), Before(TileScan(p, g), p.w, y, x + 1),
               v0, q0, qb, vb, q, v);
  }

  /** A move in a prefix or the last part of a layer is in the layer. */
  lemma TileGrow(p: Puzzle, g: Grid, x: int, y: int, k: int, m: Move)
    requires Shaped(g, p.w, p.h) && Owners(g, |p.dots|) && 0 < k <= 4
    requires m in TileMoves(p, g, x, y, k - 1) || m in StepMoves(p, g, x, y, k - 1)
    ensures m in TileMoves(p, g, x, y, k)
  {
  }

  /** The move of every step that applies is in each layer that covers the step. */
  lemma {:induction false} TileMovesCover(p: Puzzle, g: Grid, x: int, y: int, k: int, j: int)
    requires Shaped(g, p.w, p.h) && Owners(g, |p.dots|) && 0 <= j < k <= 4 && Expandable(p, g, x, y, j)
    ensures ChildMove(p, g, x, y, j) in TileMoves(p, g, x, y, k)
    decreases k
  {
    if j < k - 1 {
      TileMovesCover(p, g, x, y, k - 1, j);
    }
    TileGrow(p, g, x, y, k, ChildMove(p, g, x, y, j));
  }

  /** Every step that applies from an owned tile of g is one of the moves. */
  lemma MovesCover(p: Puzzle, g: Grid, x: int, y: int, k: int)
    requires Shaped(g, p.w, p.h) && Owners(g, |p.dots|) && 0 <= k < 4 && Expandable(p, g, x, y, k)
    ensures ChildMove(p, g, x, y, k) in Moves(p, g)
  {
    var m := ChildMove(p, g, x, y, k);
    var f := TileScan(p, g);
    TileMovesCover(p, g, x, y, 4, k);
    assert m in f(x, y);
    assert Before(f, p.w, y, x + 1) == Before(f, p.w, y, x) + f(x, y);
    var rest := BeforePrefix(f, p.w, y, x + 1, p.h, 0);
    assert m in Before(f, p.w, y, x + 1);
  }

  /** Every move of a layer is legal on g. */
  lemma {:induction false} TileMovesLegal(p: Puzzle, g: Grid, x: int, y: int, k: int)
    requires Shaped(g, p.w, p.h) && Owners(g, |p.dots|) && k <= 4
    ensures forall m :: m in TileMoves(p, g, x, y, k) ==> Legal(p, g, m)
    decreases k
  {
    if k > 0 {
      TileMovesLegal(p, g, x, y, k - 1);
      assert TileMoves(p, g, x, y, k) == TileMoves(p, g, x, y, k - 1) + StepMoves(p, g, x, y, k - 1);
    }
  }

  lemma MovesLegal(p: Puzzle, g: Grid)
    requires Shaped(g, p.w, p.h) && Owners(g, |p.dots|)
    ensures forall m :: m in Moves(p, g) ==> Legal(p, g, m)
  {
    forall m | m in Moves(p, g) ensures Legal(p, g, m) {
      var i, r := BeforeHas(TileScan(p, g), p.w, p.h, 0, m);
      TileMovesLegal(p, g, i, r, 4);
    }
  }

  /** The states legal moves build from a reached state are reached. */
  lemma StatesReached(p: Puzzle, z: Table, seed: Grid, s: State, ms: seq<Move>)
    requires Reached(p, z, seed, s) && forall m :: m in ms ==> Legal(p, s.cells, m)
    ensures forall c :: c in States(p, z, s, ms) ==> Reached(p, z, seed, c)
  {
    StatesAt(p, z, s, ms);
    forall c | c in States(p, z, s, ms) ensures Reached(p, z, seed, c) {
      var i :| 0 <= i < |ms| && States(p, z, s, ms)[i] == c;
      assert ms[i] in ms;
      ChildReached(p, z, seed, s, ms[i]);
    }
  }

  /** The state a legal move of ms builds has its hash among the hashes of States(ms). */
  lemma MoveCovered(p: Puzzle, z: Table, s: State, m: Move, ms: seq<Move>)
    requires m in ms && Legal(p, s.cells, m)
    ensures Applied(s, m, z, p.w).hash in Hashes(States(p, z, s, ms))
  {
    StatesAt(p, z, s, ms);
    HashesHas(States(p, z, s, ms));
    var i :| 0 <= i < |ms| && ms[i] == m;
    assert States(p, z, s, ms)[i] == Applied(s, m, z, p.w);
  }

  /** Children lists exactly the steps that apply: each child is reached, and each applicable step is listed. */
  lemma ChildrenExact(p: Puzzle, z: Table, seed: Grid, s: State)
    requires Reached(p, z, seed, s)
    ensures forall c :: c in Children(p, z, s) ==> Reached(p, z, seed, c)
    ensures forall x, y, k :: 0 <= k < 4 && Expandable(p, s.cells, x, y, k) ==>
              Applied(s, ChildMove(p, s.cells, x, y, k), z, p.w) in Children(p, z, s)
  {
    var ms := Moves(p, s.cells);
    StatesAt(p, z, s, ms);
    MovesLegal(p, s.cells);
    StatesReached(p, z, seed, s, ms);
    forall x, y, k | 0 <= k < 4 && Expandable(p, s.cells, x, y, k)
      ensures Applied(s, ChildMove(p, s.cells, x, y, k), z, p.w) in Children(p, z, s)
    {
      MovesCover(p, s.cells, x, y, k);
      var i :| 0 <= i < |ms| && ms[i] == ChildMove(p, s.cells, x, y, k);
      assert States(p, z, s, ms)[i] == Built(p, z, s, ms[i]);
    }
  }

  /** The hashes of a list of states. */
  function Hashes(cs: seq<State>): set<Word>
  {
    if |cs| == 0 then {} else Hashes(cs[..|cs| - 1]) + {cs[|cs| - 1].hash}
  }

  /**
   * What a loop that pushes each state of cs only when its hash enters the
   * seen set queues: the states whose hash is neither in seen nor carried by
   * an earlier state of cs, in their order.
   */
  function Unseen(cs: seq<State>, seen: set<Word>): seq<State>
  {
    if |cs| == 0 then []
    else
      Unseen(cs[..|cs| - 1], seen) +
      (if cs[|cs| - 1].hash in seen + Hashes(cs[..|cs| - 1]) then [] else [cs[|cs| - 1]])
  }

  lemma {:induction false} HashesAppend(a: seq<State>, b: seq<State>)
    ensures Hashes(a + b) == Hashes(a) + Hashes(b)
    decreases |b|
  {
    if |b| == 0 {
      assert a + b == a;
    } else {
      var b' := b[..|b| - 1];
      assert (a + b)[..|a + b| - 1] == a + b';
      assert (a + b)[|a + b| - 1] == b[|b| - 1];
      HashesAppend(a, b');
    }
  }

  /** Every state's hash is among the hashes of its list. */
  lemma {:induction false} HashesHas(cs: seq<State>)
    ensures forall i :: 0 <= i < |cs| ==> cs[i].hash in Hashes(cs)
    decreases |cs|
  {
    if |cs| > 0 {
      var init := cs[..|cs| - 1];
      HashesHas(init);
      assert forall i :: 0 <= i < |init| ==> cs[i] == init[i];
    }
  }

  /** Deduplicating a concatenation is deduplicating each part, the second against what the first added. */
  lemma {:induction false} UnseenAppend(a: seq<State>, b: seq<State>, seen: set<Word>)
    ensures Unseen(a + b, seen) == Unseen(a, seen) + Unseen(b, seen + Hashes(a))
    decreases |b|
  {
    if |b| == 0 {
      assert a + b == a;
    } else {
      var b' := b[..|b| - 1];
      var l := b[|b| - 1];
      assert (a + b)[..|a + b| - 1] == a + b';
      assert (a + b)[|a + b| - 1] == l;
      UnseenAppend(a, b', seen);
      HashesAppend(a, b');
      assert seen + Hashes(a + b') == (seen + Hashes(a)) + Hashes(b');
    }
  }

  /** One state is queued exactly when its hash is new. */
  lemma UnseenOne(c: State, seen: set<Word>)
    ensures Unseen([c], seen) == (if c.hash in seen then [] else [c])
    ensures Hashes([c]) == {c.hash}
  {
    assert [c][..0] == [];
  }

  /**
   * The states queued carry exactly the new hashes, one state per hash:
   * the seen set grows by as many hashes as states are queued.
   */
  lemma {:induction false} UnseenCount(cs: seq<State>, seen: set<Word>)
    ensures seen + Hashes(cs) == seen + Hashes(Unseen(cs, seen))
    ensures |seen + Hashes(cs)| == |seen| + |Unseen(cs, seen)|
    decreases |cs|
  {
    if |cs| > 0 {
      var init := cs[..|cs| - 1];
      var l := cs[|cs| - 1];
      var u := Unseen(init, seen);
      UnseenCount(init, seen);
      assert Hashes(cs) == Hashes(init) + {l.hash};
      if l.hash in seen + Hashes(init) {
        assert Unseen(cs, seen) == u by {
          assert Unseen(cs, seen) == u + [];
        }
      } else {
        var before := seen + Hashes(init);
        assert Unseen(cs, seen) == u + [l];
        assert Hashes(u + [l]) == Hashes(u) + {l.hash} by {
          UnseenOne(l, seen);
          HashesAppend(u, [l]);
        }
        assert seen + Hashes(cs) == before + {l.hash};
        assert |before + {l.hash}| == |before| + 1;
      }
    }
  }

  /**
   * Nothing is queued twice: every queued state is one of cs, no queued
   * hash was seen before, and no two queued states share a hash.
   */
  lemma {:induction false} UnseenFresh(cs: seq<State>, seen: set<Word>)
    ensures forall i :: 0 <= i < |Unseen(cs, seen)| ==> Unseen(cs, seen)[i] in cs && Unseen(cs, seen)[i].hash !in seen
    ensures forall i, j :: 0 <= i < j < |Unseen(cs, seen)| ==> Unseen(cs, seen)[i].hash != Unseen(cs, seen)[j].hash
    decreases |cs|
  {
    if |cs| > 0 {
      var init := cs[..|cs| - 1];
      var l := cs[|cs| - 1];
      var u := Unseen(init, seen);
      UnseenFresh(init, seen);
      assert forall c :: c in init ==> c in cs;
      if l.hash !in seen + Hashes(init) {
        var u' := u + [l];
        assert Unseen(cs, seen) == u';
        UnseenCount(init, seen);
        HashesHas(u);
        forall i | 0 <= i < |u| ensures u'[i].hash != l.hash {
          assert u'[i] == u[i];
          assert u[i].hash in Hashes(u);
        }
      } else {
        assert Unseen(cs, seen) == u + [];
        assert u + [] == u;
      }
    }
  }

  /**
   * A loop that has queued Unseen(a) and marked a's hashes, then queues
   * Unseen(t) against the grown seen set, has queued Unseen(a + t).
   */
  lemma UnseenChain(a: seq<State>, t: seq<State>, at: seq<State>, seen: set<Word>,
                    q0: seq<State>, q: seq<State>, v: set<Word>, q': seq<State>, v': set<Word>)
    requires at == a + t
    requires q == q0 + Unseen(a, seen) && v == seen + Hashes(a)
    requires q' == q + Unseen(t, v) && v' == v + Hashes(t)
    ensures q' == q0 + Unseen(at, seen) && v' == seen + Hashes(at)
  {
    UnseenAppend(a, t, seen);
    HashesAppend(a, t);
    ConcatAssoc(q0, Unseen(a, seen), Unseen(t, v));
  }

  lemma ConcatAssoc<T>(a: seq<T>, b: seq<T>, c: seq<T>)
    ensures a + b + c == a + (b + c)
  {
  }

  /**
   * After queueing Unseen(cs) behind q0, where every state of cs is
   * reached, the queue invariant holds and the seen set has grown by one
   * hash per queued state.
   */
  lemma UnseenQueued(p: Puzzle, z: Table, seed: Grid, cs: seq<State>, seen: set<Word>,
                     q0: seq<State>, q: seq<State>, v: set<Word>)
    requires Queued(p, z, seed, q0, seen) && forall c :: c in cs ==> Reached(p, z, seed, c)
    requires q == q0 + Unseen(cs, seen) && v == seen + Hashes(cs)
    ensures Queued(p, z, seed, q, v) && seen <= v && |v| - |seen| == |q| - |q0|
  {
    var u := Unseen(cs, seen);
    UnseenCount(cs, seen);
    UnseenFresh(cs, seen);
    HashesHas(u);
    forall i | 0 <= i < |q| ensures Reached(p, z, seed, q[i]) && q[i].hash in v {
      if i >= |q0| {
        assert q[i] == u[i - |q0|];
      } else {
        assert q[i] == q0[i];
      }
    }
  }

  /**
   * The child state the expansion builds from s: n gets d, and so does the
   * mirror when it differs from n.  The source's `continue` for an owned
   * mirror is never taken, since the mirror is an empty tile other than n
   * and is still empty after n is written.
   */
  method Child(s: State, z: Table, w: int, h: int, nx: int, ny: int, d: int, sx: int, sy: int) returns (next: State)
    requires Shaped(s.cells, w, h) && InTileBounds(w, h, nx, ny) && s.cells[ny][nx] == -1
    requires (InTileBounds(w, h, sx, sy) && s.cells[sy][sx] == -1) || (sx, sy) == (nx, ny)
    ensures next == Applied(s, Move(nx, ny, d, sx, sy, true), z, w)
  {
    next := State(s.cells[ny := s.cells[ny][nx := d]], s.filledCount + 1, Xor(s.hash, Entry(z, ny * w + nx, d)));
    if nx != sx || ny != sy {
      if next.cells[sy][sx] == -1 {
        next := State(next.cells[sy := next.cells[sy][sx := d]], next.filledCount + 1,
                      Xor(next.hash, Entry(z, sy * w + sx, d)));
      }
    }
  }

  class Solver {
    const p: Puzzle
    const z: Table
    var visited: set<Word>

    constructor(p: Puzzle, z: Table)
      ensures this.p == p && this.z == z && visited == {}
    {
      this.p := p;
      this.z := z;
      visited := {};
    }

    /** tryFill on a state value; see TryFillResult for the cases. */
    method TryFill(s: State, tx: int, ty: int, d: int) returns (ok: bool, s': State)
      requires Shaped(s.cells, p.w, p.h)
      ensures (ok, s') == TryFillResult(s, z, p.w, p.h, tx, ty, d)
    {
      s' := s;
      if !(tx >= 0 && tx < p.w && ty >= 0 && ty < p.h) {
        return true, s';
      }
      var cur := s.cells[ty][tx];
      if cur == -1 {
        s' := State(s.cells[ty := s.cells[ty][tx := d]], s.filledCount + 1, Xor(s.hash, Entry(z, ty * p.w + tx, d)));
        return true, s';
      }
      return cur == d, s';
    }

    /** The forced tiles of dot d, tried in the source's order with short-circuit ||. */
    method SeedDot(s: State, d: int) returns (ok: bool, s': State)
      requires Shaped(s.cells, p.w, p.h) && 0 <= d < |p.dots|
      ensures (ok, s') == SeedTiles(s, z, p.w, p.h, d, ForcedTiles(p.dots[d].x, p.dots[d].y))
    {
      var dx := p.dots[d].x;
      var dy := p.dots[d].y;
      var oddx := dx % 2 != 0;
      var oddy := dy % 2 != 0;
      ghost var ts := ForcedTiles(dx, dy);
      ghost var rest := ts;
      var w, h := p.w, p.h;
      if oddx && oddy {
        ok, s' := TryFill(s, CHalf(dx - 1), CHalf(dy - 1), d);
        rest := SeedStep(s, z, w, h, d, ts, ok, s');
      } else if oddx && !oddy {
        var tx := CHalf(dx - 1);
        var ty1 := CHalf(dy) - 1;
        var ty2 := CHalf(dy);
        ok, s' := TryFill(s, tx, ty1, d);
        rest := SeedStep(s, z, w, h, d, ts, ok, s');
        if ok {
          var s1 := s';
          ok, s' := TryFill(s1, tx, ty2, d);
          rest := SeedStep(s1, z, w, h, d, rest, ok, s');
        }
      } else if !oddx && oddy {
        var ty := CHalf(dy - 1);
        var tx1 := CHalf(dx) - 1;
        var tx2 := CHalf(dx);
        ok, s' := TryFill(s, tx1, ty, d);
        rest := SeedStep(s, z, w, h, d, ts, ok, s');
        if ok {
          var s1 := s';
          ok, s' := TryFill(s1, tx2, ty, d);
          rest := SeedStep(s1, z, w, h, d, rest, ok, s');
        }
      } else {
        ok, s' := SeedVertex(s, d, CHalf(dx) - 1, CHalf(dx), CHalf(dy) - 1, CHalf(dy));
      }
    }

    /** A dot on a vertex: its four tiles in the source's order, stopping at the first failure. */
    method SeedVertex(s: State, d: int, tx1: int, tx2: int, ty1: int, ty2: int) returns (ok: bool, s': State)
      requires Shaped(s.cells, p.w, p.h) && 0 <= d < |p.dots|
      ensures (ok, s') == SeedTiles(s, z, p.w, p.h, d, [(tx1, ty1), (tx1, ty2), (tx2, ty1), (tx2, ty2)])
    {
      var w, h := p.w, p.h;
      ghost var rest := [(tx1, ty1), (tx1, ty2), (tx2, ty1), (tx2, ty2)];
      ok, s' := TryFill(s, tx1, ty1, d);
      rest := SeedStep(s, z, w, h, d, rest, ok, s');
      if ok {
        var s1 := s';
        ok, s' := TryFill(s1, tx1, ty2, d);
        rest := SeedStep(s1, z, w, h, d, rest, ok, s');
        if ok {
          var s2 := s';
          ok, s' := TryFill(s2, tx2, ty1, d);
          rest := SeedStep(s2, z, w, h, d, rest, ok, s');
          if ok {
            var s3 := s';
            ok, s' := TryFill(s3, tx2, ty2, d);
            rest := SeedStep(s3, z, w, h, d, rest, ok, s');
          }
        }
      }
    }

    /** seedForcedTiles on a state value: seed every dot in order, stop at the first conflict. */
    method SeedForcedTiles(s0: State) returns (ok: bool, s: State)
      requires Shaped(s0.cells, p.w, p.h)
      ensures (ok, s) == SeedDots(s0, p, z, |p.dots|)
    {
      s := s0;
      var d := 0;
      while d < |p.dots|
        invariant 0 <= d <= |p.dots|
        invariant SeedDots(s0, p, z, d) == (true, s)
      {
        ok, s := SeedDot(s, d);
        if !ok {
          SeedDotsStopped(s0, p, z, d + 1, |p.dots|);
          return false, s;
        }
        d := d + 1;
      }
      return true, s;
    }

    /**
     * solve: breadth-first search from the seeded state.  A state is queued
     * only when its hash enters the visited set, so the queue empties: the
     * measure is the room left among 2^64 hashes, then the queue length.
     */
    method Solve() returns (r: Option<State>)
      requires p.w >= 0 && p.h >= 0
      modifies this
      ensures !NoClash(p, |p.dots|) ==> r == None
      ensures r.Some? ==> Reached(p, z, SeedDots(EmptyState(p.w, p.h), p, z, |p.dots|).1.cells, r.value)
      ensures r.Some? ==> Shaped(r.value.cells, p.w, p.h) && Goal(p, r.value)
    {
      var initial := EmptyState(p.w, p.h);
      var ok;
      SeedDotsKeeps(initial, p, z, |p.dots|);
      SeedDotsOutcome(p, z, |p.dots|);
      ok, initial := SeedForcedTiles(initial);
      if !ok {
        return None;
      }
      r := Search(initial);
    }

    /** The queue loop of solve, from the seeded state. */
    method Search(initial: State) returns (r: Option<State>)
      requires Reached(p, z, initial.cells, initial)
      modifies this
      ensures r.Some? ==> Reached(p, z, initial.cells, r.value) && Goal(p, r.value)
    {
      ghost var seed := initial.cells;
      assert Reached(p, z, seed, initial);
      var q := [initial];
      visited := visited + {initial.hash};
      assert Queued(p, z, seed, q, visited);
      while |q| > 0
        invariant Queued(p, z, seed, q, visited)
        decreases HashSpace - |visited|, |q|
      {
        HashSetBound(visited);
        var s := q[0];
        assert Reached(p, z, seed, s);
        QueuedTail(p, z, seed, q, visited);
        q := q[1..];
        if s.filledCount == p.w * p.h {
          FullGrid(s.cells, p.w, p.h);
          var used := AllDotsUsedIn(s.cells, p.w, p.h, |p.dots|);
          if used {
            return Some(s);
          }
          continue;
        }
        ghost var n0, v0 := |q|, visited;
        q := Expand(seed, s, q);
        assert |q| > n0 ==> |visited| > |v0|;
      }
      return None;
    }

    /**
     * All expansion steps of s, tile by tile in row order: the children
     * whose hash is new are queued behind q0, in the order they are built,
     * each once, and every child's hash is marked visited.
     */
    method Expand(ghost seed: Grid, s: State, q0: seq<State>) returns (q: seq<State>)
      requires Reached(p, z, seed, s)
      requires Queued(p, z, seed, q0, visited)
      modifies this
      ensures q == q0 + Unseen(Children(p, z, s), old(visited))
      ensures visited == old(visited) + Hashes(Children(p, z, s))
      ensures Queued(p, z, seed, q, visited)
      ensures old(visited) <= visited && |q0| <= |q| && |visited| - |old(visited)| == |q| - |q0|
      ensures forall x, y, k :: 0 <= k < 4 && Expandable(p, s.cells, x, y, k) ==>
                Applied(s, ChildMove(p, s.cells, x, y, k), z, p.w).hash in visited
    {
      ghost var v0 := visited;
      ghost var g := s.cells;
      q := q0;
      var y := 0;
      while y < p.h
        invariant 0 <= y <= p.h
        invariant q == q0 + Unseen(States(p, z, s, Before(TileScan(p, g), p.w, y, 0)), v0)
        invariant visited == v0 + Hashes(States(p, z, s, Before(TileScan(p, g), p.w, y, 0)))
      {
        q := ExpandRow(s, y, v0, q0, q);
        BeforeRowEnd(TileScan(p, g), p.w, y);
        y := y + 1;
      }
      ChildrenExact(p, z, seed, s);
      UnseenQueued(p, z, seed, Children(p, z, s), v0, q0, q, visited);
      HashesHas(Children(p, z, s));
    }

    /**
     * The tiles of row y in order, each owned one expanded: the queue and
     * the visited set go from covering the tiles before row y to covering
     * row y as well.
     */
    method ExpandRow(s: State, y: int, ghost v0: set<Word>, ghost q0: seq<State>, qy: seq<State>) returns (q: seq<State>)
      requires Shaped(s.cells, p.w, p.h) && Owners(s.cells, |p.dots|) && 0 <= y < p.h
      requires qy == q0 + Unseen(States(p, z, s, Before(TileScan(p, s.cells), p.w, y, 0)), v0)
      requires visited == v0 + Hashes(States(p, z, s, Before(TileScan(p, s.cells), p.w, y, 0)))
      modifies this
      ensures q == q0 + Unseen(States(p, z, s, Before(TileScan(p, s.cells), p.w, y, p.w)), v0)
      ensures visited == v0 + Hashes(States(p, z, s, Before(TileScan(p, s.cells), p.w, y, p.w)))
    {
      assert |s.cells[y]| == p.w;
      q := qy;
      var x := 0;
      while x < p.w
        invariant 0 <= x <= p.w
        invariant q == q0 + Unseen(States(p, z, s, Before(TileScan(p, s.cells), p.w, y, x)), v0)
        invariant visited == v0 + Hashes(States(p, z, s, Before(TileScan(p, s.cells), p.w, y, x)))
      {
        ghost var qb, vb := q, visited;
        if s.cells[y][x] != -1 {
          q := ExpandAt(s, x, y, q);
        }
        TileAdvance(p, z, s, y, x, v0, q0, qb, vb, q, visited);
        x := x + 1;
      }
    }

    /** The four expansion steps from owned tile (x, y), in the order of dirs. */
    method ExpandAt(s: State, x: int, y: int, q0: seq<State>) returns (q: seq<State>)
      requires Shaped(s.cells, p.w, p.h) && Owners(s.cells, |p.dots|)
      requires InTileBounds(p.w, p.h, x, y) && s.cells[y][x] != -1
      modifies this
      ensures q == q0 + Unseen(States(p, z, s, OwnedMoves(p, s.cells, x, y)), old(visited))
      ensures visited == old(visited) + Hashes(States(p, z, s, OwnedMoves(p, s.cells, x, y)))
    {
      ghost var v0 := visited;
      ghost var g := s.cells;
      q := q0;
      var k := 0;
      while k < 4
        invariant 0 <= k <= 4
        invariant q == q0 + Unseen(States(p, z, s, TileMoves(p, g, x, y, k)), v0)
        invariant visited == v0 + Hashes(States(p, z, s, TileMoves(p, g, x, y, k)))
      {
        ghost var qb, vb := q, visited;
        q := ExpandStep(s, x, y, k, q);
        MovesChain(p, z, s, TileMoves(p, g, x, y, k), StepMoves(p, g, x, y, k), TileMoves(p, g, x, y, k + 1),
                   v0, q0, qb, vb, q, visited);
        k := k + 1;
      }
      assert OwnedMoves(p, g, x, y) == TileMoves(p, g, x, y, 4);
    }

    /** One expansion step: build the child and queue it exactly when its hash is new. */
    method ExpandStep(s: State, x: int, y: int, k: int, q0: seq<State>) returns (q: seq<State>)
      requires Shaped(s.cells, p.w, p.h) && Owners(s.cells, |p.dots|)
      requires InTileBounds(p.w, p.h, x, y) && s.cells[y][x] != -1 && 0 <= k < 4
      modifies this
      ensures q == q0 + Unseen(States(p, z, s, StepMoves(p, s.cells, x, y, k)), old(visited))
      ensures visited == old(visited) + Hashes(States(p, z, s, StepMoves(p, s.cells, x, y, k)))
    {
      q := q0;
      var d := s.cells[y][x];
      var dx, dy := p.dots[d].x, p.dots[d].y;
      var nx := x + Dirs[k].0;
      var ny := y + Dirs[k].1;
      if !(0 <= nx < p.w && 0 <= ny < p.h && s.cells[ny][nx] == -1) {
        assert StepMoves(p, s.cells, x, y, k) == [];
        assert q == q0 + [];
        return;
      }
      var sx, sy := GetSymmetricTile(dx, dy, nx, ny);
      if (0 <= sx < p.w && 0 <= sy < p.h && s.cells[sy][sx] == -1) || (nx == sx && ny == sy) {
        var next := Child(s, z, p.w, p.h, nx, ny, d, sx, sy);
        assert StepMoves(p, s.cells, x, y, k) == [ChildMove(p, s.cells, x, y, k)];
        assert States(p, z, s, StepMoves(p, s.cells, x, y, k)) == [next];
        UnseenOne(next, visited);
        if next.hash !in visited {
          visited := visited + {next.hash};
          q := q + [next];
        }
      } else {
        assert StepMoves(p, s.cells, x, y, k) == [];
        assert q == q0 + [];
      }
    }
  }
}
