/**
 * What the two C solvers (solver/seq_solver.c, solver/openmp_solver.c)
 * share: fixed-size arrays, a chained hash table of visited hashes, a FIFO
 * queue of states, seeding of the dots on tile centres only, and the
 * expansion of one state dot by dot.
 */
module CSearch {

  import opened Words
  import opened Tiles
  import opened Boards
  import opened SeqBfs

  /** How solve ends: overlapping centre dots, a printed solution, or "No solution found." */
  datatype Outcome = Overlap | Solved(state: State) | NoSolution

  const MaxW: int := 20
  const MaxH: int := 20
  const MaxDots: int := 100
  const TableSize: int := 1000003

  /**
   * What the C code assumes without checking: the board fits the fixed
   * grid[MAX_H][MAX_W], the dots fit dots[MAX_DOTS], and every dot lies on
   * the internal grid (seeding writes its centre tile with no bounds check).
   */
  predicate Fitting(p: Puzzle)
  {
    0 <= p.w <= MaxW && 0 <= p.h <= MaxH && |p.dots| <= MaxDots &&
    forall i :: 0 <= i < |p.dots| ==> 0 <= p.dots[i].x < 2 * p.w + 1 && 0 <= p.dots[i].y < 2 * p.h + 1
  }

  /** A dot on a tile centre: both internal coordinates odd. */
  predicate Centred(dot: Dot)
  {
    dot.x % 2 != 0 && dot.y % 2 != 0
  }

  /** The tile a centred dot sits on, computed with C's division. */
  function CentreTile(dot: Dot): (int, int)
  {
    (CHalf(dot.x - 1), CHalf(dot.y - 1))
  }

  lemma CentreTileOf(dot: Dot)
    requires Centred(dot)
    ensures OnCentre(dot, CentreTile(dot).0, CentreTile(dot).1)
  {
    CHalfOfOdd(dot.x);
    CHalfOfOdd(dot.y);
  }

  /** A centred dot of a fitting puzzle is on a board tile, and that tile is its own mirror. */
  lemma CentreOnBoard(p: Puzzle, i: int)
    requires Fitting(p) && 0 <= i < |p.dots| && Centred(p.dots[i])
    ensures InTileBounds(p.w, p.h, CentreTile(p.dots[i]).0, CentreTile(p.dots[i]).1)
    ensures SymmetricTile(p.dots[i].x, p.dots[i].y, CentreTile(p.dots[i]).0, CentreTile(p.dots[i]).1) ==
            CentreTile(p.dots[i])
  {
    CentreTileOf(p.dots[i]);
  }

  /** Seeding of the first k dots: each centred dot claims its centre tile, a taken tile stops it. */
  function CSeedDots(p: Puzzle, z: Table, k: nat): (r: (bool, State))
    requires Fitting(p) && k <= |p.dots|
    ensures Shaped(r.1.cells, p.w, p.h)
  {
    if k == 0 then (true, EmptyState(p.w, p.h))
    else
      var prev := CSeedDots(p, z, k - 1);
      var dot := p.dots[k - 1];
      if !prev.0 || !Centred(dot) then prev
      else
        CentreOnBoard(p, k - 1);
        var t := CentreTile(dot);
        if prev.1.cells[t.1][t.0] == -1 then (true, Filled(prev.1, z, p.w, t.0, t.1, k - 1))
        else (false, prev.1)
  }

  /** No two of the first k centred dots share a position. */
  ghost predicate CentresDistinct(p: Puzzle, k: int)
  {
    forall i, j :: (0 <= i < j < k && j < |p.dots| && Centred(p.dots[i]) && Centred(p.dots[j])) ==>
      (p.dots[i].x, p.dots[i].y) != (p.dots[j].x, p.dots[j].y)
  }

  /** The dot lies on the centre of tile (x, y). */
  predicate OnCentre(dot: Dot, x: int, y: int)
  {
    dot.x == 2 * x + 1 && dot.y == 2 * y + 1
  }

  /** A dot on a tile centre has odd internal coordinates. */
  lemma OnCentreCentred(dot: Dot, x: int, y: int)
    ensures OnCentre(dot, x, y) ==> Centred(dot)
  {
  }

  /** After seeding k dots: each centred dot owns its centre tile and no other tile is owned. */
  ghost predicate CentreOwners(p: Puzzle, g: Grid, k: int)
    requires Shaped(g, p.w, p.h) && k <= |p.dots|
  {
    forall y, x :: 0 <= y < p.h && 0 <= x < p.w ==>
      (forall i :: 0 <= i < k && OnCentre(p.dots[i], x, y) ==> g[y][x] == i) &&
      (g[y][x] == -1 || (0 <= g[y][x] < k && OnCentre(p.dots[g[y][x]], x, y)))
  }

  /**
   * The C seeding succeeds iff no two centred dots coincide, and then the
   * owners are exactly the centre tiles, with count and hash consistent.
   */
  lemma {:induction false} CSeedOutcome(p: Puzzle, z: Table, k: nat)
    requires Fitting(p) && k <= |p.dots|
    ensures var r := CSeedDots(p, z, k);
            (r.0 <==> CentresDistinct(p, k)) &&
            (r.0 ==> CentreOwners(p, r.1.cells, k) && Owners(r.1.cells, |p.dots|) && Consistent(r.1, z, p.w))
  {
    if k == 0 {
      CSeedEmpty(p, z);
    } else {
      CSeedOutcome(p, z, k - 1);
      CSeedStep(p, z, k - 1);
    }
  }

  lemma CSeedEmpty(p: Puzzle, z: Table)
    requires Fitting(p)
    ensures var e := EmptyState(p.w, p.h);
            CentresDistinct(p, 0) && CentreOwners(p, e.cells, 0) && Owners(e.cells, |p.dots|) && Consistent(e, z, p.w)
  {
    var e := EmptyState(p.w, p.h);
    assert Consistent(e, z, p.w);
  }

  /** One dot of the seeding, from the outcome for the dots before it. */
  lemma CSeedStep(p: Puzzle, z: Table, d: nat)
    requires Fitting(p) && d < |p.dots|
    requires var r := CSeedDots(p, z, d);
             (r.0 <==> CentresDistinct(p, d)) &&
             (r.0 ==> CentreOwners(p, r.1.cells, d) && Owners(r.1.cells, |p.dots|) && Consistent(r.1, z, p.w))
    ensures var r := CSeedDots(p, z, d + 1);
            (r.0 <==> CentresDistinct(p, d + 1)) &&
            (r.0 ==> CentreOwners(p, r.1.cells, d + 1) && Owners(r.1.cells, |p.dots|) && Consistent(r.1, z, p.w))
  {
    var prev := CSeedDots(p, z, d);
    if !prev.0 {
      NotDistinctStep(p, d);
    } else if !Centred(p.dots[d]) {
      NotCentredStep(p, prev.1.cells, d);
    } else {
      CentreOnBoard(p, d);
      var t := CentreTile(p.dots[d]);
      CentreTileOf(p.dots[d]);
      if prev.1.cells[t.1][t.0] == -1 {
        CentreFree(p, prev.1.cells, d, t.0, t.1);
        CentreFill(p, prev.1.cells, d, t.0, t.1);
        FillOne(prev.1.cells, z, p.w, t.0, t.1, d);
      } else {
        CentreTaken(p, prev.1.cells, d, t.0, t.1);
      }
    }
  }

  /** Distinctness lost among the first d dots stays lost with one dot more. */
  lemma NotDistinctStep(p: Puzzle, d: int)
    requires 0 <= d < |p.dots| && !CentresDistinct(p, d)
    ensures !CentresDistinct(p, d + 1)
  {
    var i, j :| 0 <= i < j < d && j < |p.dots| && Centred(p.dots[i]) && Centred(p.dots[j]) &&
      (p.dots[i].x, p.dots[i].y) == (p.dots[j].x, p.dots[j].y);
    assert j < d + 1;
  }

  /** A dot off tile centres leaves distinctness and the centre owners as they were. */
  lemma NotCentredStep(p: Puzzle, g: Grid, d: int)
    requires 0 <= d < |p.dots| && !Centred(p.dots[d]) && Shaped(g, p.w, p.h)
    ensures CentresDistinct(p, d + 1) <==> CentresDistinct(p, d)
    ensures CentreOwners(p, g, d + 1) <==> CentreOwners(p, g, d)
  {
    forall x, y ensures !OnCentre(p.dots[d], x, y) {
      OnCentreCentred(p.dots[d], x, y);
    }
    if CentresDistinct(p, d) {
      forall i, j | 0 <= i < j < d + 1 && j < |p.dots| && Centred(p.dots[i]) && Centred(p.dots[j])
        ensures (p.dots[i].x, p.dots[i].y) != (p.dots[j].x, p.dots[j].y)
      {
        assert j < d;
      }
    }
  }

  /** A free centre tile (x, y) for dot d means no earlier centred dot shares its position. */
  lemma CentreFree(p: Puzzle, g: Grid, d: int, x: int, y: int)
    requires 0 <= d < |p.dots| && Shaped(g, p.w, p.h) && OnCentre(p.dots[d], x, y)
    requires CentreOwners(p, g, d) && CentresDistinct(p, d)
    requires InTileBounds(p.w, p.h, x, y) && g[y][x] == -1
    ensures CentresDistinct(p, d + 1)
  {
    forall i, j | 0 <= i < j < d + 1 && j < |p.dots| && Centred(p.dots[i]) && Centred(p.dots[j])
      ensures (p.dots[i].x, p.dots[i].y) != (p.dots[j].x, p.dots[j].y)
    {
      if j == d {
        assert !OnCentre(p.dots[i], x, y);
      }
    }
  }

  /** A taken centre tile (x, y) for dot d means an earlier centred dot shares its position. */
  lemma CentreTaken(p: Puzzle, g: Grid, d: int, x: int, y: int)
    requires 0 <= d < |p.dots| && Shaped(g, p.w, p.h) && OnCentre(p.dots[d], x, y)
    requires CentreOwners(p, g, d)
    requires InTileBounds(p.w, p.h, x, y) && g[y][x] != -1
    ensures !CentresDistinct(p, d + 1)
  {
    var i := g[y][x];
    assert 0 <= i < d && OnCentre(p.dots[i], x, y);
    assert Centred(p.dots[i]) && Centred(p.dots[d]);
  }

  /** Giving dot d its free centre tile (x, y) extends the centre owners to d + 1 dots. */
  lemma CentreFill(p: Puzzle, g: Grid, d: int, x: int, y: int)
    requires 0 <= d < |p.dots| && Shaped(g, p.w, p.h) && OnCentre(p.dots[d], x, y)
    requires CentreOwners(p, g, d) && Owners(g, |p.dots|)
    requires InTileBounds(p.w, p.h, x, y) && g[y][x] == -1
    ensures Shaped(SetCell(g, x, y, d), p.w, p.h) && CentreOwners(p, SetCell(g, x, y, d), d + 1) &&
            Owners(SetCell(g, x, y, d), |p.dots|)
  {
    var g' := SetCell(g, x, y, d);
    forall v, u | 0 <= v < p.h && 0 <= u < p.w
      ensures (forall i :: 0 <= i < d + 1 && OnCentre(p.dots[i], u, v) ==> g'[v][u] == i)
      ensures g'[v][u] == -1 || (0 <= g'[v][u] < d + 1 && OnCentre(p.dots[g'[v][u]], u, v))
    {
      if (u, v) == (x, y) {
        assert g'[v][u] == d;
        forall i | 0 <= i < d + 1 && OnCentre(p.dots[i], u, v) ensures i == d {
        }
      } else {
        assert g'[v][u] == g[v][u];
      }
    }
  }

  /** Once centre seeding has failed, no later dot changes the outcome. */
  lemma {:induction false} CSeedStopped(p: Puzzle, z: Table, k: nat, n: nat)
    requires Fitting(p) && k <= n <= |p.dots| && !CSeedDots(p, z, k).0
    ensures CSeedDots(p, z, n) == CSeedDots(p, z, k)
    decreases n
  {
    if n > k {
      CSeedStopped(p, z, k, n - 1);
    }
  }

  /** A seeded grid of centre tiles is symmetric: each centre tile is its own mirror. */
  lemma CSeedSymmetric(p: Puzzle, z: Table)
    requires Fitting(p) && CSeedDots(p, z, |p.dots|).0
    ensures Symmetric(p, CSeedDots(p, z, |p.dots|).1.cells)
  {
    CSeedOutcome(p, z, |p.dots|);
    CentreOwnersSymmetric(p, CSeedDots(p, z, |p.dots|).1.cells, |p.dots|);
  }

  /** A grid owning only centre tiles is symmetric. */
  lemma CentreOwnersSymmetric(p: Puzzle, g: Grid, k: int)
    requires Shaped(g, p.w, p.h) && k <= |p.dots| && CentreOwners(p, g, k)
    ensures Symmetric(p, g)
  {
    forall y, x | 0 <= y < |g| && 0 <= x < |g[y]| ensures MirrorHolds(p, g, x, y) {
      if g[y][x] != -1 {
        assert OnCentre(p.dots[g[y][x]], x, y);
      }
    }
  }

  /** The pre-fill loop of solve: centred dots in order, stopping at the first taken tile. */
  method SeedCentres(p: Puzzle, z: Table) returns (ok: bool, s: State)
    requires Fitting(p)
    ensures ok == CSeedDots(p, z, |p.dots|).0
    ensures ok ==> s == CSeedDots(p, z, |p.dots|).1
  {
    s := State(EmptyGrid(p.w, p.h), 0, 0);
    var i := 0;
    while i < |p.dots|
      invariant 0 <= i <= |p.dots|
      invariant CSeedDots(p, z, i) == (true, s)
    {
      var dx, dy := p.dots[i].x, p.dots[i].y;
      if dx % 2 != 0 && dy % 2 != 0 {
        CentreOnBoard(p, i);
        var tx, ty := CHalf(dx - 1), CHalf(dy - 1);
        if s.cells[ty][tx] == -1 {
          s := State(s.cells[ty := s.cells[ty][tx := i]], s.filledCount + 1, Xor(s.hash, Entry(z, ty * p.w + tx, i)));
        } else {
          CSeedStopped(p, z, i + 1, |p.dots|);
          return false, s;
        }
      }
      i := i + 1;
    }
    ok := true;
  }

  /**
   * The visited table: TABLE_SIZE chains, each a list of keys, new keys
   * pushed at the front.  contents is the set of keys stored; every key sits
   * in the chain its hash modulo TABLE_SIZE selects.
   */
  class VisitedTable {
    const buckets: array<seq<Word>>
    ghost var contents: set<Word>

    ghost predicate Valid()
      reads this, buckets
    {
      buckets.Length == TableSize &&
      (forall i, k :: 0 <= i < TableSize && 0 <= k < |buckets[i]| ==> buckets[i][k] % TableSize == i) &&
      (forall h: Word :: h in contents <==> h in buckets[h % TableSize])
    }

    constructor()
      ensures Valid() && contents == {} && fresh(buckets)
    {
      buckets := new seq<Word>[TableSize](_ => []);
      contents := {};
    }

    /** is_visited: walk the chain of h. */
    method IsVisited(h: Word) returns (b: bool)
      requires Valid()
      ensures b <==> h in contents
    {
      var chain := buckets[h % TableSize];
      var i := 0;
      while i < |chain|
        invariant 0 <= i <= |chain|
        invariant forall j :: 0 <= j < i ==> chain[j] != h
      {
        if chain[i] == h {
          return true;
        }
        i := i + 1;
      }
      return false;
    }

    /** add_visited: push h at the front of its chain, without looking for it first. */
    method AddVisited(h: Word)
      requires Valid()
      modifies this, buckets
      ensures Valid() && contents == old(contents) + {h}
    {
      var idx := h % TableSize;
      buckets[idx] := [h] + buckets[idx];
      contents := contents + {h};
    }

    /** check_and_add_visited: true iff h was absent; afterwards h is present. */
    method CheckAndAddVisited(h: Word) returns (added: bool)
      requires Valid()
      modifies this, buckets
      ensures Valid()
      ensures added <==> h !in old(contents)
      ensures contents == old(contents) + {h}
    {
      var found := IsVisited(h);
      if !found {
        AddVisited(h);
      }
      added := !found;
    }
  }

  /** The FIFO queue of states, linked through each state's next pointer in the source. */
  class FifoQueue {
    var items: seq<State>

    constructor()
      ensures items == []
    {
      items := [];
    }

    method Enqueue(s: State)
      modifies this
      ensures items == old(items) + [s]
    {
      items := items + [s];
    }

    /** dequeue: NULL (None) on an empty queue, otherwise the oldest state. */
    method Dequeue() returns (r: Option<State>)
      modifies this
      ensures old(items) == [] ==> r == None && items == []
      ensures old(items) != [] ==> r == Some(old(items)[0]) && items == old(items)[1..]
    {
      if items == [] {
        return None;
      }
      r := Some(items[0]);
      items := items[1..];
    }

    /** Detach the whole list as one level and leave the queue empty. */
    method TakeAll() returns (level: seq<State>)
      modifies this
      ensures level == old(items) && items == []
    {
      level := items;
      items := [];
    }

    /** Splice a worker's local list onto the tail. */
    method Append(local: seq<State>)
      modifies this
      ensures items == old(items) + local
    {
      items := items + local;
    }
  }

  /**
   * The window step for dot d at tile (tx, ty): an empty board tile that
   * touches the dot, whose mirror is an empty board tile or itself.
   */
  predicate WindowExpandable(p: Puzzle, g: Grid, d: int, tx: int, ty: int)
    requires Shaped(g, p.w, p.h)
  {
    0 <= d < |p.dots| && InTileBounds(p.w, p.h, tx, ty) && g[ty][tx] == -1 &&
    TouchesDot(p.dots[d].x, p.dots[d].y, tx, ty) &&
    var t := SymmetricTile(p.dots[d].x, p.dots[d].y, tx, ty);
    (InTileBounds(p.w, p.h, t.0, t.1) && g[t.1][t.0] == -1) || t == (tx, ty)
  }

  /** The move of a window step: (tx, ty), and its mirror, to dot d. */
  function WindowMove(p: Puzzle, g: Grid, d: int, tx: int, ty: int): (m: Move)
    requires Shaped(g, p.w, p.h) && WindowExpandable(p, g, d, tx, ty)
    ensures Legal(p, g, m) && m.symmetricWasEmpty && (m.tx, m.ty, m.d) == (tx, ty, d)
  {
    var t := SymmetricTile(p.dots[d].x, p.dots[d].y, tx, ty);
    Move(tx, ty, d, t.0, t.1, true)
  }

  /** Neighbour-step moves from tile (x, y) when dot d owns it, none otherwise. */
  function DotTileMoves(p: Puzzle, g: Grid, d: int, x: int, y: int): seq<Move>
  {
    if Shaped(g, p.w, p.h) && Owners(g, |p.dots|) && 0 <= d && InTileBounds(p.w, p.h, x, y) && g[y][x] == d
    then TileMoves(p, g, x, y, 4) else []
  }

  /** DotTileMoves of dot d as a function of the tile. */
  function OwnedScan(p: Puzzle, g: Grid, d: int): (int, int) -> seq<Move>
  {
    (x, y) => DotTileMoves(p, g, d, x, y)
  }

  /** The neighbour-step moves of dot d: its tiles in row order, from each right, left, down, up. */
  function OwnedPart(p: Puzzle, g: Grid, d: int): seq<Move>
  {
    Before(OwnedScan(p, g, d), p.w, p.h, 0)
  }

  /** The move of the window step of dot d at tile (tx, ty), when it applies. */
  function WindowStepMoves(p: Puzzle, g: Grid, d: int, tx: int, ty: int): seq<Move>
  {
    if Shaped(g, p.w, p.h) && WindowExpandable(p, g, d, tx, ty) then [WindowMove(p, g, d, tx, ty)] else []
  }

  /**
   * The window of dot d, three tiles by three: cell (i, j) is the tile
   * (CHalf(dx - 1) - 1 + i, CHalf(dy - 1) - 1 + j).
   */
  function WindowScan(p: Puzzle, g: Grid, d: int): (int, int) -> seq<Move>
    requires 0 <= d < |p.dots|
  {
    var ctx, cty := CHalf(p.dots[d].x - 1), CHalf(p.dots[d].y - 1);
    (i, j) => WindowStepMoves(p, g, d, ctx - 1 + i, cty - 1 + j)
  }

  /** The window-step moves of dot d, rows of the window top to bottom, each left to right. */
  function WindowPart(p: Puzzle, g: Grid, d: int): seq<Move>
  {
    if 0 <= d < |p.dots| then Before(WindowScan(p, g, d), 3, 3, 0) else []
  }

  /** Cell (i, j) of the window scan of dot d is the window step at the matching tile. */
  lemma WindowScanAt(p: Puzzle, g: Grid, d: int, i: int, j: int, tx: int, ty: int)
    requires 0 <= d < |p.dots|
    requires tx == CHalf(p.dots[d].x - 1) - 1 + i && ty == CHalf(p.dots[d].y - 1) - 1 + j
    ensures WindowScan(p, g, d)(i, j) == WindowStepMoves(p, g, d, tx, ty)
  {
  }

  /** Everything dot d contributes: its neighbour steps, then its window steps. */
  function DotMoves(p: Puzzle, g: Grid, d: int): seq<Move>
  {
    OwnedPart(p, g, d) + WindowPart(p, g, d)
  }

  /** DotMoves as a function of the dot, on a single row. */
  function DotScan(p: Puzzle, g: Grid): (int, int) -> seq<Move>
  {
    (d, j) => DotMoves(p, g, d)
  }

  /** Every move the expansion of a state with grid g makes, dot by dot, in the source's order. */
  function StateMoves(p: Puzzle, g: Grid): seq<Move>
  {
    Before(DotScan(p, g), |p.dots|, 0, |p.dots|)
  }

  /** Every child the expansion of s builds, in order, duplicates included. */
  function Expansion(p: Puzzle, z: Table, s: State): seq<State>
  {
    States(p, z, s, StateMoves(p, s.cells))
  }

  /** One more cell of a scan: what its list adds, against the grown seen set. */
  lemma CellAdvance(p: Puzzle, z: Table, s: State, f: (int, int) -> seq<Move>, w: int, y: int, x: int,
                    v0: set<Word>, q0: seq<State>, qb: seq<State>, vb: set<Word>, q: seq<State>, v: set<Word>)
    requires 0 <= x
    requires qb == q0 + Unseen(States(p, z, s, Before(f, w, y, x)), v0) && vb == v0 + Hashes(States(p, z, s, Before(f, w, y, x)))
    requires q == qb + Unseen(States(p, z, s, f(x, y)), vb) && v == vb + Hashes(States(p, z, s, f(x, y)))
    ensures q == q0 + Unseen(States(p, z, s, Before(f, w, y, x + 1)), v0)
    ensures v == v0 + Hashes(States(p, z, s, Before(f, w, y, x + 1)))
  {
    assert Before(f, w, y, x + 1) == Before(f, w, y, x) + f(x, y);
    MovesChain(p, z, s, Before(f, w, y, x), f(x, y), Before(f, w, y, x + 1), v0, q0, qb, vb, q, v);
  }

  /** Nothing was added: the lists stay as they were. */
  lemma NothingAdded(p: Puzzle, z: Table, s: State, ms: seq<Move>, q0: seq<State>, v0: set<Word>)
    requires ms == []
    ensures q0 == q0 + Unseen(States(p, z, s, ms), v0) && v0 == v0 + Hashes(States(p, z, s, ms))
  {
    assert States(p, z, s, ms) == [];
    assert q0 + [] == q0;
  }

  /** A dot's neighbour steps and then its window steps extend the scan by one dot. */
  lemma DotAdvance(p: Puzzle, z: Table, s: State, d: int, v0: set<Word>, q0: seq<State>,
                   qb: seq<State>, vb: set<Word>, q1: seq<State>, v1: set<Word>, q: seq<State>, v: set<Word>)
    requires 0 <= d
    requires qb == q0 + Unseen(States(p, z, s, Before(DotScan(p, s.cells), |p.dots|, 0, d)), v0)
    requires vb == v0 + Hashes(States(p, z, s, Before(DotScan(p, s.cells), |p.dots|, 0, d)))
    requires q1 == qb + Unseen(States(p, z, s, OwnedPart(p, s.cells, d)), vb)
    requires v1 == vb + Hashes(States(p, z, s, OwnedPart(p, s.cells, d)))
    requires q == q1 + Unseen(States(p, z, s, WindowPart(p, s.cells, d)), v1)
    requires v == v1 + Hashes(States(p, z, s, WindowPart(p, s.cells, d)))
    ensures q == q0 + Unseen(States(p, z, s, Before(DotScan(p, s.cells), |p.dots|, 0, d + 1)), v0)
    ensures v == v0 + Hashes(States(p, z, s, Before(DotScan(p, s.cells), |p.dots|, 0, d + 1)))
  {
    var g := s.cells;
    var a := Before(DotScan(p, g), |p.dots|, 0, d);
    var o, wp := OwnedPart(p, g, d), WindowPart(p, g, d);
    MovesChain(p, z, s, a, o, a + o, v0, q0, qb, vb, q1, v1);
    MovesChain(p, z, s, a + o, wp, a + o + wp, v0, q0, q1, v1, q, v);
    ConcatAssoc(a, o, wp);
    assert Before(DotScan(p, g), |p.dots|, 0, d + 1) == a + DotMoves(p, g, d);
  }

  /** Every neighbour-step move of dot d is legal. */
  lemma OwnedPartLegal(p: Puzzle, g: Grid, d: int)
    requires Shaped(g, p.w, p.h) && Owners(g, |p.dots|)
    ensures forall m :: m in OwnedPart(p, g, d) ==> Legal(p, g, m)
  {
    forall m | m in OwnedPart(p, g, d) ensures Legal(p, g, m) {
      var i, r := BeforeHas(OwnedScan(p, g, d), p.w, p.h, 0, m);
      TileMovesLegal(p, g, i, r, 4);
    }
  }

  /** The move of every neighbour step that applies from a tile of dot d is among its moves. */
  lemma OwnedPartCover(p: Puzzle, g: Grid, d: int, x: int, y: int, k: int)
    requires Shaped(g, p.w, p.h) && Owners(g, |p.dots|) && 0 <= d && 0 <= k < 4
    requires InTileBounds(p.w, p.h, x, y) && g[y][x] == d && Expandable(p, g, x, y, k)
    ensures ChildMove(p, g, x, y, k) in OwnedPart(p, g, d)
  {
    var f := OwnedScan(p, g, d);
    TileMovesCover(p, g, x, y, 4, k);
    assert ChildMove(p, g, x, y, k) in f(x, y);
    assert Before(f, p.w, y, x + 1) == Before(f, p.w, y, x) + f(x, y);
    var rest := BeforePrefix(f, p.w, y, x + 1, p.h, 0);
    assert ChildMove(p, g, x, y, k) in Before(f, p.w, y, x + 1);
  }

  /** Every window-step move of dot d is legal. */
  lemma WindowPartLegal(p: Puzzle, g: Grid, d: int)
    requires Shaped(g, p.w, p.h)
    ensures forall m :: m in WindowPart(p, g, d) ==> Legal(p, g, m)
  {
    if 0 <= d < |p.dots| {
      forall m | m in WindowPart(p, g, d) ensures Legal(p, g, m) {
        var i, j := BeforeHas(WindowScan(p, g, d), 3, 3, 0, m);
        var ctx, cty := CHalf(p.dots[d].x - 1), CHalf(p.dots[d].y - 1);
        WindowScanAt(p, g, d, i, j, ctx - 1 + i, cty - 1 + j);
      }
    }
  }

  /** The move of every window step of dot d that applies is among its moves. */
  lemma WindowPartCover(p: Puzzle, g: Grid, d: int, tx: int, ty: int)
    requires Shaped(g, p.w, p.h) && 0 <= d < |p.dots| && WindowExpandable(p, g, d, tx, ty)
    ensures WindowMove(p, g, d, tx, ty) in WindowPart(p, g, d)
  {
    var f := WindowScan(p, g, d);
    var ctx, cty := CHalf(p.dots[d].x - 1), CHalf(p.dots[d].y - 1);
    TouchingTilesInWindow(p.dots[d].x, p.dots[d].y, tx, ty);
    var i, j := tx - (ctx - 1), ty - (cty - 1);
    WindowScanAt(p, g, d, i, j, tx, ty);
    assert f(i, j) == [WindowMove(p, g, d, tx, ty)];
    assert Before(f, 3, j, i + 1) == Before(f, 3, j, i) + f(i, j);
    var rest := BeforePrefix(f, 3, j, i + 1, 3, 0);
    assert WindowMove(p, g, d, tx, ty) in Before(f, 3, j, i + 1);
  }

  /**
   * When out and the visited set have grown by the new children of legal
   * moves ms, out is still queued, it grew by as many states as hashes were
   * recorded, and the child of every move in ms is recorded.
   */
  lemma MovesQueued(p: Puzzle, z: Table, seed: Grid, s: State, ms: seq<Move>,
                    v0: set<Word>, q0: seq<State>, q: seq<State>, v: set<Word>)
    requires Reached(p, z, seed, s) && Queued(p, z, seed, q0, v0)
    requires forall m :: m in ms ==> Legal(p, s.cells, m)
    requires q == q0 + Unseen(States(p, z, s, ms), v0) && v == v0 + Hashes(States(p, z, s, ms))
    ensures Queued(p, z, seed, q, v) && v0 <= v && |q0| <= |q| && |v| - |v0| == |q| - |q0|
    ensures forall m :: m in ms && Legal(p, s.cells, m) ==> Applied(s, m, z, p.w).hash in v
  {
    StatesReached(p, z, seed, s, ms);
    UnseenQueued(p, z, seed, States(p, z, s, ms), v0, q0, q, v);
    forall m | m in ms ensures Applied(s, m, z, p.w).hash in v {
      MoveCovered(p, z, s, m, ms);
    }
  }

  /**
   * Offer a child to the visited table: when its hash is new it is recorded
   * and the child is appended to out.
   */
  method Offer(p: Puzzle, z: Table, table: VisitedTable, ghost seed: Grid, out0: seq<State>, next: State)
      returns (out: seq<State>)
    requires table.Valid() && Reached(p, z, seed, next) && Queued(p, z, seed, out0, table.contents)
    modifies table, table.buckets
    ensures table.Valid() && table.contents == old(table.contents) + {next.hash}
    ensures out == if next.hash in old(table.contents) then out0 else out0 + [next]
    ensures Queued(p, z, seed, out, table.contents) && Grew(table, out0, out)
  {
    AddHash(table.contents, next.hash);
    var added := table.CheckAndAddVisited(next.hash);
    out := out0;
    if added {
      QueuedPush(p, z, seed, out, table.contents, next);
      out := out + [next];
    }
  }

  /** Offer the child of s by the legal move m, when there is one. */
  method OfferChild(p: Puzzle, z: Table, table: VisitedTable, ghost seed: Grid, s: State, ghost m: Move,
                    c: Option<State>, out0: seq<State>) returns (out: seq<State>)
    requires table.Valid() && Reached(p, z, seed, s) && Queued(p, z, seed, out0, table.contents)
    requires c.Some? ==> Legal(p, s.cells, m) && c.value == Applied(s, m, z, p.w)
    modifies table, table.buckets
    ensures table.Valid() && Queued(p, z, seed, out, table.contents) && Grew(table, out0, out)
    ensures c.Some? ==> c.value.hash in table.contents
    ensures c.Some? ==> out == out0 + Unseen([c.value], old(table.contents)) &&
                        table.contents == old(table.contents) + Hashes([c.value])
    ensures c.None? ==> out == out0 && table.contents == old(table.contents)
  {
    out := out0;
    if c.Some? {
      ChildReached(p, z, seed, s, m);
      UnseenOne(c.value, table.contents);
      out := Offer(p, z, table, seed, out, c.value);
    }
  }

  /** What every expansion method keeps: out extends by exactly the new hashes recorded. */
  twostate predicate Grew(table: VisitedTable, out0: seq<State>, out: seq<State>)
    reads table
  {
    old(table.contents) <= table.contents && |out0| <= |out| &&
    |table.contents| - |old(table.contents)| == |out| - |out0|
  }

  /** The child of a neighbour step, if the step applies (is_valid_tile on n, then the mirror test). */
  method NeighbourChild(p: Puzzle, z: Table, s: State, x: int, y: int, k: int) returns (c: Option<State>)
    requires Shaped(s.cells, p.w, p.h) && Owners(s.cells, |p.dots|)
    requires InTileBounds(p.w, p.h, x, y) && s.cells[y][x] != -1 && 0 <= k < 4
    ensures c.Some? <==> Expandable(p, s.cells, x, y, k)
    ensures c.Some? ==> c.value == Applied(s, ChildMove(p, s.cells, x, y, k), z, p.w)
  {
    var d := s.cells[y][x];
    var nx, ny := x + Dirs[k].0, y + Dirs[k].1;
    if !(0 <= nx < p.w && 0 <= ny < p.h && s.cells[ny][nx] == -1) {
      return None;
    }
    var sx, sy := GetSymmetricTile(p.dots[d].x, p.dots[d].y, nx, ny);
    if !((0 <= sx < p.w && 0 <= sy < p.h && s.cells[sy][sx] == -1) || (nx == sx && ny == sy)) {
      return None;
    }
    var next := Child(s, z, p.w, p.h, nx, ny, d, sx, sy);
    return Some(next);
  }

  /** The child of a window step, if the step applies (is_valid_tile and touches_dot, then the mirror test). */
  method WindowChild(p: Puzzle, z: Table, s: State, d: int, tx: int, ty: int) returns (c: Option<State>)
    requires Shaped(s.cells, p.w, p.h) && 0 <= d < |p.dots|
    ensures c.Some? <==> WindowExpandable(p, s.cells, d, tx, ty)
    ensures c.Some? ==> c.value == Applied(s, WindowMove(p, s.cells, d, tx, ty), z, p.w)
  {
    var dx, dy := p.dots[d].x, p.dots[d].y;
    if !(0 <= tx < p.w && 0 <= ty < p.h && s.cells[ty][tx] == -1 && Abs(tx * 2 + 1 - dx) <= 1 && Abs(ty * 2 + 1 - dy) <= 1) {
      return None;
    }
    var sx, sy := GetSymmetricTile(dx, dy, tx, ty);
    if !((0 <= sx < p.w && 0 <= sy < p.h && s.cells[sy][sx] == -1) || (tx == sx && ty == sy)) {
      return None;
    }
    var next := Child(s, z, p.w, p.h, tx, ty, d, sx, sy);
    return Some(next);
  }

  /** One neighbour step from tile (x, y) in direction k. */
  method NeighbourStep(p: Puzzle, z: Table, table: VisitedTable, ghost seed: Grid, s: State,
                       x: int, y: int, k: int, out0: seq<State>) returns (out: seq<State>)
    requires table.Valid() && Reached(p, z, seed, s) && Queued(p, z, seed, out0, table.contents)
    requires InTileBounds(p.w, p.h, x, y) && s.cells[y][x] != -1 && 0 <= k < 4
    modifies table, table.buckets
    ensures table.Valid() && Queued(p, z, seed, out, table.contents) && Grew(table, out0, out)
    ensures Expandable(p, s.cells, x, y, k) ==> Applied(s, ChildMove(p, s.cells, x, y, k), z, p.w).hash in table.contents
    ensures out == out0 + Unseen(States(p, z, s, StepMoves(p, s.cells, x, y, k)), old(table.contents))
    ensures table.contents == old(table.contents) + Hashes(States(p, z, s, StepMoves(p, s.cells, x, y, k)))
  {
    var c := NeighbourChild(p, z, s, x, y, k);
    ghost var m := if c.Some? then ChildMove(p, s.cells, x, y, k) else Move(x, y, 0, x, y, true);
    ghost var v0 := table.contents;
    out := OfferChild(p, z, table, seed, s, m, c, out0);
    if c.Some? {
      assert States(p, z, s, StepMoves(p, s.cells, x, y, k)) == [c.value];
    } else {
      NothingAdded(p, z, s, StepMoves(p, s.cells, x, y, k), out0, v0);
    }
  }

  /** One window step for dot d at tile (tx, ty). */
  method WindowStep(p: Puzzle, z: Table, table: VisitedTable, ghost seed: Grid, s: State,
                    d: int, tx: int, ty: int, out0: seq<State>) returns (out: seq<State>)
    requires table.Valid() && Reached(p, z, seed, s) && Queued(p, z, seed, out0, table.contents)
    requires 0 <= d < |p.dots|
    modifies table, table.buckets
    ensures table.Valid() && Queued(p, z, seed, out, table.contents) && Grew(table, out0, out)
    ensures WindowExpandable(p, s.cells, d, tx, ty) ==>
              Applied(s, WindowMove(p, s.cells, d, tx, ty), z, p.w).hash in table.contents
    ensures out == out0 + Unseen(States(p, z, s, WindowStepMoves(p, s.cells, d, tx, ty)), old(table.contents))
    ensures table.contents == old(table.contents) + Hashes(States(p, z, s, WindowStepMoves(p, s.cells, d, tx, ty)))
  {
    var c := WindowChild(p, z, s, d, tx, ty);
    ghost var m := if c.Some? then WindowMove(p, s.cells, d, tx, ty) else Move(tx, ty, d, tx, ty, true);
    ghost var v0 := table.contents;
    out := OfferChild(p, z, table, seed, s, m, c, out0);
    if c.Some? {
      assert States(p, z, s, WindowStepMoves(p, s.cells, d, tx, ty)) == [c.value];
    } else {
      NothingAdded(p, z, s, WindowStepMoves(p, s.cells, d, tx, ty), out0, v0);
    }
  }

  /** Every neighbour step from tiles of dot d, and every window step of d, is recorded. */
  ghost predicate DotExpanded(p: Puzzle, z: Table, s: State, d: int, seen: set<Word>)
    requires Shaped(s.cells, p.w, p.h) && Owners(s.cells, |p.dots|)
  {
    (forall x, y, k :: (0 <= k < 4 && InTileBounds(p.w, p.h, x, y) && s.cells[y][x] == d && Expandable(p, s.cells, x, y, k)) ==>
       Applied(s, ChildMove(p, s.cells, x, y, k), z, p.w).hash in seen) &&
    (forall tx, ty :: WindowExpandable(p, s.cells, d, tx, ty) ==>
       Applied(s, WindowMove(p, s.cells, d, tx, ty), z, p.w).hash in seen)
  }

  /**
   * The expansion of one state: for every dot, the neighbour steps from its
   * tiles and then the window steps around it.  Afterwards every child of
   * either kind has its hash recorded, and out has gained exactly the
   * children of Expansion whose hashes were not yet seen, the first of
   * each hash only, in the order they are generated.
   */
  method ExpandState(p: Puzzle, z: Table, table: VisitedTable, ghost seed: Grid, s: State, out0: seq<State>)
      returns (out: seq<State>)
    requires table.Valid() && Reached(p, z, seed, s) && Queued(p, z, seed, out0, table.contents)
    modifies table, table.buckets
    ensures table.Valid() && Queued(p, z, seed, out, table.contents) && Grew(table, out0, out)
    ensures forall d :: 0 <= d < |p.dots| ==> DotExpanded(p, z, s, d, table.contents)
    ensures out == out0 + Unseen(Expansion(p, z, s), old(table.contents))
    ensures table.contents == old(table.contents) + Hashes(Expansion(p, z, s))
  {
    ghost var g, v0 := s.cells, table.contents;
    out := out0;
    var d := 0;
    while d < |p.dots|
      invariant 0 <= d <= |p.dots|
      invariant table.Valid() && Queued(p, z, seed, out, table.contents) && Grew(table, out0, out)
      invariant out == out0 + Unseen(States(p, z, s, Before(DotScan(p, g), |p.dots|, 0, d)), v0)
      invariant table.contents == v0 + Hashes(States(p, z, s, Before(DotScan(p, g), |p.dots|, 0, d)))
    {
      out := ExpandDot(p, z, table, seed, s, d, v0, out0, out);
      d := d + 1;
    }
    ExpansionCovers(p, z, s, table.contents);
  }

  /** Dot d of ExpandState: its neighbour steps, then its window steps. */
  method ExpandDot(p: Puzzle, z: Table, table: VisitedTable, ghost seed: Grid, s: State, d: int,
                   ghost v0: set<Word>, ghost out0: seq<State>, outd: seq<State>) returns (out: seq<State>)
    requires table.Valid() && Reached(p, z, seed, s) && Queued(p, z, seed, outd, table.contents) && 0 <= d < |p.dots|
    requires outd == out0 + Unseen(States(p, z, s, Before(DotScan(p, s.cells), |p.dots|, 0, d)), v0)
    requires table.contents == v0 + Hashes(States(p, z, s, Before(DotScan(p, s.cells), |p.dots|, 0, d)))
    modifies table, table.buckets
    ensures table.Valid() && Queued(p, z, seed, out, table.contents) && Grew(table, outd, out)
    ensures out == out0 + Unseen(States(p, z, s, Before(DotScan(p, s.cells), |p.dots|, 0, d + 1)), v0)
    ensures table.contents == v0 + Hashes(States(p, z, s, Before(DotScan(p, s.cells), |p.dots|, 0, d + 1)))
  {
    ghost var vb := table.contents;
    out := ExpandOwned(p, z, table, seed, s, d, outd);
    ghost var o1, v1 := out, table.contents;
    out := ExpandWindow(p, z, table, seed, s, d, out);
    DotAdvance(p, z, s, d, v0, out0, outd, vb, o1, v1, out, table.contents);
  }

  /** The moves of dot d are among the moves of the whole expansion. */
  lemma DotMovesInState(p: Puzzle, g: Grid, d: int)
    requires 0 <= d < |p.dots|
    ensures forall m :: m in DotMoves(p, g, d) ==> m in StateMoves(p, g)
  {
    var f := DotScan(p, g);
    assert Before(f, |p.dots|, 0, d + 1) == Before(f, |p.dots|, 0, d) + f(d, 0);
    var rest := BeforePrefix(f, |p.dots|, 0, d + 1, 0, |p.dots|);
  }

  /** Every move of the expansion is legal, so every child it builds from a reached state is reached. */
  lemma ExpansionReached(p: Puzzle, z: Table, seed: Grid, s: State)
    requires Reached(p, z, seed, s)
    ensures forall c :: c in Expansion(p, z, s) ==> Reached(p, z, seed, c)
  {
    var g := s.cells;
    forall m | m in StateMoves(p, g) ensures Legal(p, g, m) {
      var d, r := BeforeHas(DotScan(p, g), |p.dots|, 0, |p.dots|, m);
      OwnedPartLegal(p, g, d);
      WindowPartLegal(p, g, d);
    }
    StatesReached(p, z, seed, s, StateMoves(p, g));
  }

  /** Once the hashes of the whole expansion are recorded, every dot is expanded. */
  lemma ExpansionCovers(p: Puzzle, z: Table, s: State, seen: set<Word>)
    requires Shaped(s.cells, p.w, p.h) && Owners(s.cells, |p.dots|)
    requires Hashes(Expansion(p, z, s)) <= seen
    ensures forall d :: 0 <= d < |p.dots| ==> DotExpanded(p, z, s, d, seen)
  {
    var g := s.cells;
    forall d | 0 <= d < |p.dots| ensures DotExpanded(p, z, s, d, seen) {
      DotMovesInState(p, g, d);
      forall x, y, k | 0 <= k < 4 && InTileBounds(p.w, p.h, x, y) && g[y][x] == d && Expandable(p, g, x, y, k)
        ensures Applied(s, ChildMove(p, g, x, y, k), z, p.w).hash in seen
      {
        OwnedPartCover(p, g, d, x, y, k);
        MoveCovered(p, z, s, ChildMove(p, g, x, y, k), StateMoves(p, g));
      }
      forall tx, ty | WindowExpandable(p, g, d, tx, ty)
        ensures Applied(s, WindowMove(p, g, d, tx, ty), z, p.w).hash in seen
      {
        WindowPartCover(p, g, d, tx, ty);
        MoveCovered(p, z, s, WindowMove(p, g, d, tx, ty), StateMoves(p, g));
      }
    }
  }

  /** The neighbour steps from every tile of dot d, in row order, right, left, down, up. */
  method ExpandOwned(p: Puzzle, z: Table, table: VisitedTable, ghost seed: Grid, s: State, d: int, out0: seq<State>)
      returns (out: seq<State>)
    requires table.Valid() && Reached(p, z, seed, s) && Queued(p, z, seed, out0, table.contents) && 0 <= d < |p.dots|
    modifies table, table.buckets
    ensures table.Valid() && Queued(p, z, seed, out, table.contents) && Grew(table, out0, out)
    ensures forall x, y, k :: (0 <= k < 4 && InTileBounds(p.w, p.h, x, y) && s.cells[y][x] == d && Expandable(p, s.cells, x, y, k)) ==>
              Applied(s, ChildMove(p, s.cells, x, y, k), z, p.w).hash in table.contents
    ensures out == out0 + Unseen(States(p, z, s, OwnedPart(p, s.cells, d)), old(table.contents))
    ensures table.contents == old(table.contents) + Hashes(States(p, z, s, OwnedPart(p, s.cells, d)))
  {
    ghost var g, v0 := s.cells, table.contents;
    ghost var f := OwnedScan(p, g, d);
    out := out0;
    var y := 0;
    while y < p.h
      invariant 0 <= y <= p.h
      invariant table.Valid() && Queued(p, z, seed, out, table.contents)
      invariant out == out0 + Unseen(States(p, z, s, Before(f, p.w, y, 0)), v0)
      invariant table.contents == v0 + Hashes(States(p, z, s, Before(f, p.w, y, 0)))
    {
      out := OwnedRow(p, z, table, seed, s, d, y, v0, out0, out);
      BeforeRowEnd(f, p.w, y);
      y := y + 1;
    }
    OwnedPartLegal(p, g, d);
    MovesQueued(p, z, seed, s, OwnedPart(p, g, d), v0, out0, out, table.contents);
    forall x, y, k | 0 <= k < 4 && InTileBounds(p.w, p.h, x, y) && g[y][x] == d && Expandable(p, g, x, y, k)
      ensures Applied(s, ChildMove(p, g, x, y, k), z, p.w).hash in table.contents
    {
      OwnedPartCover(p, g, d, x, y, k);
    }
  }

  /** Row y of ExpandOwned: the neighbour steps from the tiles of dot d in that row, left to right. */
  method OwnedRow(p: Puzzle, z: Table, table: VisitedTable, ghost seed: Grid, s: State, d: int, y: int,
                  ghost v0: set<Word>, ghost out0: seq<State>, outy: seq<State>) returns (out: seq<State>)
    requires table.Valid() && Reached(p, z, seed, s) && Queued(p, z, seed, outy, table.contents)
    requires 0 <= d < |p.dots| && 0 <= y < p.h
    requires outy == out0 + Unseen(States(p, z, s, Before(OwnedScan(p, s.cells, d), p.w, y, 0)), v0)
    requires table.contents == v0 + Hashes(States(p, z, s, Before(OwnedScan(p, s.cells, d), p.w, y, 0)))
    modifies table, table.buckets
    ensures table.Valid() && Queued(p, z, seed, out, table.contents)
    ensures out == out0 + Unseen(States(p, z, s, Before(OwnedScan(p, s.cells, d), p.w, y, p.w)), v0)
    ensures table.contents == v0 + Hashes(States(p, z, s, Before(OwnedScan(p, s.cells, d), p.w, y, p.w)))
  {
    ghost var f := OwnedScan(p, s.cells, d);
    assert |s.cells[y]| == p.w;
    out := outy;
    var x := 0;
    while x < p.w
      invariant 0 <= x <= p.w
      invariant table.Valid() && Queued(p, z, seed, out, table.contents)
      invariant out == out0 + Unseen(States(p, z, s, Before(f, p.w, y, x)), v0)
      invariant table.contents == v0 + Hashes(States(p, z, s, Before(f, p.w, y, x)))
    {
      out := OwnedCell(p, z, table, seed, s, d, x, y, v0, out0, out);
      x := x + 1;
    }
  }

  /** Tile (x, y) of ExpandOwned: its neighbour steps when dot d owns it, nothing otherwise. */
  method OwnedCell(p: Puzzle, z: Table, table: VisitedTable, ghost seed: Grid, s: State, d: int, x: int, y: int,
                   ghost v0: set<Word>, ghost out0: seq<State>, outb: seq<State>) returns (out: seq<State>)
    requires table.Valid() && Reached(p, z, seed, s) && Queued(p, z, seed, outb, table.contents)
    requires 0 <= d < |p.dots| && InTileBounds(p.w, p.h, x, y)
    requires outb == out0 + Unseen(States(p, z, s, Before(OwnedScan(p, s.cells, d), p.w, y, x)), v0)
    requires table.contents == v0 + Hashes(States(p, z, s, Before(OwnedScan(p, s.cells, d), p.w, y, x)))
    modifies table, table.buckets
    ensures table.Valid() && Queued(p, z, seed, out, table.contents)
    ensures out == out0 + Unseen(States(p, z, s, Before(OwnedScan(p, s.cells, d), p.w, y, x + 1)), v0)
    ensures table.contents == v0 + Hashes(States(p, z, s, Before(OwnedScan(p, s.cells, d), p.w, y, x + 1)))
  {
    ghost var f := OwnedScan(p, s.cells, d);
    ghost var vb := table.contents;
    if s.cells[y][x] == d {
      out := NeighbourSteps(p, z, table, seed, s, x, y, outb);
    } else {
      out := outb;
      assert f(x, y) == [];
      NothingAdded(p, z, s, f(x, y), out, table.contents);
    }
    CellAdvance(p, z, s, f, p.w, y, x, v0, out0, outb, vb, out, table.contents);
  }

  /** The four neighbour steps from tile (x, y). */
  method NeighbourSteps(p: Puzzle, z: Table, table: VisitedTable, ghost seed: Grid, s: State, x: int, y: int, out0: seq<State>)
      returns (out: seq<State>)
    requires table.Valid() && Reached(p, z, seed, s) && Queued(p, z, seed, out0, table.contents)
    requires InTileBounds(p.w, p.h, x, y) && s.cells[y][x] != -1
    modifies table, table.buckets
    ensures table.Valid() && Queued(p, z, seed, out, table.contents) && Grew(table, out0, out)
    ensures forall k :: 0 <= k < 4 && Expandable(p, s.cells, x, y, k) ==>
              Applied(s, ChildMove(p, s.cells, x, y, k), z, p.w).hash in table.contents
    ensures out == out0 + Unseen(States(p, z, s, TileMoves(p, s.cells, x, y, 4)), old(table.contents))
    ensures table.contents == old(table.contents) + Hashes(States(p, z, s, TileMoves(p, s.cells, x, y, 4)))
  {
    ghost var g, v0 := s.cells, table.contents;
    out := out0;
    var k := 0;
    while k < 4
      invariant 0 <= k <= 4
      invariant table.Valid() && Queued(p, z, seed, out, table.contents)
      invariant out == out0 + Unseen(States(p, z, s, TileMoves(p, g, x, y, k)), v0)
      invariant table.contents == v0 + Hashes(States(p, z, s, TileMoves(p, g, x, y, k)))
    {
      ghost var ob, vb := out, table.contents;
      out := NeighbourStep(p, z, table, seed, s, x, y, k, out);
      MovesChain(p, z, s, TileMoves(p, g, x, y, k), StepMoves(p, g, x, y, k), TileMoves(p, g, x, y, k + 1),
                 v0, out0, ob, vb, out, table.contents);
      k := k + 1;
    }
    TileMovesLegal(p, g, x, y, 4);
    MovesQueued(p, z, seed, s, TileMoves(p, g, x, y, 4), v0, out0, out, table.contents);
    forall k | 0 <= k < 4 && Expandable(p, g, x, y, k)
      ensures Applied(s, ChildMove(p, g, x, y, k), z, p.w).hash in table.contents
    {
      TileMovesCover(p, g, x, y, 4, k);
    }
  }

  /**
   * The window steps of dot d over the 3x3 tiles around
   * (CHalf(dx-1), CHalf(dy-1)).  The source runs this scan in both
   * branches of its has_tiles test, with the same code, so it is modelled
   * once.  Every tile touching the dot lies in the window.
   */
  method ExpandWindow(p: Puzzle, z: Table, table: VisitedTable, ghost seed: Grid, s: State, d: int, out0: seq<State>)
      returns (out: seq<State>)
    requires table.Valid() && Reached(p, z, seed, s) && Queued(p, z, seed, out0, table.contents) && 0 <= d < |p.dots|
    modifies table, table.buckets
    ensures table.Valid() && Queued(p, z, seed, out, table.contents) && Grew(table, out0, out)
    ensures forall tx, ty :: WindowExpandable(p, s.cells, d, tx, ty) ==>
              Applied(s, WindowMove(p, s.cells, d, tx, ty), z, p.w).hash in table.contents
    ensures out == out0 + Unseen(States(p, z, s, WindowPart(p, s.cells, d)), old(table.contents))
    ensures table.contents == old(table.contents) + Hashes(States(p, z, s, WindowPart(p, s.cells, d)))
  {
    ghost var g, v0 := s.cells, table.contents;
    ghost var f := WindowScan(p, g, d);
    out := out0;
    var cty := CHalf(p.dots[d].y - 1);
    var ty := cty - 1;
    while ty <= cty + 1
      invariant cty - 1 <= ty <= cty + 2
      invariant table.Valid() && Queued(p, z, seed, out, table.contents)
      invariant out == out0 + Unseen(States(p, z, s, Before(f, 3, ty - (cty - 1), 0)), v0)
      invariant table.contents == v0 + Hashes(States(p, z, s, Before(f, 3, ty - (cty - 1), 0)))
    {
      out := WindowRow(p, z, table, seed, s, d, ty, ty - (cty - 1), v0, out0, out);
      BeforeRowEnd(f, 3, ty - (cty - 1));
      ty := ty + 1;
    }
    WindowPartLegal(p, g, d);
    MovesQueued(p, z, seed, s, WindowPart(p, g, d), v0, out0, out, table.contents);
    forall tx', ty' | WindowExpandable(p, g, d, tx', ty')
      ensures Applied(s, WindowMove(p, g, d, tx', ty'), z, p.w).hash in table.contents
    {
      WindowPartCover(p, g, d, tx', ty');
    }
  }

  /** Tile (tx, ty) of the window of dot d in ExpandWindow. */
  method WindowCell(p: Puzzle, z: Table, table: VisitedTable, ghost seed: Grid, s: State, d: int, tx: int, ty: int,
                    ghost i: int, ghost j: int, ghost v0: set<Word>, ghost out0: seq<State>, outb: seq<State>)
      returns (out: seq<State>)
    requires table.Valid() && Reached(p, z, seed, s) && Queued(p, z, seed, outb, table.contents) && 0 <= d < |p.dots|
    requires tx == CHalf(p.dots[d].x - 1) - 1 + i && ty == CHalf(p.dots[d].y - 1) - 1 + j && 0 <= i
    requires outb == out0 + Unseen(States(p, z, s, Before(WindowScan(p, s.cells, d), 3, j, i)), v0)
    requires table.contents == v0 + Hashes(States(p, z, s, Before(WindowScan(p, s.cells, d), 3, j, i)))
    modifies table, table.buckets
    ensures table.Valid() && Queued(p, z, seed, out, table.contents)
    ensures out == out0 + Unseen(States(p, z, s, Before(WindowScan(p, s.cells, d), 3, j, i + 1)), v0)
    ensures table.contents == v0 + Hashes(States(p, z, s, Before(WindowScan(p, s.cells, d), 3, j, i + 1)))
  {
    ghost var vb := table.contents;
    out := WindowStep(p, z, table, seed, s, d, tx, ty, outb);
    WindowScanAt(p, s.cells, d, i, j, tx, ty);
    CellAdvance(p, z, s, WindowScan(p, s.cells, d), 3, j, i, v0, out0, outb, vb, out, table.contents);
  }

  /** Row ty of the window of dot d, left to right. */
  method WindowRow(p: Puzzle, z: Table, table: VisitedTable, ghost seed: Grid, s: State, d: int, ty: int,
                   ghost j: int, ghost v0: set<Word>, ghost out0: seq<State>, outy: seq<State>)
      returns (out: seq<State>)
    requires table.Valid() && Reached(p, z, seed, s) && Queued(p, z, seed, outy, table.contents) && 0 <= d < |p.dots|
    requires ty == CHalf(p.dots[d].y - 1) - 1 + j && 0 <= j
    requires outy == out0 + Unseen(States(p, z, s, Before(WindowScan(p, s.cells, d), 3, j, 0)), v0)
    requires table.contents == v0 + Hashes(States(p, z, s, Before(WindowScan(p, s.cells, d), 3, j, 0)))
    modifies table, table.buckets
    ensures table.Valid() && Queued(p, z, seed, out, table.contents)
    ensures out == out0 + Unseen(States(p, z, s, Before(WindowScan(p, s.cells, d), 3, j, 3)), v0)
    ensures table.contents == v0 + Hashes(States(p, z, s, Before(WindowScan(p, s.cells, d), 3, j, 3)))
  {
    ghost var f := WindowScan(p, s.cells, d);
    var ctx := CHalf(p.dots[d].x - 1);
    out := outy;
    var tx := ctx - 1;
    while tx <= ctx + 1
      invariant ctx - 1 <= tx <= ctx + 2
      invariant table.Valid() && Queued(p, z, seed, out, table.contents)
      invariant out == out0 + Unseen(States(p, z, s, Before(f, 3, j, tx - (ctx - 1))), v0)
      invariant table.contents == v0 + Hashes(States(p, z, s, Before(f, 3, j, tx - (ctx - 1))))
    {
      out := WindowCell(p, z, table, seed, s, d, tx, ty, tx - (ctx - 1), j, v0, out0, out);
      tx := tx + 1;
    }
  }
}
