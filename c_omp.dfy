/**
 * solve of solver/openmp_solver.c: the search goes level by level; each
 * level is detached from the queue into an array, its states are processed
 * by the worksharing loop into a worker-local list, and the lists are
 * spliced back onto the emptied queue.  Modelled with one worker taking
 * every iteration in order.
 */
module COmp {

  import opened Words
  import opened Tiles
  import opened Boards
  import opened SeqBfs
  import opened CSearch

  method Solve(p: Puzzle, z: Table) returns (r: Outcome)
    requires Fitting(p)
    ensures r == Overlap <==> !CentresDistinct(p, |p.dots|)
    ensures r.Solved? ==> Shaped(r.state.cells, p.w, p.h) && Goal(p, r.state) && Symmetric(p, r.state.cells)
    ensures r.Solved? ==> Consistent(r.state, z, p.w) && Extends(CSeedDots(p, z, |p.dots|).1.cells, r.state.cells)
  {
    var table := new VisitedTable();
    var queue := new FifoQueue();
    var ok, initial := SeedCentres(p, z);
    CSeedOutcome(p, z, |p.dots|);
    if !ok {
      return Overlap;
    }
    CSeedSymmetric(p, z);
    ghost var seed := initial.cells;
    queue.Enqueue(initial);
    var _ := table.CheckAndAddVisited(initial.hash);
    assert Queued(p, z, seed, queue.items, table.contents) by {
      assert queue.items == [initial];
    }
    var found := false;
    var solution := initial;
    while |queue.items| > 0 && !found
      invariant table.Valid() && Queued(p, z, seed, queue.items, table.contents)
      invariant found ==> Reached(p, z, seed, solution) && Goal(p, solution)
      decreases HashSpace - |table.contents|, |queue.items|
    {
      HashSetBound(table.contents);
      found, solution := RunLevel(p, z, table, queue, seed, solution);
    }
    if found {
      return Solved(solution);
    }
    return NoSolution;
  }

  /**
   * One pass of the level loop: detach the queue as a level, process it,
   * and splice the local list back onto the emptied queue.  The queue then
   * holds the new children of the level, and every one of them is counted
   * in the seen set, which grows at least by one state unless the queue
   * ends up empty.
   */
  method RunLevel(p: Puzzle, z: Table, table: VisitedTable, queue: FifoQueue, ghost seed: Grid, solution0: State)
      returns (found: bool, solution: State)
    requires table.Valid() && Queued(p, z, seed, queue.items, table.contents) && |queue.items| > 0
    modifies table, table.buckets, queue
    ensures table.Valid() && Queued(p, z, seed, queue.items, table.contents)
    ensures found ==> Reached(p, z, seed, solution) && Goal(p, solution)
    ensures old(table.contents) <= table.contents && |table.contents| - |old(table.contents)| == |queue.items|
    ensures found <==> FirstSolving(p, old(queue.items)) < |old(queue.items)|
    ensures queue.items == Unseen(LevelChildren(p, z, old(queue.items)[..FirstSolving(p, old(queue.items))]), old(table.contents))
  {
    var level := queue.TakeAll();
    var local;
    local, found, solution := ProcessLevel(p, z, table, seed, level, solution0);
    queue.Append(local);
  }

  /** A state the level loop takes as the solution: every tile filled and every dot used. */
  predicate Solves(p: Puzzle, s: State)
  {
    s.filledCount == p.w * p.h && AllUsed(s.cells, |p.dots|)
  }

  /** The index of the first solving state of a level, |level| when there is none. */
  function FirstSolving(p: Puzzle, level: seq<State>): (i: nat)
    ensures i <= |level|
    ensures forall j :: 0 <= j < i ==> !Solves(p, level[j])
    ensures i < |level| ==> Solves(p, level[i])
    decreases |level|
  {
    if |level| == 0 then 0
    else if Solves(p, level[0]) then 0
    else 1 + FirstSolving(p, level[1..])
  }

  /** Scanning a level in order, the first solving state is the first state seen that solves. */
  lemma FirstSolvingAt(p: Puzzle, level: seq<State>, i: int)
    requires 0 <= i < |level| && i <= FirstSolving(p, level)
    ensures Solves(p, level[i]) <==> i == FirstSolving(p, level)
  {
  }

  /** What one state of a level offers: nothing when its grid is full, its expansion otherwise. */
  function Offered(p: Puzzle, z: Table, s: State): seq<State>
  {
    if s.filledCount == p.w * p.h then [] else Expansion(p, z, s)
  }

  /** The children the states of a level offer, state by state, in order. */
  function LevelChildren(p: Puzzle, z: Table, level: seq<State>): seq<State>
    decreases |level|
  {
    if |level| == 0 then []
    else LevelChildren(p, z, level[..|level| - 1]) + Offered(p, z, level[|level| - 1])
  }

  /** Every child a level of reached states offers is reached. */
  lemma {:induction false} LevelChildrenReached(p: Puzzle, z: Table, seed: Grid, level: seq<State>)
    requires forall s :: s in level ==> Reached(p, z, seed, s)
    ensures forall c :: c in LevelChildren(p, z, level) ==> Reached(p, z, seed, c)
    decreases |level|
  {
    if |level| > 0 {
      var last := level[|level| - 1];
      LevelChildrenReached(p, z, seed, level[..|level| - 1]);
      if last.filledCount != p.w * p.h {
        ExpansionReached(p, z, seed, last);
      }
    }
  }

  /**
   * One level: the worksharing loop over the detached states, entered with
   * no solution found yet.  An iteration is skipped once a solution is
   * found; a full state using every dot becomes the solution; any other
   * state is expanded into the worker's local list.  So the local list
   * holds the new children the states before the first solving state
   * offer, and the solution is that state when there is one.
   */
  method ProcessLevel(p: Puzzle, z: Table, table: VisitedTable, ghost seed: Grid, level: seq<State>, solution0: State)
      returns (local: seq<State>, found: bool, solution: State)
    requires table.Valid() && Queued(p, z, seed, level, table.contents)
    modifies table, table.buckets
    ensures table.Valid() && Queued(p, z, seed, local, table.contents)
    ensures old(table.contents) <= table.contents && |table.contents| - |old(table.contents)| == |local|
    ensures found ==> Reached(p, z, seed, solution) && Goal(p, solution)
    ensures found <==> FirstSolving(p, level) < |level|
    ensures found ==> solution == level[FirstSolving(p, level)]
    ensures !found ==> solution == solution0
    ensures local == Unseen(LevelChildren(p, z, level[..FirstSolving(p, level)]), old(table.contents))
    ensures table.contents == old(table.contents) + Hashes(LevelChildren(p, z, level[..FirstSolving(p, level)]))
  {
    ghost var v0 := table.contents;
    ghost var done: seq<State> := [];
    local, found, solution := [], false, solution0;
    var i := 0;
    while i < |level|
      invariant 0 <= i <= |level|
      invariant table.Valid() && Queued(p, z, seed, level, table.contents) && Queued(p, z, seed, local, table.contents)
      invariant LevelSoFar(p, z, level, i, v0, table.contents, local, found, solution, solution0, done)
    {
      local, found, solution, done := LevelStep(p, z, table, seed, level, i, v0, local, found, solution, solution0, done);
      i := i + 1;
    }
    LevelDone(p, z, level, v0, table.contents, local, found, solution, solution0, done);
  }

  /**
   * What the first i iterations of the worksharing loop leave: done is the
   * prefix of the level they processed, up to the first solving state;
   * local and the seen set hold the new children it offers.
   */
  ghost predicate LevelSoFar(p: Puzzle, z: Table, level: seq<State>, i: int, v0: set<Word>, v: set<Word>,
                             local: seq<State>, found: bool, solution: State, fallback: State, done: seq<State>)
  {
    0 <= i <= |level| && v0 <= v && |v| - |v0| == |local| &&
    (!found ==> i <= FirstSolving(p, level) && done == level[..i] && solution == fallback) &&
    (found ==> FirstSolving(p, level) < i && solution == level[FirstSolving(p, level)] &&
               done == level[..FirstSolving(p, level)] && Shaped(solution.cells, p.w, p.h) && Goal(p, solution)) &&
    local == Unseen(LevelChildren(p, z, done), v0) && v == v0 + Hashes(LevelChildren(p, z, done))
  }

  /** After the whole level, the bookkeeping of the loop is the contract of ProcessLevel. */
  lemma LevelDone(p: Puzzle, z: Table, level: seq<State>, v0: set<Word>, v: set<Word>,
                  local: seq<State>, found: bool, solution: State, fallback: State, done: seq<State>)
    requires LevelSoFar(p, z, level, |level|, v0, v, local, found, solution, fallback, done)
    ensures v0 <= v && |v| - |v0| == |local|
    ensures found <==> FirstSolving(p, level) < |level|
    ensures found ==> solution == level[FirstSolving(p, level)] && Goal(p, solution)
    ensures !found ==> solution == fallback
    ensures local == Unseen(LevelChildren(p, z, level[..FirstSolving(p, level)]), v0)
    ensures v == v0 + Hashes(LevelChildren(p, z, level[..FirstSolving(p, level)]))
  {
    if !found {
      assert level[..|level|] == level;
    }
  }

  /** Iteration i of the worksharing loop: skipped once a solution is found. */
  method LevelStep(p: Puzzle, z: Table, table: VisitedTable, ghost seed: Grid, level: seq<State>, i: int,
                   ghost v0: set<Word>, local0: seq<State>, found0: bool, solution0: State, ghost fallback: State,
                   ghost done0: seq<State>) returns (local: seq<State>, found: bool, solution: State, ghost done: seq<State>)
    requires 0 <= i < |level|
    requires table.Valid() && Queued(p, z, seed, level, table.contents) && Queued(p, z, seed, local0, table.contents)
    requires LevelSoFar(p, z, level, i, v0, table.contents, local0, found0, solution0, fallback, done0)
    modifies table, table.buckets
    ensures table.Valid() && Queued(p, z, seed, level, table.contents) && Queued(p, z, seed, local, table.contents)
    ensures LevelSoFar(p, z, level, i + 1, v0, table.contents, local, found, solution, fallback, done)
  {
    local, found, solution, done := local0, found0, solution0, done0;
    if found {
      return;
    }
    var s := level[i];
    ghost var before := table.contents;
    var solved;
    local, solved := ProcessState(p, z, table, seed, s, local0);
    QueuedGrow(p, z, seed, level, before, table.contents);
    FirstSolvingAt(p, level, i);
    if solved {
      assert Offered(p, z, s) == [];
      NothingAdded(p, z, s, [], local0, before);
      solution := s;
      found := true;
    } else {
      assert level[..i + 1][..i] == level[..i];
      assert LevelChildren(p, z, level[..i + 1]) == LevelChildren(p, z, done0) + Offered(p, z, s);
      UnseenChain(LevelChildren(p, z, done0), Offered(p, z, s), LevelChildren(p, z, level[..i + 1]),
                  v0, [], local0, before, local, table.contents);
      done := level[..i + 1];
    }
  }

  /**
   * One iteration of the worksharing loop on state s: a full state is the
   * solution when it uses every dot and is dropped otherwise; any other
   * state is expanded into the local list.
   */
  method ProcessState(p: Puzzle, z: Table, table: VisitedTable, ghost seed: Grid, s: State, local0: seq<State>)
      returns (local: seq<State>, solved: bool)
    requires table.Valid() && Reached(p, z, seed, s) && Queued(p, z, seed, local0, table.contents)
    modifies table, table.buckets
    ensures table.Valid() && Queued(p, z, seed, local, table.contents)
    ensures old(table.contents) <= table.contents && |table.contents| - |old(table.contents)| == |local| - |local0|
    ensures solved <==> Solves(p, s)
    ensures solved ==> Goal(p, s)
    ensures local == local0 + Unseen(Offered(p, z, s), old(table.contents))
    ensures table.contents == old(table.contents) + Hashes(Offered(p, z, s))
  {
    local := local0;
    if s.filledCount == p.w * p.h {
      FullGrid(s.cells, p.w, p.h);
      solved := AllDotsUsedIn(s.cells, p.w, p.h, |p.dots|);
      NothingAdded(p, z, s, [], local, table.contents);
      return;
    }
    solved := false;
    local := ExpandState(p, z, table, seed, s, local);
  }
}
