/** solve of solver/seq_solver.c: the breadth-first search over one global queue. */
module CSeq {

  import opened Words
  import opened Tiles
  import opened Boards
  import opened SeqBfs
  import opened CSearch

  /**
   * solve: seed the centre tiles, then pop states in FIFO order; a full
   * state using every dot is the solution, any other state is expanded.
   * The result is symmetric about every dot, since the seeded grid is.
   */
  method Solve(p: Puzzle, z: Table) returns (r: Outcome)
    requires Fitting(p)
    ensures r == Overlap <==> !CentresDistinct(p, |p.dots|)
    ensures r.Solved? ==> Shaped(r.state.cells, p.w, p.h) && Goal(p, r.state) && Symmetric(p, r.state.cells)
    ensures r.Solved? ==> Consistent(r.state, z, p.w) && Extends(CSeedDots(p, z, |p.dots|).1.cells, r.state.cells)
  {
    var table := new VisitedTable();
    var queue := new FifoQueue();
    var ok, initial := SeedCentres(p, z);
    CSeedOutcome(p, z, |p.dots|);
    if !ok {
      return Overlap;
    }
    CSeedSymmetric(p, z);
    ghost var seed := initial.cells;
    queue.Enqueue(initial);
    table.AddVisited(initial.hash);
    assert Queued(p, z, seed, queue.items, table.contents) by {
      assert queue.items == [initial];
    }
    while |queue.items| > 0
      invariant table.Valid() && Queued(p, z, seed, queue.items, table.contents)
      decreases HashSpace - |table.contents|, |queue.items|
    {
      HashSetBound(table.contents);
      QueuedTail(p, z, seed, queue.items, table.contents);
      var o := queue.Dequeue();
      var s := o.value;
      if s.filledCount == p.w * p.h {
        FullGrid(s.cells, p.w, p.h);
        var used := AllDotsUsedIn(s.cells, p.w, p.h, |p.dots|);
        if used {
          return Solved(s);
        }
        continue;
      }
      ghost var n0, v0 := |queue.items|, table.contents;
      var children := ExpandState(p, z, table, seed, s, []);
      QueuedAppend(p, z, seed, queue.items, children, table.contents);
      queue.Append(children);
      assert |queue.items| > n0 ==> |table.contents| > |v0|;
    }
    return NoSolution;
  }
}
