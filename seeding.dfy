/**
 * Seeding of the C++ solvers: before searching, every dot is given the
 * tiles it touches (one, two or four, by the parity of its coordinates).
 * Tiles off the board are skipped, and seeding stops at the first tile that
 * another dot already owns.
 */
module Seeding {

  import opened Words
  import opened Tiles

  /** tryFill over the tiles ts in order, stopping at the first failure. */
  function SeedTiles(s: State, z: Table, w: int, h: int, d: int, ts: seq<(int, int)>): (r: (bool, State))
    requires Shaped(s.cells, w, h)
    ensures Shaped(r.1.cells, w, h)
    decreases |ts|
  {
    if ts == [] then (true, s)
    else
      var r1 := TryFillResult(s, z, w, h, ts[0].0, ts[0].1, d);
      if !r1.0 then r1 else SeedTiles(r1.1, z, w, h, d, ts[1..])
  }

  /** Seeding of the first k dots from s0, stopping at the first dot that fails. */
  function SeedDots(s0: State, p: Puzzle, z: Table, k: nat): (r: (bool, State))
    requires Shaped(s0.cells, p.w, p.h) && k <= |p.dots|
    ensures Shaped(r.1.cells, p.w, p.h)
  {
    if k == 0 then (true, s0)
    else
      var prev := SeedDots(s0, p, z, k - 1);
      if !prev.0 then prev
      else SeedTiles(prev.1, z, p.w, p.h, k - 1, ForcedTiles(p.dots[k - 1].x, p.dots[k - 1].y))
  }

  /** Tile (tx, ty) is a forced tile of dot d. */
  predicate ForcedOf(p: Puzzle, d: int, tx: int, ty: int)
  {
    0 <= d < |p.dots| && (tx, ty) in ForcedTiles(p.dots[d].x, p.dots[d].y)
  }

  /** No two of the first k dots force the same tile of the board. */
  ghost predicate NoClash(p: Puzzle, k: int)
  {
    forall d1, d2, tx, ty ::
      (0 <= d1 < d2 < k && InTileBounds(p.w, p.h, tx, ty) && ForcedOf(p, d1, tx, ty)) ==> !ForcedOf(p, d2, tx, ty)
  }

  /** The owners after seeding k dots without a clash: exactly the forced tiles, each by its dot. */
  ghost predicate SeededOwners(p: Puzzle, g: Grid, k: int)
    requires Shaped(g, p.w, p.h)
  {
    forall y, x :: 0 <= y < p.h && 0 <= x < p.w ==>
      (forall d :: 0 <= d < k && ForcedOf(p, d, x, y) ==> g[y][x] == d) &&
      (g[y][x] == -1 || (0 <= g[y][x] < k && ForcedOf(p, g[y][x], x, y)))
  }

  /** Seeding keeps shape, owner range and consistency, whether or not it succeeds. */
  lemma {:induction false} SeedTilesKeeps(s: State, z: Table, w: int, h: int, d: int, ts: seq<(int, int)>, n: int)
    requires Shaped(s.cells, w, h) && Owners(s.cells, n) && 0 <= d < n && Consistent(s, z, w)
    ensures var r := SeedTiles(s, z, w, h, d, ts);
            Owners(r.1.cells, n) && Consistent(r.1, z, w)
    decreases |ts|
  {
    if ts != [] {
      TryFillKeeps(s, z, w, h, ts[0].0, ts[0].1, d, n);
      var r1 := TryFillResult(s, z, w, h, ts[0].0, ts[0].1, d);
      if r1.0 {
        SeedTilesKeeps(r1.1, z, w, h, d, ts[1..], n);
      }
    }
  }

  lemma {:induction false} SeedDotsKeeps(s0: State, p: Puzzle, z: Table, k: nat)
    requires Shaped(s0.cells, p.w, p.h) && k <= |p.dots|
    requires Owners(s0.cells, |p.dots|) && Consistent(s0, z, p.w)
    ensures var r := SeedDots(s0, p, z, k);
            Owners(r.1.cells, |p.dots|) && Consistent(r.1, z, p.w)
  {
    if k > 0 {
      SeedDotsKeeps(s0, p, z, k - 1);
      var prev := SeedDots(s0, p, z, k - 1);
      if prev.0 {
        SeedTilesKeeps(prev.1, z, p.w, p.h, k - 1, ForcedTiles(p.dots[k - 1].x, p.dots[k - 1].y), |p.dots|);
      }
    }
  }

  /**
   * Seeding the distinct tiles ts for dot d, none of which d owns yet,
   * succeeds iff every one of them on the board is empty, and then gives
   * exactly those tiles to d.
   */
  lemma {:induction false} SeedTilesOutcome(s: State, z: Table, w: int, h: int, d: int, ts: seq<(int, int)>)
    requires Shaped(s.cells, w, h)
    requires forall i, j :: 0 <= i < j < |ts| ==> ts[i] != ts[j]
    requires forall i :: 0 <= i < |ts| && InTileBounds(w, h, ts[i].0, ts[i].1) ==> s.cells[ts[i].1][ts[i].0] != d
    ensures var r := SeedTiles(s, z, w, h, d, ts);
            (r.0 <==> forall i :: 0 <= i < |ts| && InTileBounds(w, h, ts[i].0, ts[i].1) ==> s.cells[ts[i].1][ts[i].0] == -1) &&
            (r.0 ==> forall y, x :: 0 <= y < h && 0 <= x < w ==>
                       r.1.cells[y][x] == if (x, y) in ts then d else s.cells[y][x])
    decreases |ts|
  {
    if ts != [] {
      var t := ts[0];
      var rest := ts[1..];
      var r1 := TryFillResult(s, z, w, h, t.0, t.1, d);
      if !InTileBounds(w, h, t.0, t.1) {
        SeedTilesOutcome(s, z, w, h, d, rest);
        forall y, x | 0 <= y < h && 0 <= x < w ensures ((x, y) in ts) == ((x, y) in rest) {
          if (x, y) == t { } else if (x, y) in ts { assert (x, y) in rest; }
        }
        forall i | 0 <= i < |rest| ensures rest[i] == ts[i + 1] { }
      } else if s.cells[t.1][t.0] == -1 {
        var s1 := r1.1;
        forall i | 0 <= i < |rest| && InTileBounds(w, h, rest[i].0, rest[i].1)
          ensures s1.cells[rest[i].1][rest[i].0] == s.cells[rest[i].1][rest[i].0]
        {
          assert rest[i] == ts[i + 1];
        }
        SeedTilesOutcome(s1, z, w, h, d, rest);
        forall i | 0 <= i < |rest| ensures rest[i] == ts[i + 1] { }
        forall y, x | 0 <= y < h && 0 <= x < w ensures (x, y) in ts <==> (x, y) == t || (x, y) in rest {
          if (x, y) in ts && (x, y) != t {
            var i :| 0 <= i < |ts| && ts[i] == (x, y);
            assert rest[i - 1] == (x, y);
          }
        }
      } else {
        assert !r1.0;
      }
    }
  }

  /** All on-board forced tiles of dot d are empty in g. */
  ghost predicate ForcedFree(p: Puzzle, g: Grid, d: int)
    requires Shaped(g, p.w, p.h) && 0 <= d < |p.dots|
  {
    var ts := ForcedTiles(p.dots[d].x, p.dots[d].y);
    forall i :: 0 <= i < |ts| && InTileBounds(p.w, p.h, ts[i].0, ts[i].1) ==> g[ts[i].1][ts[i].0] == -1
  }

  /** After the first d dots, dot d finds its tiles free iff it clashes with none of them. */
  lemma ClashStep(p: Puzzle, g: Grid, d: int)
    requires Shaped(g, p.w, p.h) && 0 <= d < |p.dots|
    requires NoClash(p, d) && SeededOwners(p, g, d)
    ensures ForcedFree(p, g, d) <==> NoClash(p, d + 1)
  {
    var ts := ForcedTiles(p.dots[d].x, p.dots[d].y);
    if NoClash(p, d + 1) {
      forall i | 0 <= i < |ts| && InTileBounds(p.w, p.h, ts[i].0, ts[i].1)
        ensures g[ts[i].1][ts[i].0] == -1
      {
        var x, y := ts[i].0, ts[i].1;
        assert ForcedOf(p, d, x, y);
      }
    } else {
      var d1, d2, tx, ty :| 0 <= d1 < d2 < d + 1 && InTileBounds(p.w, p.h, tx, ty) &&
        ForcedOf(p, d1, tx, ty) && ForcedOf(p, d2, tx, ty);
      assert d2 == d;
      var i :| 0 <= i < |ts| && ts[i] == (tx, ty);
      assert g[ty][tx] == d1;
    }
  }

  /** Giving dot d its forced tiles, without a clash, extends the seeded owners to d + 1 dots. */
  lemma OwnersStep(p: Puzzle, g: Grid, g': Grid, d: int)
    requires Shaped(g, p.w, p.h) && Shaped(g', p.w, p.h) && 0 <= d < |p.dots|
    requires NoClash(p, d + 1) && SeededOwners(p, g, d)
    requires forall y, x :: 0 <= y < p.h && 0 <= x < p.w ==>
               g'[y][x] == if (x, y) in ForcedTiles(p.dots[d].x, p.dots[d].y) then d else g[y][x]
    ensures SeededOwners(p, g', d + 1)
  {
    var ts := ForcedTiles(p.dots[d].x, p.dots[d].y);
    forall y, x | 0 <= y < p.h && 0 <= x < p.w
      ensures (forall d' :: 0 <= d' < d + 1 && ForcedOf(p, d', x, y) ==> g'[y][x] == d') &&
              (g'[y][x] == -1 || (0 <= g'[y][x] < d + 1 && ForcedOf(p, g'[y][x], x, y)))
    {
      if (x, y) in ts {
        assert ForcedOf(p, d, x, y);
        forall d' | 0 <= d' < d + 1 && ForcedOf(p, d', x, y) ensures d' == d {
        }
      } else {
        assert !ForcedOf(p, d, x, y);
      }
    }
  }

  /**
   * Seeding the dots of p from the empty grid succeeds iff no two dots force
   * the same tile of the board; on success each tile of the board is owned
   * by the dot that forces it, and tiles no dot forces stay empty.
   */
  lemma {:induction false} SeedDotsOutcome(p: Puzzle, z: Table, k: nat)
    requires p.w >= 0 && p.h >= 0 && k <= |p.dots|
    ensures var r := SeedDots(EmptyState(p.w, p.h), p, z, k);
            (r.0 <==> NoClash(p, k)) && (r.0 ==> SeededOwners(p, r.1.cells, k))
  {
    var s0 := EmptyState(p.w, p.h);
    if k > 0 {
      SeedDotsOutcome(p, z, k - 1);
      var prev := SeedDots(s0, p, z, k - 1);
      var d := k - 1;
      var ts := ForcedTiles(p.dots[d].x, p.dots[d].y);
      if !prev.0 {
        assert !NoClash(p, k - 1);
      } else {
        ForcedTilesDistinct(p.dots[d].x, p.dots[d].y);
        SeedTilesOutcome(prev.1, z, p.w, p.h, d, ts);
        ClashStep(p, prev.1.cells, d);
        var r := SeedTiles(prev.1, z, p.w, p.h, d, ts);
        if r.0 {
          OwnersStep(p, prev.1.cells, r.1.cells, d);
        }
      }
    }
  }
}
