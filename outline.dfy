/**
 * outline_tile_fordot on values: the edges around a tile are made to
 * separate it from every neighbouring tile of another region and to open
 * onto every neighbouring tile of its own.
 */
module Outlines {

  import opened Spaces

  /** The four directions outline_tile_fordot looks in, as (dxs[i], dys[i]). */
  function Dir(i: int): (r: (int, int))
    ensures 0 <= i < 4 ==> DirIndex(r.0, r.1) == i
  {
    if i == 0 then (-1, 0) else if i == 1 then (1, 0) else if i == 2 then (0, -1) else (0, 1)
  }

  /** The index in Dir of the step (ddx, ddy), or 4 when it is none of the four. */
  function DirIndex(ddx: int, ddy: int): (i: int)
    ensures 0 <= i <= 4
  {
    if ddx == -1 && ddy == 0 then 0
    else if ddx == 1 && ddy == 0 then 1
    else if ddx == 0 && ddy == -1 then 2
    else if ddx == 0 && ddy == 1 then 3
    else 4
  }

  /** A step with an index is that direction. */
  lemma DirOfIndex(ddx: int, ddy: int)
    ensures DirIndex(ddx, ddy) < 4 ==> Dir(DirIndex(ddx, ddy)) == (ddx, ddy)
  {
  }

  /**
   * The tile (x, y) and the space (tx, ty) are in the same region as
   * outline_tile_fordot sees it: (tx, ty) is on the grid, and both are
   * unassociated or both are associated with the same dot.
   */
  predicate Same(g: seq<seq<Space>>, sx: int, sy: int, x: int, y: int, tx: int, ty: int)
    requires Dims(g, sx, sy) && InGrid(sx, sy, x, y)
  {
    InGrid(sx, sy, tx, ty) &&
    if !g[y][x].assoc then !g[ty][tx].assoc
    else g[ty][tx].assoc && g[y][x].dotx == g[ty][tx].dotx && g[y][x].doty == g[ty][tx].doty
  }

  /**
   * The edge in direction i of (x, y) is on the grid and is wrong: it is
   * set between two spaces of one region, or clear between two regions.
   */
  predicate Mismatch(g: seq<seq<Space>>, sx: int, sy: int, x: int, y: int, i: int)
    requires Dims(g, sx, sy) && InGrid(sx, sy, x, y)
  {
    InGrid(sx, sy, x + Dir(i).0, y + Dir(i).1) &&
    g[y + Dir(i).1][x + Dir(i).0].edgeSet == Same(g, sx, sy, x, y, x + 2 * Dir(i).0, y + 2 * Dir(i).1)
  }

  /** outline_tile_fordot has something to do around (x, y). */
  predicate Changes(g: seq<seq<Space>>, sx: int, sy: int, x: int, y: int)
    requires Dims(g, sx, sy) && InGrid(sx, sy, x, y)
  {
    exists i :: 0 <= i < 4 && Mismatch(g, sx, sy, x, y, i)
  }

  /** Some edge among the first n directions around (x, y) is wrong. */
  predicate MismatchBelow(g: seq<seq<Space>>, sx: int, sy: int, x: int, y: int, n: nat)
    requires Dims(g, sx, sy) && InGrid(sx, sy, x, y)
  {
    n > 0 && (MismatchBelow(g, sx, sy, x, y, n - 1) || Mismatch(g, sx, sy, x, y, n - 1))
  }

  /** MismatchBelow is the bounded existential it unrolls. */
  lemma {:induction false} MismatchBelowSome(g: seq<seq<Space>>, sx: int, sy: int, x: int, y: int, n: nat)
    requires Dims(g, sx, sy) && InGrid(sx, sy, x, y)
    ensures MismatchBelow(g, sx, sy, x, y, n) <==> exists i :: 0 <= i < n && Mismatch(g, sx, sy, x, y, i)
  {
    if n > 0 {
      MismatchBelowSome(g, sx, sy, x, y, n - 1);
    }
  }

  /**
   * The grid once outline_tile_fordot has corrected the edges in the first
   * n directions around (x, y): each such edge is set exactly when the
   * space beyond it is not in the same region.
   */
  ghost function Outlined(g: seq<seq<Space>>, sx: int, sy: int, x: int, y: int, n: int): (r: seq<seq<Space>>)
    requires Dims(g, sx, sy) && InGrid(sx, sy, x, y)
    ensures Dims(r, sx, sy)
  {
    seq(sy, q requires 0 <= q < sy => seq(sx, p requires 0 <= p < sx => OutlinedSpace(g, sx, sy, x, y, n, p, q)))
  }

  /** One space of Outlined. */
  function OutlinedSpace(g: seq<seq<Space>>, sx: int, sy: int, x: int, y: int, n: int, p: int, q: int): Space
    requires Dims(g, sx, sy) && InGrid(sx, sy, x, y) && InGrid(sx, sy, p, q)
  {
    if DirIndex(p - x, q - y) < n then g[q][p].(edgeSet := !Same(g, sx, sy, x, y, 2 * p - x, 2 * q - y))
    else g[q][p]
  }

  lemma OutlinedPoint(g: seq<seq<Space>>, sx: int, sy: int, x: int, y: int, n: int, p: int, q: int)
    requires Dims(g, sx, sy) && InGrid(sx, sy, x, y) && InGrid(sx, sy, p, q)
    ensures Outlined(g, sx, sy, x, y, n)[q][p] == OutlinedSpace(g, sx, sy, x, y, n, p, q)
  {
  }

  /** Correcting no direction leaves the grid as it was. */
  lemma OutlinedNone(g: seq<seq<Space>>, sx: int, sy: int, x: int, y: int)
    requires Dims(g, sx, sy) && InGrid(sx, sy, x, y)
    ensures Outlined(g, sx, sy, x, y, 0) == g
  {
    var r: seq<seq<Space>> := Outlined(g, sx, sy, x, y, 0);
    forall q, p | InGrid(sx, sy, p, q) ensures r[q][p] == g[q][p] {
      OutlinedPoint(g, sx, sy, x, y, 0, p, q);
    }
    GridExt(r, g, sx, sy);
  }

  /**
   * Outlining changes edge flags only: every other field of every space,
   * and so the regions Same compares, stay as they were.
   */
  lemma OutlinedFields(g: seq<seq<Space>>, sx: int, sy: int, x: int, y: int, n: int, p: int, q: int)
    requires Dims(g, sx, sy) && InGrid(sx, sy, x, y) && InGrid(sx, sy, p, q)
    ensures Outlined(g, sx, sy, x, y, n)[q][p].(edgeSet := g[q][p].edgeSet) == g[q][p]
  {
    OutlinedPoint(g, sx, sy, x, y, n, p, q);
  }

  /** Same reads no edge flag, so outlining does not change what it says. */
  lemma SameOutlined(g: seq<seq<Space>>, sx: int, sy: int, x: int, y: int, n: int, tx: int, ty: int)
    requires Dims(g, sx, sy) && InGrid(sx, sy, x, y)
    ensures Same(Outlined(g, sx, sy, x, y, n), sx, sy, x, y, tx, ty) == Same(g, sx, sy, x, y, tx, ty)
  {
    OutlinedFields(g, sx, sy, x, y, n, x, y);
    if InGrid(sx, sy, tx, ty) {
      OutlinedFields(g, sx, sy, x, y, n, tx, ty);
    }
  }

  /** Step i of the loop at one space: only the edge in direction i changes. */
  lemma OutlinedStepAt(g: seq<seq<Space>>, sx: int, sy: int, x: int, y: int, i: int, p: int, q: int)
    requires Dims(g, sx, sy) && InGrid(sx, sy, x, y) && 0 <= i < 4 && InGrid(sx, sy, p, q)
    ensures Outlined(g, sx, sy, x, y, i + 1)[q][p] ==
              if (p, q) == (x + Dir(i).0, y + Dir(i).1) then g[q][p].(edgeSet := !Same(g, sx, sy, x, y, 2 * p - x, 2 * q - y))
              else Outlined(g, sx, sy, x, y, i)[q][p]
    ensures (p, q) == (x + Dir(i).0, y + Dir(i).1) ==> Outlined(g, sx, sy, x, y, i)[q][p] == g[q][p]
  {
    OutlinedPoint(g, sx, sy, x, y, i, p, q);
    OutlinedPoint(g, sx, sy, x, y, i + 1, p, q);
    DirOfIndex(p - x, q - y);
  }

  /** Step i of the loop when the edge in direction i is on the grid. */
  lemma OutlinedStepOn(g: seq<seq<Space>>, sx: int, sy: int, x: int, y: int, i: int, ex: int, ey: int)
    requires Dims(g, sx, sy) && InGrid(sx, sy, x, y) && 0 <= i < 4
    requires (ex, ey) == (x + Dir(i).0, y + Dir(i).1) && InGrid(sx, sy, ex, ey)
    ensures Outlined(g, sx, sy, x, y, i + 1) ==
              SetSpace(Outlined(g, sx, sy, x, y, i), ex, ey, g[ey][ex].(edgeSet := !Same(g, sx, sy, x, y, 2 * ex - x, 2 * ey - y)))
  {
    var a: seq<seq<Space>> := Outlined(g, sx, sy, x, y, i);
    var b: seq<seq<Space>> := Outlined(g, sx, sy, x, y, i + 1);
    var c: seq<seq<Space>> := SetSpace(a, ex, ey, g[ey][ex].(edgeSet := !Same(g, sx, sy, x, y, 2 * ex - x, 2 * ey - y)));
    forall q, p | InGrid(sx, sy, p, q) ensures b[q][p] == c[q][p] {
      OutlinedStepAt(g, sx, sy, x, y, i, p, q);
    }
    GridExt(b, c, sx, sy);
  }

  /** Step i of the loop when the edge in direction i is off the grid. */
  lemma OutlinedStepOff(g: seq<seq<Space>>, sx: int, sy: int, x: int, y: int, i: int)
    requires Dims(g, sx, sy) && InGrid(sx, sy, x, y) && 0 <= i < 4
    requires !InGrid(sx, sy, x + Dir(i).0, y + Dir(i).1)
    ensures Outlined(g, sx, sy, x, y, i + 1) == Outlined(g, sx, sy, x, y, i)
  {
    var a: seq<seq<Space>> := Outlined(g, sx, sy, x, y, i);
    var b: seq<seq<Space>> := Outlined(g, sx, sy, x, y, i + 1);
    forall q, p | InGrid(sx, sy, p, q) ensures b[q][p] == a[q][p] {
      OutlinedStepAt(g, sx, sy, x, y, i, p, q);
    }
    GridExt(b, a, sx, sy);
  }

  /**
   * The loop of outline_tile_fordot, one direction at a time: before step
   * i the edge in direction i still has its old flag, and the step writes
   * its corrected flag into it (or does nothing when it is off the grid).
   */
  lemma OutlinedStep(g: seq<seq<Space>>, sx: int, sy: int, x: int, y: int, i: int)
    requires Dims(g, sx, sy) && InGrid(sx, sy, x, y) && 0 <= i < 4
    ensures InGrid(sx, sy, x + Dir(i).0, y + Dir(i).1) ==>
              Outlined(g, sx, sy, x, y, i)[y + Dir(i).1][x + Dir(i).0] == g[y + Dir(i).1][x + Dir(i).0] &&
              Outlined(g, sx, sy, x, y, i + 1) ==
                SetSpace(Outlined(g, sx, sy, x, y, i), x + Dir(i).0, y + Dir(i).1,
                         g[y + Dir(i).1][x + Dir(i).0].(edgeSet := !Same(g, sx, sy, x, y, x + 2 * Dir(i).0, y + 2 * Dir(i).1)))
    ensures !InGrid(sx, sy, x + Dir(i).0, y + Dir(i).1) ==> Outlined(g, sx, sy, x, y, i + 1) == Outlined(g, sx, sy, x, y, i)
  {
    var ex, ey := x + Dir(i).0, y + Dir(i).1;
    if InGrid(sx, sy, ex, ey) {
      OutlinedStepAt(g, sx, sy, x, y, i, ex, ey);
      OutlinedStepOn(g, sx, sy, x, y, i, ex, ey);
      assert 2 * ex - x == x + 2 * Dir(i).0 && 2 * ey - y == y + 2 * Dir(i).1;
    } else {
      OutlinedStepOff(g, sx, sy, x, y, i);
    }
  }

  /**
   * Once every direction is corrected nothing is left to do: a second
   * outline_tile_fordot on the same tile reports no work.
   */
  lemma OutlineSettles(g: seq<seq<Space>>, sx: int, sy: int, x: int, y: int)
    requires Dims(g, sx, sy) && InGrid(sx, sy, x, y)
    ensures !Changes(Outlined(g, sx, sy, x, y, 4), sx, sy, x, y)
  {
    var r: seq<seq<Space>> := Outlined(g, sx, sy, x, y, 4);
    forall i | 0 <= i < 4 ensures !Mismatch(r, sx, sy, x, y, i) {
      var ex, ey := x + Dir(i).0, y + Dir(i).1;
      if InGrid(sx, sy, ex, ey) {
        assert DirIndex(ex - x, ey - y) == i;
        assert 2 * ex - x == x + 2 * Dir(i).0 && 2 * ey - y == y + 2 * Dir(i).1;
        OutlinedPoint(g, sx, sy, x, y, 4, ex, ey);
        SameOutlined(g, sx, sy, x, y, 4, x + 2 * Dir(i).0, y + 2 * Dir(i).1);
      }
    }
  }

  /** The space of a mismatched edge gets the opposite flag. */
  lemma MismatchFlips(g: seq<seq<Space>>, sx: int, sy: int, x: int, y: int, i: int)
    requires Dims(g, sx, sy) && InGrid(sx, sy, x, y) && 0 <= i < 4 && Mismatch(g, sx, sy, x, y, i)
    ensures OutlinedSpace(g, sx, sy, x, y, 4, x + Dir(i).0, y + Dir(i).1) != g[y + Dir(i).1][x + Dir(i).0]
  {
    var ex, ey := x + Dir(i).0, y + Dir(i).1;
    assert DirIndex(ex - x, ey - y) == i;
    assert 2 * ex - x == x + 2 * Dir(i).0 && 2 * ey - y == y + 2 * Dir(i).1;
  }

  /** Two grids that differ at one space differ. */
  lemma GridsDiffer(a: seq<seq<Space>>, b: seq<seq<Space>>, p: int, q: int)
    requires 0 <= q < |a| && q < |b| && 0 <= p < |a[q]| && p < |b[q]| && a[q][p] != b[q][p]
    ensures a != b
  {
  }

  /** A mismatched edge is corrected, so the grid changes. */
  lemma OutlineChangesSome(g: seq<seq<Space>>, sx: int, sy: int, x: int, y: int)
    requires Dims(g, sx, sy) && InGrid(sx, sy, x, y) && Changes(g, sx, sy, x, y)
    ensures Outlined(g, sx, sy, x, y, 4) != g
  {
    var i :| 0 <= i < 4 && Mismatch(g, sx, sy, x, y, i);
    MismatchFlips(g, sx, sy, x, y, i);
    OutlinedPoint(g, sx, sy, x, y, 4, x + Dir(i).0, y + Dir(i).1);
    GridsDiffer(Outlined(g, sx, sy, x, y, 4), g, x + Dir(i).0, y + Dir(i).1);
  }

  /** With no mismatched edge every space keeps its value. */
  lemma OutlineChangesNone(g: seq<seq<Space>>, sx: int, sy: int, x: int, y: int)
    requires Dims(g, sx, sy) && InGrid(sx, sy, x, y) && !Changes(g, sx, sy, x, y)
    ensures Outlined(g, sx, sy, x, y, 4) == g
  {
    var r: seq<seq<Space>> := Outlined(g, sx, sy, x, y, 4);
    forall q, p | InGrid(sx, sy, p, q) ensures r[q][p] == g[q][p] {
      OutlinedPoint(g, sx, sy, x, y, 4, p, q);
      DirOfIndex(p - x, q - y);
      var i := DirIndex(p - x, q - y);
      if i < 4 {
        assert !Mismatch(g, sx, sy, x, y, i);
      }
    }
    GridExt(r, g, sx, sy);
  }

  /** outline_tile_fordot reports work exactly when it changes the grid. */
  lemma OutlineChanges(g: seq<seq<Space>>, sx: int, sy: int, x: int, y: int)
    requires Dims(g, sx, sy) && InGrid(sx, sy, x, y)
    ensures Changes(g, sx, sy, x, y) <==> Outlined(g, sx, sy, x, y, 4) != g
  {
    if Changes(g, sx, sy, x, y) {
      OutlineChangesSome(g, sx, sy, x, y);
    } else {
      OutlineChangesNone(g, sx, sy, x, y);
    }
  }

  /**
   * Outlining keeps the grid valid; for a tile (both coordinates odd on an
   * odd-sized grid) a border edge has nothing beyond it, so it stays set.
   */
  lemma OutlineKeepsValid(g: seq<seq<Space>>, sx: int, sy: int, x: int, y: int)
    requires Shape(g, sx, sy) && AssocToDots(g, sx, sy) && BorderClosed(g, sx, sy) && InGrid(sx, sy, x, y)
    requires x % 2 == 1 && y % 2 == 1 && sx % 2 == 1 && sy % 2 == 1
    ensures Shape(Outlined(g, sx, sy, x, y, 4), sx, sy)
    ensures AssocToDots(Outlined(g, sx, sy, x, y, 4), sx, sy) && BorderClosed(Outlined(g, sx, sy, x, y, 4), sx, sy)
  {
    var r: seq<seq<Space>> := Outlined(g, sx, sy, x, y, 4);
    forall q, p | InGrid(sx, sy, p, q) ensures r[q][p].(edgeSet := g[q][p].edgeSet) == g[q][p] {
      OutlinedFields(g, sx, sy, x, y, 4, p, q);
    }
    assert Shape(r, sx, sy);
    assert x != 0 && x != sx - 1 && y != 0 && y != sy - 1;
    forall q, p | InGrid(sx, sy, p, q) && (p == 0 || q == 0 || p == sx - 1 || q == sy - 1) ensures r[q][p].edgeSet {
      OutlinedPoint(g, sx, sy, x, y, 4, p, q);
      if DirIndex(p - x, q - y) < 4 {
        assert (p - x == 0 && (q - y == 1 || q - y == -1)) || (q - y == 0 && (p - x == 1 || p - x == -1));
        assert !InGrid(sx, sy, p + (p - x), q + (q - y));
      }
    }
  }
}
