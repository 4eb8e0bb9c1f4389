/**
 * The generator's game state and the operations of simple_generator.c that
 * change it: blank_game, encode_game, dot_is_possible, add_dot,
 * solver_obvious_dot, outline_tile_fordot, dot_expand_or_move and
 * generate_try_block.
 */
module Generator {

  import opened Tiles
  import opened Spaces
  import opened Regions
  import opened Placement
  import opened Outlines
  import opened Blocks
  import Random
  import GameId

  class Game {
    const w: int
    const h: int
    const sx: int
    const sy: int
    var grid: seq<seq<Space>>
    var ndots: int

    ghost predicate Valid()
      reads this
    {
      w >= 0 && h >= 0 && sx == 2 * w + 1 && sy == 2 * h + 1 &&
      Shape(grid, sx, sy) && AssocToDots(grid, sx, sy) && BorderClosed(grid, sx, sy)
    }

    /**
     * blank_game: every space zeroed, typed by the parity of its
     * coordinates, and F_EDGE_SET on every border space.
     */
    constructor (w0: int, h0: int)
      requires w0 >= 0 && h0 >= 0
      ensures Valid() && w == w0 && h == h0 && ndots == 0
      ensures forall y, x :: InGrid(sx, sy, x, y) ==>
                grid[y][x] == Plain(x, y, x == 0 || y == 0 || x == sx - 1 || y == sy - 1)
    {
      w, h := w0, h0;
      sx, sy := 2 * w0 + 1, 2 * h0 + 1;
      ndots := 0;
      new;
      var g: seq<seq<Space>> := [];
      var y := 0;
      while y < sy
        invariant 0 <= y <= sy && |g| == y
        invariant forall r :: 0 <= r < y ==> |g[r]| == sx && forall c :: 0 <= c < sx ==> g[r][c] == Plain(c, r, false)
      {
        var row: seq<Space> := [];
        var x := 0;
        while x < sx
          invariant 0 <= x <= sx && |row| == x
          invariant forall c :: 0 <= c < x ==> row[c] == Plain(c, y, false)
        {
          row := row + [Plain(x, y, false)];
          x := x + 1;
        }
        g := g + [row];
        y := y + 1;
      }
      var i := 0;
      while i < sx
        invariant 0 <= i <= sx && |g| == sy
        invariant forall r :: 0 <= r < sy ==> |g[r]| == sx
        invariant forall r, c :: 0 <= r < sy && 0 <= c < sx ==> g[r][c] == Plain(c, r, (r == 0 || r == sy - 1) && c < i)
      {
        g := g[0 := g[0][i := g[0][i].(edgeSet := true)]];
        g := g[sy - 1 := g[sy - 1][i := g[sy - 1][i].(edgeSet := true)]];
        i := i + 1;
      }
      var j := 0;
      while j < sy
        invariant 0 <= j <= sy && |g| == sy
        invariant forall r :: 0 <= r < sy ==> |g[r]| == sx
        invariant forall r, c :: 0 <= r < sy && 0 <= c < sx ==>
                    g[r][c] == Plain(c, r, r == 0 || r == sy - 1 || ((c == 0 || c == sx - 1) && r < j))
      {
        g := g[j := g[j][0 := g[j][0].(edgeSet := true)]];
        g := g[j := g[j][sx - 1 := g[j][sx - 1].(edgeSet := true)]];
        j := j + 1;
      }
      grid := g;
    }

    /**
     * encode_game: the descriptor data of the dots, row by row, with runs
     * of other spaces as 'z's and a final letter.
     */
    method EncodeGame() returns (desc: string)
      requires Valid()
      ensures desc == GameId.Encode(Cells(grid))
    {
      desc := [];
      var run := 0;
      var y := 0;
      while y < sy
        invariant 0 <= y <= sy
        invariant (desc, run) == GameId.EncodeState(Cells(grid[..y]))
      {
        assert grid[..y + 1][..y] == grid[..y];
        desc, run := EncodeRow(desc, run, grid[y], Cells(grid[..y]));
        y := y + 1;
      }
      assert grid[..sy] == grid;
      desc, run := Flush(desc, run);
    }

    /**
     * solver_obvious_dot: every unassociated tile whose opposite about the
     * dot is on the grid and not tied to another dot is given to the dot,
     * together with that opposite; ret says whether anything was given.
     */
    method SolverObviousDot(dx: int, dy: int) returns (ret: bool)
      requires Valid() && InGrid(sx, sy, dx, dy) && grid[dy][dx].dot
      modifies this
      ensures Valid() && ndots == old(ndots)
      ensures grid == Obvious(old(grid), sx, sy, dx, dy)
      ensures ret <==> NewSet(old(grid), sx, sy, dx, dy) != {}
    {
      ghost var g0 := grid;
      ScanStart(g0, sx, sy, dx, dy);
      ret := false;
      ghost var j := 0;
      var x := 1;
      while x < sx
        invariant 0 <= j && x == 2 * j + 1
        invariant grid == ScanGrid(g0, sx, sy, dx, dy, x, 1)
        invariant ret <==> Scanned(g0, sx, sy, dx, dy, x, 1) != {}
        invariant ndots == old(ndots)
      {
        Odd(j);
        ghost var y;
        ret, y := ObviousColumn(dx, dy, x, g0, ret);
        ScanColumn(g0, sx, sy, dx, dy, x, y);
        x, j := x + 2, j + 1;
      }
      ScanFinish(g0, sx, sy, dx, dy, x);
      ObviousKeepsValid(g0, sx, sy, dx, dy);
    }

    /** The inner loop of solver_obvious_dot, down column x. */
    method ObviousColumn(dx: int, dy: int, x: int, ghost g0: seq<seq<Space>>, ret0: bool) returns (ret: bool, ghost y: int)
      requires Dims(g0, sx, sy) && InGrid(sx, sy, dx, dy) && 1 <= x < sx && x % 2 == 1
      requires grid == ScanGrid(g0, sx, sy, dx, dy, x, 1)
      requires ret0 <==> Scanned(g0, sx, sy, dx, dy, x, 1) != {}
      modifies this
      ensures y >= sy && grid == ScanGrid(g0, sx, sy, dx, dy, x, y) && ndots == old(ndots)
      ensures ret <==> Scanned(g0, sx, sy, dx, dy, x, y) != {}
    {
      ret := ret0;
      ghost var k := 0;
      var cy := 1;
      while cy < sy
        invariant 0 <= k && cy == 2 * k + 1
        invariant grid == ScanGrid(g0, sx, sy, dx, dy, x, cy)
        invariant ret <==> Scanned(g0, sx, sy, dx, dy, x, cy) != {}
        invariant ndots == old(ndots)
      {
        var hit := ObviousTile(dx, dy, x, cy);
        Odd(k);
        ScanStep(g0, sx, sy, dx, dy, x, cy);
        ret := ret || hit;
        cy, k := cy + 2, k + 1;
      }
      y := cy;
    }

    /** One tile of the scan of solver_obvious_dot, written in place. */
    method ObviousTile(dx: int, dy: int, x: int, y: int) returns (hit: bool)
      requires Dims(grid, sx, sy) && InGrid(sx, sy, dx, dy) && InGrid(sx, sy, x, y)
      modifies this
      ensures (grid, hit) == TileStep(old(grid), sx, sy, dx, dy, x, y) && ndots == old(ndots)
    {
      hit := false;
      var tile := grid[y][x];
      if tile.assoc {
        return;
      }
      var o := Opposite(sx, sy, x, y, dx, dy);
      if o.None? {
        return;
      }
      var ox, oy := o.value.0, o.value.1;
      var opp := grid[oy][ox];
      if opp.assoc && (opp.dotx != dx || opp.doty != dy) {
        return;
      }
      assert ox == 2 * dx - x && oy == 2 * dy - y;
      ghost var before := grid;
      GiveTile(dx, dy, x, y);
      if !grid[oy][ox].assoc {
        GiveTile(dx, dy, ox, oy);
      }
      assert grid == GivePair(before, sx, sy, dx, dy, x, y);
      hit := true;
    }

    /** dot_is_possible: whether the generator may put a dot at (x, y). */
    method DotIsPossible(x: int, y: int, allow: bool) returns (ok: bool)
      requires Dims(grid, sx, sy) && InGrid(sx, sy, x, y)
      ensures ok <==> Possible(grid, sx, sy, x, y, allow)
    {
      var hx, hy := 0, 0;
      match grid[y][x].kind {
        case TileSpace =>
          hx, hy := 1, 1;
        case EdgeSpace =>
          if x % 2 == 0 {
            hx, hy := 2, 1;
          } else {
            hx, hy := 1, 2;
          }
        case VertexSpace =>
          hx, hy := 2, 2;
      }
      assert (hx, hy) == Box(grid[y][x].kind, x);
      var ox := -hx;
      while ox <= hx
        invariant -hx <= ox <= hx + 1
        invariant forall a, b :: -hx <= a < ox && -hy <= b <= hy ==> Clear(grid, sx, sy, x, y, allow, hx, hy, a, b)
      {
        var oy := -hy;
        while oy <= hy
          invariant -hy <= oy <= hy + 1
          invariant forall a, b :: -hx <= a < ox && -hy <= b <= hy ==> Clear(grid, sx, sy, x, y, allow, hx, hy, a, b)
          invariant forall b :: -hy <= b < oy ==> Clear(grid, sx, sy, x, y, allow, hx, hy, ox, b)
        {
          if InGrid(sx, sy, x + ox, y + oy) {
            var adj := grid[y + oy][x + ox];
            if !allow && adj.assoc {
              assert !Clear(grid, sx, sy, x, y, allow, hx, hy, ox, oy);
              return false;
            }
            if (ox != 0 || oy != 0) && adj.dot {
              assert !Clear(grid, sx, sy, x, y, allow, hx, hy, ox, oy);
              return false;
            }
            if Abs(ox) < hx && Abs(oy) < hy && adj.edgeSet {
              assert !Clear(grid, sx, sy, x, y, allow, hx, hy, ox, oy);
              return false;
            }
          }
          oy := oy + 1;
        }
        ox := ox + 1;
      }
      return true;
    }

    /**
     * outline_tile_fordot: each edge around (x, y) that is set inside a
     * region or clear between two regions is flipped when mark holds;
     * didsth says whether any edge was wrong.
     */
    method OutlineTileForDot(x: int, y: int, mark: bool) returns (didsth: bool)
      requires Valid() && InGrid(sx, sy, x, y)
      modifies this
      ensures didsth <==> Changes(old(grid), sx, sy, x, y)
      ensures grid == if mark then Outlined(old(grid), sx, sy, x, y, 4) else old(grid)
      ensures ndots == old(ndots)
      ensures x % 2 == 1 && y % 2 == 1 ==> Valid()
    {
      ghost var g0 := grid;
      if x % 2 == 1 && y % 2 == 1 {
        assert sx % 2 == 1 && sy % 2 == 1;
        OutlineKeepsValid(g0, sx, sy, x, y);
      }
      MismatchBelowSome(g0, sx, sy, x, y, 4);
      didsth := OutlineEdges(x, y, mark);
    }

    /** The loop of outline_tile_fordot over the four directions. */
    method OutlineEdges(x: int, y: int, mark: bool) returns (didsth: bool)
      requires Dims(grid, sx, sy) && InGrid(sx, sy, x, y)
      modifies this
      ensures didsth == MismatchBelow(old(grid), sx, sy, x, y, 4)
      ensures grid == if mark then Outlined(old(grid), sx, sy, x, y, 4) else old(grid)
      ensures ndots == old(ndots)
    {
      ghost var g0 := grid;
      didsth := false;
      OutlinedNone(g0, sx, sy, x, y);
      var i := 0;
      while i < 4
        invariant 0 <= i <= 4 && Dims(grid, sx, sy)
        invariant grid == if mark then Outlined(g0, sx, sy, x, y, i) else g0
        invariant didsth == MismatchBelow(g0, sx, sy, x, y, i)
        invariant ndots == old(ndots)
      {
        var changed := OutlineEdge(x, y, i, mark, g0);
        if changed {
          didsth := true;
        }
        i := i + 1;
      }
    }

    /**
     * One pass of the loop of outline_tile_fordot, for the edge in
     * direction i (dxs[i], dys[i]) of the tile (x, y).
     */
    method OutlineEdge(x: int, y: int, i: int, mark: bool, ghost g0: seq<seq<Space>>) returns (changed: bool)
      requires Dims(g0, sx, sy) && InGrid(sx, sy, x, y) && 0 <= i < 4
      requires grid == if mark then Outlined(g0, sx, sy, x, y, i) else g0
      modifies this
      ensures changed <==> Mismatch(g0, sx, sy, x, y, i)
      ensures grid == if mark then Outlined(g0, sx, sy, x, y, i + 1) else g0
      ensures ndots == old(ndots)
    {
      var dxs, dys := [-1, 1, 0, 0], [0, 0, -1, 1];
      assert (dxs[i], dys[i]) == Dir(i);
      var ex, ey := x + dxs[i], y + dys[i];
      var tx, ty := ex + dxs[i], ey + dys[i];
      OutlinedStep(g0, sx, sy, x, y, i);
      changed := false;
      if !InGrid(sx, sy, ex, ey) {
        return;
      }
      SameOutlined(g0, sx, sy, x, y, i, tx, ty);
      OutlinedFields(g0, sx, sy, x, y, i, x, y);
      ghost var before := grid;
      var hasEdge := grid[ey][ex].edgeSet;
      var same := false;
      if InGrid(sx, sy, tx, ty) {
        var tadj := grid[ty][tx];
        if !grid[y][x].assoc {
          same := !tadj.assoc;
        } else {
          same := tadj.assoc && grid[y][x].dotx == tadj.dotx && grid[y][x].doty == tadj.doty;
        }
      }
      assert same == Same(g0, sx, sy, x, y, tx, ty);
      assert hasEdge == g0[ey][ex].edgeSet;
      ghost var fixed := g0[ey][ex].(edgeSet := !same);
      if !hasEdge && !same {
        if mark {
          grid := SetSpace(grid, ex, ey, grid[ey][ex].(edgeSet := true));
        }
        changed := true;
      } else if hasEdge && same {
        if mark {
          grid := SetSpace(grid, ex, ey, grid[ey][ex].(edgeSet := false));
        }
        changed := true;
      } else if mark {
        SetSpaceSame(grid, ex, ey);
      }
      assert mark ==> grid == SetSpace(before, ex, ey, fixed);
    }

    /** add_dot: the space at (x, y) becomes a dot with no associated spaces yet. */
    method AddDot(x: int, y: int)
      requires Valid() && InGrid(sx, sy, x, y)
      modifies this
      ensures Valid() && ndots == old(ndots)
      ensures grid == AddedDot(old(grid), sx, sy, x, y)
    {
      AddedDotKeeps(grid, sx, sy, x, y, false);
      grid := SetSpace(grid, x, y, grid[y][x].(dot := true, nassoc := 0));
    }

    /**
     * The test loop of dot_expand_or_move: every space of toadd has its
     * opposite about the dot (dx, dy) on the grid and not tied to another dot.
     */
    method OppositesFree(dx: int, dy: int, toadd: seq<(int, int)>) returns (ok: bool)
      requires Dims(grid, sx, sy) && OnGrid(toadd, sx, sy)
      ensures ok <==> OppositesOpen(grid, sx, sy, dx, dy, toadd)
    {
      var i := 0;
      while i < |toadd|
        invariant 0 <= i <= |toadd|
        invariant OppositesOpen(grid, sx, sy, dx, dy, toadd[..i])
      {
        var o := Opposite(sx, sy, toadd[i].0, toadd[i].1, dx, dy);
        if o.None? {
          return false;
        }
        var opp := grid[o.value.1][o.value.0];
        if opp.assoc && (opp.dotx != dx || opp.doty != dy) {
          return false;
        }
        assert toadd[..i + 1] == toadd[..i] + [toadd[i]];
        i := i + 1;
      }
      assert toadd[..i] == toadd;
      return true;
    }

    /**
     * The assignment loop of dot_expand_or_move: each space of toadd, and
     * its opposite when that is still unassociated, is given to the dot.
     */
    method ExpandAll(dx: int, dy: int, toadd: seq<(int, int)>)
      requires Dims(grid, sx, sy) && InGrid(sx, sy, dx, dy) && Mirrored(toadd, sx, sy, dx, dy)
      modifies this
      ensures grid == Expand(old(grid), sx, sy, dx, dy, toadd) && ndots == old(ndots)
    {
      ghost var g0 := grid;
      var i := 0;
      while i < |toadd|
        invariant 0 <= i <= |toadd| && Mirrored(toadd[..i], sx, sy, dx, dy)
        invariant grid == Expand(g0, sx, sy, dx, dy, toadd[..i]) && ndots == old(ndots)
        invariant Dims(grid, sx, sy)
      {
        ExpandNext(g0, sx, sy, dx, dy, toadd, i);
        var x, y := toadd[i].0, toadd[i].1;
        var ox, oy := dx + (dx - x), dy + (dy - y);
        assert ox == 2 * dx - x && oy == 2 * dy - y;
        ghost var before := grid;
        GiveTile(dx, dy, x, y);
        if !grid[oy][ox].assoc {
          GiveTile(dx, dy, ox, oy);
        }
        assert grid == GivePair(before, sx, sy, dx, dy, x, y);
        i := i + 1;
      }
      assert toadd[..i] == toadd;
    }

    /** A tile handed to the dot (dx, dy): F_TILE_ASSOC, dotx and doty set, and the dot's count raised. */
    method GiveTile(dx: int, dy: int, x: int, y: int)
      requires Dims(grid, sx, sy) && InGrid(sx, sy, dx, dy) && InGrid(sx, sy, x, y)
      modifies this
      ensures grid == Give(old(grid), sx, sy, dx, dy, x, y) && ndots == old(ndots)
    {
      grid := SetSpace(grid, x, y, Assign(grid[y][x], dx, dy));
      grid := SetSpace(grid, dx, dy, grid[dy][dx].(nassoc := grid[dy][dx].nassoc + 1));
    }

    /**
     * dot_expand_or_move: when every space of toadd has a free opposite
     * about the dot (dx, dy), gives them all and their opposites to the dot
     * and runs solver_obvious_dot; otherwise changes nothing.
     */
    method DotExpandOrMove(dx: int, dy: int, toadd: seq<(int, int)>) returns (r: bool)
      requires Valid() && InGrid(sx, sy, dx, dy) && grid[dy][dx].dot && OnGrid(toadd, sx, sy)
      modifies this
      ensures Valid() && ndots == old(ndots)
      ensures r <==> OppositesOpen(old(grid), sx, sy, dx, dy, toadd)
      ensures !r ==> grid == old(grid)
      ensures r ==> Mirrored(toadd, sx, sy, dx, dy) &&
                    grid == Obvious(Expand(old(grid), sx, sy, dx, dy, toadd), sx, sy, dx, dy)
    {
      r := OppositesFree(dx, dy, toadd);
      if !r {
        return;
      }
      OpenMirrored(grid, sx, sy, dx, dy, toadd);
      ExpandKeepsValid(grid, sx, sy, dx, dy, toadd);
      ExpandAll(dx, dy, toadd);
      var _ := SolverObviousDot(dx, dy);
    }

    /**
     * The block loop of generate_try_block: the tiles of the rectangle
     * x1..x2 by y1..y2, row by row; it fails on an associated tile or on a
     * block of more than MAX_TOADD tiles.
     */
    method CollectBlock(x1: int, y1: int, x2: int, y2: int) returns (ok: bool, toadd: seq<(int, int)>)
      requires Dims(grid, sx, sy) && 0 <= x1 && 0 <= y1 && x2 < sx && y2 < sy
      ensures ok <==> |Block(x1, x2, y1, y2)| <= MaxToAdd && Unassociated(grid, sx, sy, Block(x1, x2, y1, y2))
      ensures ok ==> toadd == Block(x1, x2, y1, y2)
    {
      ghost var full := Block(x1, x2, y1, y2);
      toadd := [];
      assert toadd + Block(x1, x2, y1, y2) == full;
      var y := y1;
      while y <= y2
        invariant y1 <= y && toadd + Block(x1, x2, y, y2) == full
        invariant |toadd| <= MaxToAdd && Unassociated(grid, sx, sy, toadd)
        decreases y2 - y + 2
      {
        BlockStep(toadd, x1, x2, y, y2);
        ghost var rest := Block(x1, x2, y + 2, y2);
        var x := x1;
        while x <= x2
          invariant x1 <= x && toadd + (Row(x, x2, y) + rest) == full
          invariant |toadd| <= MaxToAdd && Unassociated(grid, sx, sy, toadd)
          decreases x2 - x + 2
        {
          RowStep(toadd, x, x2, y, rest);
          assert full[|toadd|] == (x, y);
          if grid[y][x].assoc {
            assert !Unassociated(grid, sx, sy, full);
            return false, toadd;
          }
          if |toadd| >= MaxToAdd {
            return false, toadd;
          }
          toadd := toadd + [(x, y)];
          x := x + 2;
        }
        RowDone(toadd, x, x2, y, rest);
        y := y + 2;
      }
      assert toadd == full;
      return true, toadd;
    }

    /**
     * The outside loops of generate_try_block: the tiles above and below
     * the block, column by column, then left and right of it, row by row,
     * those on the grid, at most MAX_OUTSIDE of them.
     */
    method CollectOutside(x1: int, y1: int, x2: int, y2: int) returns (outside: seq<(int, int)>)
      ensures outside == Cap(Candidates(x1, y1, x2, y2, sx, sy))
    {
      outside := [];
      ghost var done: seq<(int, int)> := [];
      assert done + AboveBelow(x1, x2, y1, y2, sy) == AboveBelow(x1, x2, y1, y2, sy);
      var x := x1;
      while x <= x2
        invariant outside == Cap(done)
        invariant done + AboveBelow(x, x2, y1, y2, sy) == AboveBelow(x1, x2, y1, y2, sy)
        decreases x2 - x + 2
      {
        AboveBelowStep(done, x, x2, y1, y2, sy);
        CapAppend(done, Above(x, y1));
        if y1 >= 2 && |outside| < MaxOutside {
          outside := outside + [(x, y1 - 2)];
        }
        done := done + Above(x, y1);
        CapAppend(done, Below(x, y2, sy));
        if y2 <= sy - 3 && |outside| < MaxOutside {
          outside := outside + [(x, y2 + 2)];
        }
        done := done + Below(x, y2, sy);
        x := x + 2;
      }
      assert done == AboveBelow(x1, x2, y1, y2, sy);
      var y := y1;
      while y <= y2
        invariant outside == Cap(done)
        invariant done + LeftRight(y, y2, x1, x2, sx) == Candidates(x1, y1, x2, y2, sx, sy)
        decreases y2 - y + 2
      {
        LeftRightStep(done, y, y2, x1, x2, sx);
        CapAppend(done, Left(y, x1));
        if x1 >= 2 && |outside| < MaxOutside {
          outside := outside + [(x1 - 2, y)];
        }
        done := done + Left(y, x1);
        CapAppend(done, Right(y, x2, sx));
        if x2 <= sx - 3 && |outside| < MaxOutside {
          outside := outside + [(x2 + 2, y)];
        }
        done := done + Right(y, x2, sx);
        y := y + 2;
      }
      assert done == Candidates(x1, y1, x2, y2, sx, sy);
    }

    /**
     * generate_try_block: the block x1..x2 by y1..y2, when it is on the grid,
     * unassociated and at most MAX_TOADD tiles, is offered to the dots of
     * the tiles around it, in shuffled order, skipping unassociated tiles
     * and dots already of the maximum size; the first dot whose
     * dot_expand_or_move succeeds takes it.  ret says whether one did, and
     * dot is that dot.  fuel bounds each draw of the shuffle.
     */
    method GenerateTryBlock(rs: Random.Rng, x1: int, y1: int, x2: int, y2: int, fuel: nat) returns (ret: bool, ghost dot: (int, int))
      requires Valid() && ndots > 0 && rs.Valid() && x1 <= x2 && y1 <= y2
      modifies this, rs.state
      ensures Valid() && ndots == old(ndots)
      ensures !ret ==> grid == old(grid)
      ensures ret ==> FreeBlock(old(grid), sx, sy, x1, y1, x2, y2) &&
                      CanTake(old(grid), sx, sy, dot, Block(x1, x2, y1, y2), MaxSize(w, h, ndots)) &&
                      (exists c :: c in Cap(Candidates(x1, y1, x2, y2, sx, sy)) && InGrid(sx, sy, c.0, c.1) &&
                                   BelongsTo(old(grid)[c.1][c.0], dot.0, dot.1)) &&
                      Mirrored(Block(x1, x2, y1, y2), sx, sy, dot.0, dot.1) &&
                      grid == Obvious(Expand(old(grid), sx, sy, dot.0, dot.1, Block(x1, x2, y1, y2)), sx, sy, dot.0, dot.1)
      ensures !ret && FreeBlock(old(grid), sx, sy, x1, y1, x2, y2) ==>
                forall c :: c in Cap(Candidates(x1, y1, x2, y2, sx, sy)) ==>
                  InGrid(sx, sy, c.0, c.1) && Rejects(old(grid), sx, sy, c, Block(x1, x2, y1, y2), MaxSize(w, h, ndots))
    {
      dot := (0, 0);
      if x1 < 0 || y1 < 0 || x2 >= sx || y2 >= sy {
        return false, dot;
      }
      var maxsz := (w * h) / ndots;
      if maxsz < 4 {
        maxsz := 4;
      }
      assert maxsz == MaxSize(w, h, ndots);
      var ok, toadd := CollectBlock(x1, y1, x2, y2);
      if !ok {
        return false, dot;
      }
      ret, dot := OfferOutside(rs, x1, y1, x2, y2, toadd, maxsz, fuel);
    }

    /**
     * The rest of generate_try_block once the block toadd is gathered: the
     * outside tiles are gathered, shuffled and offered the block in turn.
     */
    method OfferOutside(rs: Random.Rng, x1: int, y1: int, x2: int, y2: int, toadd: seq<(int, int)>, maxsz: int, fuel: nat)
      returns (ret: bool, ghost dot: (int, int))
      requires Valid() && rs.Valid() && OnGrid(toadd, sx, sy)
      requires 0 <= x1 <= x2 < sx && 0 <= y1 <= y2 < sy
      modifies this, rs.state
      ensures Valid() && ndots == old(ndots)
      ensures !ret ==> grid == old(grid)
      ensures !ret ==> forall c :: c in Cap(Candidates(x1, y1, x2, y2, sx, sy)) ==>
                         InGrid(sx, sy, c.0, c.1) && Rejects(old(grid), sx, sy, c, toadd, maxsz)
      ensures ret ==> CanTake(old(grid), sx, sy, dot, toadd, maxsz) &&
                      (exists c :: c in Cap(Candidates(x1, y1, x2, y2, sx, sy)) && InGrid(sx, sy, c.0, c.1) &&
                                   BelongsTo(old(grid)[c.1][c.0], dot.0, dot.1)) &&
                      Mirrored(toadd, sx, sy, dot.0, dot.1) &&
                      grid == Obvious(Expand(old(grid), sx, sy, dot.0, dot.1, toadd), sx, sy, dot.0, dot.1)
    {
      var outside := CollectOutside(x1, y1, x2, y2);
      CandidatesOnGrid(x1, y1, x2, y2, sx, sy);
      assert forall c :: c in outside ==> c in Candidates(x1, y1, x2, y2, sx, sy);
      var arr := new (int, int)[|outside|](i requires 0 <= i < |outside| => outside[i]);
      assert arr[..] == outside;
      Random.Shuffle(arr, rs, fuel);
      ghost var shuffled := arr[..];
      ShuffledOnGrid(shuffled, outside, sx, sy);
      ghost var k;
      ret, dot, k := OfferBlock(arr, toadd, maxsz);
      assert arr[..] == shuffled;
      if ret {
        assert shuffled[k] in outside;
      } else {
        forall c | c in outside
          ensures InGrid(sx, sy, c.0, c.1) && Rejects(old(grid), sx, sy, c, toadd, maxsz)
        {
          var j :| 0 <= j < |shuffled| && shuffled[j] == c;
        }
      }
    }

    /**
     * The last loop of generate_try_block: the shuffled outside tiles in
     * turn; an unassociated one, or one whose dot has maxsz or more spaces,
     * is skipped, and the first whose dot_expand_or_move succeeds ends it.
     * k is the position of that tile.
     */
    method OfferBlock(arr: array<(int, int)>, toadd: seq<(int, int)>, maxsz: int) returns (ret: bool, ghost dot: (int, int), ghost k: int)
      requires Valid() && OnGrid(toadd, sx, sy)
      requires forall j :: 0 <= j < arr.Length ==> InGrid(sx, sy, arr[j].0, arr[j].1)
      modifies this
      ensures Valid() && ndots == old(ndots)
      ensures !ret ==> grid == old(grid) && forall j :: 0 <= j < arr.Length ==> Rejects(old(grid), sx, sy, arr[j], toadd, maxsz)
      ensures ret ==> 0 <= k < arr.Length && BelongsTo(old(grid)[arr[k].1][arr[k].0], dot.0, dot.1) &&
                      CanTake(old(grid), sx, sy, dot, toadd, maxsz) && Mirrored(toadd, sx, sy, dot.0, dot.1) &&
                      grid == Obvious(Expand(old(grid), sx, sy, dot.0, dot.1, toadd), sx, sy, dot.0, dot.1)
    {
      dot, k := (0, 0), 0;
      var i := 0;
      while i < arr.Length
        invariant 0 <= i <= arr.Length && grid == old(grid) && Valid() && ndots == old(ndots)
        invariant forall j :: 0 <= j < i ==> Rejects(grid, sx, sy, arr[j], toadd, maxsz)
      {
        var c := arr[i];
        var sp := grid[c.1][c.0];
        if !sp.assoc {
          i := i + 1;
          continue;
        }
        var dx, dy := sp.dotx, sp.doty;
        if grid[dy][dx].nassoc >= maxsz {
          i := i + 1;
          continue;
        }
        var moved := DotExpandOrMove(dx, dy, toadd);
        if moved {
          return true, (dx, dy), i;
        }
        i := i + 1;
      }
      return false, dot, k;
    }
  }

  /** The inner loop of encode_game over one row. */
  method EncodeRow(desc0: string, run0: nat, row: seq<Space>, ghost before: seq<GameId.Cell>) returns (desc: string, run: nat)
    requires (desc0, run0) == GameId.EncodeState(before)
    ensures (desc, run) == GameId.EncodeState(before + RowCells(row))
  {
    desc, run := desc0, run0;
    var x := 0;
    assert before + RowCells(row)[..0] == before;
    while x < |row|
      invariant 0 <= x <= |row|
      invariant (desc, run) == GameId.EncodeState(before + RowCells(row)[..x])
    {
      assert before + RowCells(row)[..x + 1] == (before + RowCells(row)[..x]) + [CellOf(row[x])];
      desc, run := EncodeSpace(desc, run, row[x], before + RowCells(row)[..x]);
      x := x + 1;
    }
    assert RowCells(row)[..|row|] == RowCells(row);
  }

  /** One space of encode_game: a dot flushes the run and writes its letter, anything else lengthens the run. */
  method EncodeSpace(desc0: string, run0: nat, sp: Space, ghost before: seq<GameId.Cell>) returns (desc: string, run: nat)
    requires (desc0, run0) == GameId.EncodeState(before)
    ensures (desc, run) == GameId.EncodeState(before + [CellOf(sp)])
  {
    assert (before + [CellOf(sp)])[..|before|] == before;
    if sp.dot {
      desc, run := Flush(desc0, run0);
      if sp.black {
        desc := desc + ['B'];
      } else {
        desc := desc + ['M'];
      }
    } else {
      desc, run := desc0, run0 + 1;
    }
  }

  /** Writing out a pending run: 'z' while more than 26 remain, then the letter of the rest. */
  method Flush(desc0: string, run0: nat) returns (desc: string, run: nat)
    ensures desc == desc0 + GameId.RunChars(run0) && run == 0
  {
    desc, run := desc0, run0;
    if run > 0 {
      while run > 26
        invariant 0 < run && desc + GameId.RunChars(run) == desc0 + GameId.RunChars(run0)
      {
        desc := desc + ['z'];
        run := run - 26;
      }
      desc := desc + [('a' as int + run - 1) as char];
      run := 0;
    }
  }
}
