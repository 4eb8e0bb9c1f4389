/**
 * What solver_obvious_dot does to the generator's grid, stated on values:
 * its closed form, the properties of that closed form, and the scan the
 * source performs, one tile at a time, proved to reach it.
 */
module Regions {

  import opened Tiles
  import opened Spaces

  /* ---------- solver_obvious_dot ---------- */

  /**
   * The test solver_obvious_dot makes before giving space (x, y) to the dot
   * (dx, dy): it is unassociated, its opposite about the dot is on the
   * grid, and that opposite is not tied to another dot.
   */
  predicate Takes(g: seq<seq<Space>>, sx: int, sy: int, dx: int, dy: int, x: int, y: int)
    requires Dims(g, sx, sy) && InGrid(sx, sy, x, y)
  {
    !g[y][x].assoc && InGrid(sx, sy, 2 * dx - x, 2 * dy - y) && !Blocked(g[2 * dy - y][2 * dx - x], dx, dy)
  }

  /** Tile (x, y) is one solver_obvious_dot gives to the dot (dx, dy) when it scans the grid g. */
  predicate Newly(g: seq<seq<Space>>, sx: int, sy: int, dx: int, dy: int, x: int, y: int)
    requires Dims(g, sx, sy) && InGrid(sx, sy, x, y)
  {
    x % 2 == 1 && y % 2 == 1 && Takes(g, sx, sy, dx, dy, x, y)
  }

  /** All tiles solver_obvious_dot gives to the dot (dx, dy). */
  ghost function NewSet(g: seq<seq<Space>>, sx: int, sy: int, dx: int, dy: int): set<(int, int)>
    requires Dims(g, sx, sy)
  {
    set x, y | 0 <= x < sx && 0 <= y < sy && Newly(g, sx, sy, dx, dy, x, y) :: (x, y)
  }

  /**
   * The space (x, y) of g once it has been given to the dot (dx, dy) when
   * taken holds, with the dot's own count set to n.
   */
  function Stage(g: seq<seq<Space>>, taken: bool, dx: int, dy: int, n: int, x: int, y: int): Space
    requires 0 <= y < |g| && 0 <= x < |g[y]|
  {
    if x == dx && y == dy then (if taken then Assign(g[y][x], dx, dy) else g[y][x]).(nassoc := n)
    else if taken then Assign(g[y][x], dx, dy)
    else g[y][x]
  }

  /** The grid after solver_obvious_dot for the dot (dx, dy). */
  ghost function Obvious(g: seq<seq<Space>>, sx: int, sy: int, dx: int, dy: int): (r: seq<seq<Space>>)
    requires Dims(g, sx, sy) && InGrid(sx, sy, dx, dy)
    ensures Dims(r, sx, sy)
  {
    seq(sy, y requires 0 <= y < sy =>
      seq(sx, x requires 0 <= x < sx =>
        Stage(g, Newly(g, sx, sy, dx, dy, x, y), dx, dy, g[dy][dx].nassoc + |NewSet(g, sx, sy, dx, dy)|, x, y)))
  }

  /** The space opposite (x, y) about (dx, dy) is on the grid and associated with that dot. */
  predicate MirrorBelongs(g: seq<seq<Space>>, sx: int, sy: int, dx: int, dy: int, x: int, y: int)
    requires Dims(g, sx, sy)
  {
    InGrid(sx, sy, 2 * dx - x, 2 * dy - y) && BelongsTo(g[2 * dy - y][2 * dx - x], dx, dy)
  }

  /** The tiles associated with (dx, dy) have their opposites on the grid and associated with it too. */
  ghost predicate DotSymmetric(g: seq<seq<Space>>, sx: int, sy: int, dx: int, dy: int)
    requires Dims(g, sx, sy)
  {
    forall y, x :: InGrid(sx, sy, x, y) && x % 2 == 1 && y % 2 == 1 && BelongsTo(g[y][x], dx, dy) ==>
      MirrorBelongs(g, sx, sy, dx, dy, x, y)
  }

  /** One space of Obvious. */
  lemma ObviousPoint(g: seq<seq<Space>>, sx: int, sy: int, dx: int, dy: int, x: int, y: int)
    requires Dims(g, sx, sy) && InGrid(sx, sy, dx, dy) && InGrid(sx, sy, x, y)
    ensures (x, y) in NewSet(g, sx, sy, dx, dy) <==> Newly(g, sx, sy, dx, dy, x, y)
    ensures Obvious(g, sx, sy, dx, dy)[y][x] ==
              Stage(g, Newly(g, sx, sy, dx, dy, x, y), dx, dy, g[dy][dx].nassoc + |NewSet(g, sx, sy, dx, dy)|, x, y)
  {
  }

  /**
   * solver_obvious_dot only adds associations: an associated space keeps its
   * dot, a space becomes associated exactly when it is in NewSet, and then
   * with (dx, dy); no other field changes except the dot's count, which
   * grows by the number of spaces newly associated.
   */
  lemma ObviousGrows(g: seq<seq<Space>>, sx: int, sy: int, dx: int, dy: int)
    requires Shape(g, sx, sy) && InGrid(sx, sy, dx, dy)
    ensures Shape(Obvious(g, sx, sy, dx, dy), sx, sy)
    ensures forall y, x :: InGrid(sx, sy, x, y) ==>
              var r := Obvious(g, sx, sy, dx, dy);
              (g[y][x].assoc ==> r[y][x].assoc && r[y][x].dotx == g[y][x].dotx && r[y][x].doty == g[y][x].doty) &&
              ((x, y) in NewSet(g, sx, sy, dx, dy) <==> !g[y][x].assoc && r[y][x].assoc) &&
              (!g[y][x].assoc && r[y][x].assoc ==> BelongsTo(r[y][x], dx, dy)) &&
              r[y][x].dot == g[y][x].dot && r[y][x].black == g[y][x].black && r[y][x].edgeSet == g[y][x].edgeSet &&
              ((x != dx || y != dy) ==> r[y][x].nassoc == g[y][x].nassoc)
    ensures Obvious(g, sx, sy, dx, dy)[dy][dx].nassoc == g[dy][dx].nassoc + |NewSet(g, sx, sy, dx, dy)|
  {
    forall y, x | InGrid(sx, sy, x, y) {
      ObviousPoint(g, sx, sy, dx, dy, x, y);
    }
  }

  /**
   * Each newly associated tile comes with its opposite: in the new grid
   * the opposite of such a tile is on the grid and associated with the dot.
   */
  lemma ObviousPairs(g: seq<seq<Space>>, sx: int, sy: int, dx: int, dy: int, x: int, y: int)
    requires Dims(g, sx, sy) && InGrid(sx, sy, dx, dy) && InGrid(sx, sy, x, y)
    requires (x, y) in NewSet(g, sx, sy, dx, dy)
    ensures MirrorBelongs(Obvious(g, sx, sy, dx, dy), sx, sy, dx, dy, x, y)
  {
    var r := Obvious(g, sx, sy, dx, dy);
    ObviousPoint(g, sx, sy, dx, dy, x, y);
    var ox, oy := 2 * dx - x, 2 * dy - y;
    assert InGrid(sx, sy, ox, oy) && !Blocked(g[oy][ox], dx, dy);
    ObviousPoint(g, sx, sy, dx, dy, ox, oy);
    if !g[oy][ox].assoc {
      assert Newly(g, sx, sy, dx, dy, ox, oy);
    }
    assert BelongsTo(r[oy][ox], dx, dy);
  }

  /**
   * solver_obvious_dot leaves nothing undone: afterwards every unassociated
   * tile has no opposite on the grid or an opposite tied to another dot.
   */
  lemma ObviousMaximal(g: seq<seq<Space>>, sx: int, sy: int, dx: int, dy: int)
    requires Dims(g, sx, sy) && InGrid(sx, sy, dx, dy)
    ensures NewSet(Obvious(g, sx, sy, dx, dy), sx, sy, dx, dy) == {}
  {
    var r := Obvious(g, sx, sy, dx, dy);
    forall y, x | InGrid(sx, sy, x, y) ensures !Newly(r, sx, sy, dx, dy, x, y) {
      ObviousPoint(g, sx, sy, dx, dy, x, y);
      if x % 2 == 1 && y % 2 == 1 && !r[y][x].assoc && InGrid(sx, sy, 2 * dx - x, 2 * dy - y) {
        var ox, oy := 2 * dx - x, 2 * dy - y;
        ObviousPoint(g, sx, sy, dx, dy, ox, oy);
        assert Blocked(g[oy][ox], dx, dy);
      }
    }
  }

  /** Running solver_obvious_dot a second time for the same dot changes nothing. */
  lemma ObviousIdempotent(g: seq<seq<Space>>, sx: int, sy: int, dx: int, dy: int)
    requires Dims(g, sx, sy) && InGrid(sx, sy, dx, dy)
    ensures Obvious(Obvious(g, sx, sy, dx, dy), sx, sy, dx, dy) == Obvious(g, sx, sy, dx, dy)
  {
    var r := Obvious(g, sx, sy, dx, dy);
    ObviousMaximal(g, sx, sy, dx, dy);
    var r2 := Obvious(r, sx, sy, dx, dy);
    forall y, x | InGrid(sx, sy, x, y) ensures r2[y][x] == r[y][x] {
      ObviousPoint(r, sx, sy, dx, dy, x, y);
    }
    GridExt(r2, r, sx, sy);
  }

  /** solver_obvious_dot keeps every association pointing at a dot and leaves the border closed. */
  lemma ObviousKeepsValid(g: seq<seq<Space>>, sx: int, sy: int, dx: int, dy: int)
    requires Shape(g, sx, sy) && InGrid(sx, sy, dx, dy) && g[dy][dx].dot
    requires AssocToDots(g, sx, sy) && BorderClosed(g, sx, sy)
    ensures Shape(Obvious(g, sx, sy, dx, dy), sx, sy)
    ensures AssocToDots(Obvious(g, sx, sy, dx, dy), sx, sy)
    ensures BorderClosed(Obvious(g, sx, sy, dx, dy), sx, sy)
  {
    ObviousGrows(g, sx, sy, dx, dy);
  }

  /** solver_obvious_dot keeps the dot's region point-symmetric about it. */
  lemma ObviousKeepsSymmetry(g: seq<seq<Space>>, sx: int, sy: int, dx: int, dy: int)
    requires Dims(g, sx, sy) && InGrid(sx, sy, dx, dy)
    requires DotSymmetric(g, sx, sy, dx, dy)
    ensures DotSymmetric(Obvious(g, sx, sy, dx, dy), sx, sy, dx, dy)
  {
    var r := Obvious(g, sx, sy, dx, dy);
    forall y, x | InGrid(sx, sy, x, y) && x % 2 == 1 && y % 2 == 1 && BelongsTo(r[y][x], dx, dy)
      ensures MirrorBelongs(r, sx, sy, dx, dy, x, y)
    {
      ObviousPoint(g, sx, sy, dx, dy, x, y);
      if g[y][x].assoc {
        assert BelongsTo(g[y][x], dx, dy);
        assert MirrorBelongs(g, sx, sy, dx, dy, x, y);
        ObviousPoint(g, sx, sy, dx, dy, 2 * dx - x, 2 * dy - y);
      } else {
        ObviousPairs(g, sx, sy, dx, dy, x, y);
      }
    }
  }

  /* ---------- the scan of solver_obvious_dot ---------- */

  /** The scan of solver_obvious_dot visits the odd coordinates 1, 3, 5, ... */
  lemma Odd(k: int)
    ensures (2 * k + 1) % 2 == 1
  {
  }

  /** Giving space (x, y) to the dot (dx, dy) and counting it on the dot, as solver_obvious_dot writes it. */
  function Give(g: seq<seq<Space>>, sx: int, sy: int, dx: int, dy: int, x: int, y: int): (r: seq<seq<Space>>)
    requires Dims(g, sx, sy) && InGrid(sx, sy, dx, dy) && InGrid(sx, sy, x, y)
    ensures Dims(r, sx, sy)
  {
    var g1 := SetSpace(g, x, y, Assign(g[y][x], dx, dy));
    SetSpace(g1, dx, dy, g1[dy][dx].(nassoc := g1[dy][dx].nassoc + 1))
  }

  /**
   * Giving (x, y) and its opposite about the dot (dx, dy) to the dot, as
   * solver_obvious_dot and dot_expand_or_move write it: the opposite is read
   * after (x, y) is written and is given only when it is still unassociated,
   * so a space that is its own opposite is counted once.
   */
  function GivePair(g: seq<seq<Space>>, sx: int, sy: int, dx: int, dy: int, x: int, y: int): (r: seq<seq<Space>>)
    requires Dims(g, sx, sy) && InGrid(sx, sy, dx, dy) && InGrid(sx, sy, x, y) && InGrid(sx, sy, 2 * dx - x, 2 * dy - y)
    ensures Dims(r, sx, sy)
  {
    var g2 := Give(g, sx, sy, dx, dy, x, y);
    if g2[2 * dy - y][2 * dx - x].assoc then g2
    else Give(g2, sx, sy, dx, dy, 2 * dx - x, 2 * dy - y)
  }

  /**
   * One tile (x, y) of the scan of solver_obvious_dot: the grid after it and
   * whether it gave anything to the dot (dx, dy). A taken tile is given to
   * the dot together with its opposite.
   */
  function TileStep(g: seq<seq<Space>>, sx: int, sy: int, dx: int, dy: int, x: int, y: int): (r: (seq<seq<Space>>, bool))
    requires Dims(g, sx, sy) && InGrid(sx, sy, dx, dy) && InGrid(sx, sy, x, y)
    ensures Dims(r.0, sx, sy)
  {
    if !Takes(g, sx, sy, dx, dy, x, y) then (g, false)
    else (GivePair(g, sx, sy, dx, dy, x, y), true)
  }

  /** (x, y) comes before (cx, cy) in the column-by-column scan of solver_obvious_dot. */
  predicate Before(cx: int, cy: int, x: int, y: int)
  {
    x < cx || (x == cx && y < cy)
  }

  /**
   * Once the scan reaches (cx, cy) it has given tile (x, y) away: the tile
   * is one of NewSet and it has been scanned, or its opposite has been
   * scanned and is itself of NewSet (the scan then takes both).
   */
  predicate InScan(g: seq<seq<Space>>, sx: int, sy: int, dx: int, dy: int, cx: int, cy: int, x: int, y: int)
    requires Dims(g, sx, sy) && InGrid(sx, sy, x, y)
  {
    Newly(g, sx, sy, dx, dy, x, y) &&
    (Before(cx, cy, x, y) ||
     (Before(cx, cy, 2 * dx - x, 2 * dy - y) && Newly(g, sx, sy, dx, dy, 2 * dx - x, 2 * dy - y)))
  }

  /** The tiles the scan has given away once it reaches (cx, cy). */
  ghost function Scanned(g: seq<seq<Space>>, sx: int, sy: int, dx: int, dy: int, cx: int, cy: int): set<(int, int)>
    requires Dims(g, sx, sy)
  {
    set x, y | 0 <= x < sx && 0 <= y < sy && InScan(g, sx, sy, dx, dy, cx, cy, x, y) :: (x, y)
  }

  /**
   * The grid g is g0 with the tiles the scan has given away at (cx, cy) and
   * those of d given to the dot (dx, dy), and the dot's count set to n.
   */
  ghost predicate Partial(g: seq<seq<Space>>, g0: seq<seq<Space>>, sx: int, sy: int, dx: int, dy: int,
                          cx: int, cy: int, d: set<(int, int)>, n: int)
    requires Dims(g0, sx, sy)
  {
    Dims(g, sx, sy) &&
    forall y, x {:trigger g[y][x]} :: InGrid(sx, sy, x, y) ==>
      g[y][x] == Stage(g0, InScan(g0, sx, sy, dx, dy, cx, cy, x, y) || (x, y) in d, dx, dy, n, x, y)
  }

  /** The grid g is g0 with the tiles scanned up to (cx, cy) given to the dot and its count grown to match. */
  ghost predicate Staged(g: seq<seq<Space>>, g0: seq<seq<Space>>, sx: int, sy: int, dx: int, dy: int, cx: int, cy: int)
    requires Dims(g0, sx, sy) && InGrid(sx, sy, dx, dy)
  {
    Partial(g, g0, sx, sy, dx, dy, cx, cy, {}, g0[dy][dx].nassoc + |Scanned(g0, sx, sy, dx, dy, cx, cy)|)
  }

  /** Giving space (x, y) to the dot adds it to d and one to the count. */
  lemma PartialGive(g: seq<seq<Space>>, g0: seq<seq<Space>>, sx: int, sy: int, dx: int, dy: int,
                    cx: int, cy: int, d: set<(int, int)>, n: int, x: int, y: int)
    requires Dims(g0, sx, sy) && InGrid(sx, sy, dx, dy) && InGrid(sx, sy, x, y)
    requires Partial(g, g0, sx, sy, dx, dy, cx, cy, d, n)
    ensures Partial(Give(g, sx, sy, dx, dy, x, y), g0, sx, sy, dx, dy, cx, cy, d + {(x, y)}, n + 1)
  {
    var g1 := SetSpace(g, x, y, Assign(g[y][x], dx, dy));
    assert Partial(g1, g0, sx, sy, dx, dy, cx, cy, d + {(x, y)}, n);
  }

  /** Partial depends on the given tiles and the count only through their values. */
  lemma PartialSame(g: seq<seq<Space>>, g0: seq<seq<Space>>, sx: int, sy: int, dx: int, dy: int,
                    cx: int, cy: int, d: set<(int, int)>, n: int, e: set<(int, int)>, m: int)
    requires Dims(g0, sx, sy) && Partial(g, g0, sx, sy, dx, dy, cx, cy, d, n) && e == d && n == m
    ensures Partial(g, g0, sx, sy, dx, dy, cx, cy, e, m)
  {
  }

  /** The scan position moves from (cx, cy), with d given on top, to (ex, ey) covering the same tiles. */
  lemma PartialMove(g: seq<seq<Space>>, g0: seq<seq<Space>>, sx: int, sy: int, dx: int, dy: int,
                    cx: int, cy: int, d: set<(int, int)>, n: int, ex: int, ey: int, m: int)
    requires Dims(g0, sx, sy) && Partial(g, g0, sx, sy, dx, dy, cx, cy, d, n) && n == m
    requires forall q, p :: InGrid(sx, sy, p, q) ==>
               (InScan(g0, sx, sy, dx, dy, ex, ey, p, q) <==> InScan(g0, sx, sy, dx, dy, cx, cy, p, q) || (p, q) in d)
    ensures Partial(g, g0, sx, sy, dx, dy, ex, ey, {}, m)
  {
  }

  /**
   * Scanning tile t = (x, y) gives away t when it is one of NewSet, and its
   * opposite o when both are; nothing given away is ever taken back.
   */
  lemma ScanPoint(g: seq<seq<Space>>, sx: int, sy: int, dx: int, dy: int, x: int, y: int, p: int, q: int)
    requires Dims(g, sx, sy) && InGrid(sx, sy, x, y) && InGrid(sx, sy, p, q) && x % 2 == 1 && y % 2 == 1
    ensures InScan(g, sx, sy, dx, dy, x, y + 2, p, q) <==>
              InScan(g, sx, sy, dx, dy, x, y, p, q) ||
              ((p, q) == (x, y) && Newly(g, sx, sy, dx, dy, x, y)) ||
              ((p, q) == (2 * dx - x, 2 * dy - y) && Newly(g, sx, sy, dx, dy, p, q) && Newly(g, sx, sy, dx, dy, x, y))
  {
    if Newly(g, sx, sy, dx, dy, p, q) {
      var op, oq := 2 * dx - p, 2 * dy - q;
      assert InGrid(sx, sy, op, oq);
      assert Before(x, y + 2, p, q) <==> Before(x, y, p, q) || (p, q) == (x, y);
      if Newly(g, sx, sy, dx, dy, op, oq) {
        assert Before(x, y + 2, op, oq) <==> Before(x, y, op, oq) || (op, oq) == (x, y);
      }
    }
  }

  /** The tiles the scan gives away at tile (x, y) when it takes that tile. */
  ghost function TakeDelta(g: seq<seq<Space>>, sx: int, sy: int, dx: int, dy: int, x: int, y: int): set<(int, int)>
    requires Dims(g, sx, sy) && InGrid(sx, sy, x, y)
  {
    {(x, y)} +
    (if InGrid(sx, sy, 2 * dx - x, 2 * dy - y) && Newly(g, sx, sy, dx, dy, 2 * dx - x, 2 * dy - y) &&
        !InScan(g, sx, sy, dx, dy, x, y, 2 * dx - x, 2 * dy - y)
     then {(2 * dx - x, 2 * dy - y)} else {})
  }

  /** Taking tile (x, y), of NewSet and not yet given away, adds exactly TakeDelta to the scan, pointwise. */
  lemma ScanTakePoints(g: seq<seq<Space>>, sx: int, sy: int, dx: int, dy: int, x: int, y: int)
    requires Dims(g, sx, sy) && InGrid(sx, sy, x, y) && x % 2 == 1 && y % 2 == 1
    requires Newly(g, sx, sy, dx, dy, x, y) && !InScan(g, sx, sy, dx, dy, x, y, x, y)
    ensures forall q, p :: InGrid(sx, sy, p, q) ==>
              (InScan(g, sx, sy, dx, dy, x, y + 2, p, q) <==>
               InScan(g, sx, sy, dx, dy, x, y, p, q) || (p, q) in TakeDelta(g, sx, sy, dx, dy, x, y))
  {
    forall q, p | InGrid(sx, sy, p, q)
      ensures InScan(g, sx, sy, dx, dy, x, y + 2, p, q) <==>
              InScan(g, sx, sy, dx, dy, x, y, p, q) || (p, q) in TakeDelta(g, sx, sy, dx, dy, x, y)
    {
      ScanPoint(g, sx, sy, dx, dy, x, y, p, q);
    }
  }

  /** Taking tile (x, y) grows the set of tiles given away by TakeDelta. */
  lemma ScanTake(g: seq<seq<Space>>, sx: int, sy: int, dx: int, dy: int, x: int, y: int)
    requires Dims(g, sx, sy) && InGrid(sx, sy, x, y) && x % 2 == 1 && y % 2 == 1
    requires Newly(g, sx, sy, dx, dy, x, y) && !InScan(g, sx, sy, dx, dy, x, y, x, y)
    ensures forall q, p :: InGrid(sx, sy, p, q) ==>
              (InScan(g, sx, sy, dx, dy, x, y + 2, p, q) <==>
               InScan(g, sx, sy, dx, dy, x, y, p, q) || (p, q) in TakeDelta(g, sx, sy, dx, dy, x, y))
    ensures |Scanned(g, sx, sy, dx, dy, x, y + 2)| == |Scanned(g, sx, sy, dx, dy, x, y)| + |TakeDelta(g, sx, sy, dx, dy, x, y)|
  {
    ScanTakePoints(g, sx, sy, dx, dy, x, y);
    ScanGrows(g, sx, sy, dx, dy, x, y, x, y + 2, TakeDelta(g, sx, sy, dx, dy, x, y));
  }

  /** Scanning a tile that is not of NewSet, or already given away, gives away nothing more, pointwise. */
  lemma ScanSkipPoints(g: seq<seq<Space>>, sx: int, sy: int, dx: int, dy: int, x: int, y: int)
    requires Dims(g, sx, sy) && InGrid(sx, sy, x, y) && x % 2 == 1 && y % 2 == 1
    requires !(Newly(g, sx, sy, dx, dy, x, y) && !InScan(g, sx, sy, dx, dy, x, y, x, y))
    ensures forall q, p :: InGrid(sx, sy, p, q) ==>
              (InScan(g, sx, sy, dx, dy, x, y + 2, p, q) <==> InScan(g, sx, sy, dx, dy, x, y, p, q))
  {
    forall q, p | InGrid(sx, sy, p, q)
      ensures InScan(g, sx, sy, dx, dy, x, y + 2, p, q) <==> InScan(g, sx, sy, dx, dy, x, y, p, q)
    {
      ScanPoint(g, sx, sy, dx, dy, x, y, p, q);
      if (p, q) == (2 * dx - x, 2 * dy - y) && Newly(g, sx, sy, dx, dy, p, q) && Newly(g, sx, sy, dx, dy, x, y) {
        assert Before(x, y, p, q);
      }
    }
  }

  /** Scanning a tile the dot does not take leaves the set of tiles given away as it was. */
  lemma ScanSkip(g: seq<seq<Space>>, sx: int, sy: int, dx: int, dy: int, x: int, y: int)
    requires Dims(g, sx, sy) && InGrid(sx, sy, x, y) && x % 2 == 1 && y % 2 == 1
    requires !(Newly(g, sx, sy, dx, dy, x, y) && !InScan(g, sx, sy, dx, dy, x, y, x, y))
    ensures forall q, p :: InGrid(sx, sy, p, q) ==>
              (InScan(g, sx, sy, dx, dy, x, y + 2, p, q) <==> InScan(g, sx, sy, dx, dy, x, y, p, q))
    ensures Scanned(g, sx, sy, dx, dy, x, y + 2) == Scanned(g, sx, sy, dx, dy, x, y)
  {
    ScanSkipPoints(g, sx, sy, dx, dy, x, y);
    ScanGrows(g, sx, sy, dx, dy, x, y, x, y + 2, {});
  }

  /** A scan that covers, pointwise, the tiles of another plus d (given away after it) is that one plus d as a set. */
  lemma ScanGrows(g: seq<seq<Space>>, sx: int, sy: int, dx: int, dy: int, cx: int, cy: int, ex: int, ey: int, d: set<(int, int)>)
    requires Dims(g, sx, sy)
    requires forall p, q :: (p, q) in d ==> InGrid(sx, sy, p, q) && !InScan(g, sx, sy, dx, dy, cx, cy, p, q)
    requires forall q, p :: InGrid(sx, sy, p, q) ==>
               (InScan(g, sx, sy, dx, dy, ex, ey, p, q) <==> InScan(g, sx, sy, dx, dy, cx, cy, p, q) || (p, q) in d)
    ensures Scanned(g, sx, sy, dx, dy, ex, ey) == Scanned(g, sx, sy, dx, dy, cx, cy) + d
    ensures |Scanned(g, sx, sy, dx, dy, ex, ey)| == |Scanned(g, sx, sy, dx, dy, cx, cy)| + |d|
  {
    var a := Scanned(g, sx, sy, dx, dy, cx, cy);
    var b := Scanned(g, sx, sy, dx, dy, ex, ey);
    forall z | z in b ensures z in a + d {
      assert InGrid(sx, sy, z.0, z.1);
    }
    forall z | z in a + d ensures z in b {
      assert InGrid(sx, sy, z.0, z.1);
    }
    assert b == a + d;
    assert a * d == {};
  }

  /** Before the scan starts nothing has been given away. */
  lemma StartStaged(g: seq<seq<Space>>, sx: int, sy: int, dx: int, dy: int)
    requires Dims(g, sx, sy) && InGrid(sx, sy, dx, dy)
    ensures Scanned(g, sx, sy, dx, dy, 1, 1) == {}
    ensures Staged(g, g, sx, sy, dx, dy, 1, 1)
  {
    forall q, p | InGrid(sx, sy, p, q) ensures !InScan(g, sx, sy, dx, dy, 1, 1, p, q) {
    }
    assert Scanned(g, sx, sy, dx, dy, 1, 1) == {};
    assert Partial(g, g, sx, sy, dx, dy, 1, 1, {}, g[dy][dx].nassoc);
  }

  /** Past the last row, the scan of column cx covers what the start of column cx + 2 does, pointwise. */
  lemma ColumnPoints(g: seq<seq<Space>>, sx: int, sy: int, dx: int, dy: int, cx: int, cy: int)
    requires Dims(g, sx, sy) && cx % 2 == 1 && cy >= sy
    ensures forall q, p :: InGrid(sx, sy, p, q) ==>
              (InScan(g, sx, sy, dx, dy, cx + 2, 1, p, q) <==> InScan(g, sx, sy, dx, dy, cx, cy, p, q) || (p, q) in {})
  {
    forall q, p | InGrid(sx, sy, p, q)
      ensures InScan(g, sx, sy, dx, dy, cx + 2, 1, p, q) <==> InScan(g, sx, sy, dx, dy, cx, cy, p, q)
    {
      if Newly(g, sx, sy, dx, dy, p, q) {
        assert Before(cx, cy, p, q) == Before(cx + 2, 1, p, q);
        assert Before(cx, cy, 2 * dx - p, 2 * dy - q) == Before(cx + 2, 1, 2 * dx - p, 2 * dy - q);
      }
    }
  }

  /** Finishing a column at cy >= sy is starting the next one. */
  lemma ColumnStaged(g: seq<seq<Space>>, g0: seq<seq<Space>>, sx: int, sy: int, dx: int, dy: int, cx: int, cy: int)
    requires Dims(g0, sx, sy) && InGrid(sx, sy, dx, dy) && cx % 2 == 1 && cy >= sy
    requires Staged(g, g0, sx, sy, dx, dy, cx, cy)
    ensures Scanned(g0, sx, sy, dx, dy, cx, cy) == Scanned(g0, sx, sy, dx, dy, cx + 2, 1)
    ensures Staged(g, g0, sx, sy, dx, dy, cx + 2, 1)
  {
    ColumnPoints(g0, sx, sy, dx, dy, cx, cy);
    ScanGrows(g0, sx, sy, dx, dy, cx, cy, cx + 2, 1, {});
    PartialMove(g, g0, sx, sy, dx, dy, cx, cy, {}, g0[dy][dx].nassoc + |Scanned(g0, sx, sy, dx, dy, cx, cy)|, cx + 2, 1,
                g0[dy][dx].nassoc + |Scanned(g0, sx, sy, dx, dy, cx + 2, 1)|);
  }

  /** A grid staged through the whole scan is the grid Obvious describes, and the scan has given away NewSet. */
  lemma FinishStaged(g: seq<seq<Space>>, g0: seq<seq<Space>>, sx: int, sy: int, dx: int, dy: int, cx: int)
    requires Dims(g0, sx, sy) && InGrid(sx, sy, dx, dy) && cx >= sx
    requires Staged(g, g0, sx, sy, dx, dy, cx, 1)
    ensures Scanned(g0, sx, sy, dx, dy, cx, 1) == NewSet(g0, sx, sy, dx, dy)
    ensures g == Obvious(g0, sx, sy, dx, dy)
  {
    forall q, p | InGrid(sx, sy, p, q)
      ensures InScan(g0, sx, sy, dx, dy, cx, 1, p, q) <==> Newly(g0, sx, sy, dx, dy, p, q)
    {
    }
    assert Scanned(g0, sx, sy, dx, dy, cx, 1) == NewSet(g0, sx, sy, dx, dy);
    var r := Obvious(g0, sx, sy, dx, dy);
    forall y, x | InGrid(sx, sy, x, y) ensures g[y][x] == r[y][x] {
      ObviousPoint(g0, sx, sy, dx, dy, x, y);
    }
    GridExt(g, r, sx, sy);
  }

  /** On a staged grid, the take test of solver_obvious_dot fires exactly on a tile of NewSet not yet given away. */
  lemma TakesScan(g: seq<seq<Space>>, g0: seq<seq<Space>>, sx: int, sy: int, dx: int, dy: int,
                  cx: int, cy: int, n: int, x: int, y: int)
    requires Dims(g0, sx, sy) && InGrid(sx, sy, x, y) && x % 2 == 1 && y % 2 == 1
    requires Partial(g, g0, sx, sy, dx, dy, cx, cy, {}, n)
    ensures Takes(g, sx, sy, dx, dy, x, y) <==>
              Newly(g0, sx, sy, dx, dy, x, y) && !InScan(g0, sx, sy, dx, dy, cx, cy, x, y)
  {
    assert g[y][x] == Stage(g0, InScan(g0, sx, sy, dx, dy, cx, cy, x, y), dx, dy, n, x, y);
    if InGrid(sx, sy, 2 * dx - x, 2 * dy - y) {
      var ox, oy := 2 * dx - x, 2 * dy - y;
      assert g[oy][ox] == Stage(g0, InScan(g0, sx, sy, dx, dy, cx, cy, ox, oy), dx, dy, n, ox, oy);
    }
  }

  /** The opposite of a tile about a dot is a tile too. */
  lemma OddMirror(d: int, x: int)
    requires x % 2 == 1
    ensures (2 * d - x) % 2 == 1
  {
  }

  /** A tile step that takes gives the tile, then its opposite unless that is already associated. */
  lemma TileStepTaken(g: seq<seq<Space>>, sx: int, sy: int, dx: int, dy: int, x: int, y: int)
    requires Dims(g, sx, sy) && InGrid(sx, sy, dx, dy) && InGrid(sx, sy, x, y) && Takes(g, sx, sy, dx, dy, x, y)
    ensures Give(g, sx, sy, dx, dy, x, y)[2 * dy - y][2 * dx - x].assoc ==>
              TileStep(g, sx, sy, dx, dy, x, y) == (Give(g, sx, sy, dx, dy, x, y), true)
    ensures !Give(g, sx, sy, dx, dy, x, y)[2 * dy - y][2 * dx - x].assoc ==>
              TileStep(g, sx, sy, dx, dy, x, y) ==
              (Give(Give(g, sx, sy, dx, dy, x, y), sx, sy, dx, dy, 2 * dx - x, 2 * dy - y), true)
  {
  }

  /** TakeDelta is the tile alone when its opposite is not also to be given away. */
  lemma DeltaOne(g: seq<seq<Space>>, sx: int, sy: int, dx: int, dy: int, x: int, y: int)
    requires Dims(g, sx, sy) && InGrid(sx, sy, x, y)
    requires (2 * dx - x, 2 * dy - y) == (x, y) ||
             !(InGrid(sx, sy, 2 * dx - x, 2 * dy - y) && Newly(g, sx, sy, dx, dy, 2 * dx - x, 2 * dy - y) &&
               !InScan(g, sx, sy, dx, dy, x, y, 2 * dx - x, 2 * dy - y))
    ensures TakeDelta(g, sx, sy, dx, dy, x, y) == {(x, y)}
  {
  }

  /** TakeDelta is the tile and its opposite when that opposite is another tile still to be given away. */
  lemma DeltaTwo(g: seq<seq<Space>>, sx: int, sy: int, dx: int, dy: int, x: int, y: int)
    requires Dims(g, sx, sy) && InGrid(sx, sy, x, y) && (2 * dx - x, 2 * dy - y) != (x, y)
    requires InGrid(sx, sy, 2 * dx - x, 2 * dy - y) && Newly(g, sx, sy, dx, dy, 2 * dx - x, 2 * dy - y) &&
             !InScan(g, sx, sy, dx, dy, x, y, 2 * dx - x, 2 * dy - y)
    ensures TakeDelta(g, sx, sy, dx, dy, x, y) == {(x, y)} + {(2 * dx - x, 2 * dy - y)}
    ensures |TakeDelta(g, sx, sy, dx, dy, x, y)| == 2
  {
  }

  /** A tile step that takes gives away TakeDelta, one count per space. */
  lemma StepTakeGrid(g: seq<seq<Space>>, g0: seq<seq<Space>>, sx: int, sy: int, dx: int, dy: int, n: int, x: int, y: int)
    requires Dims(g0, sx, sy) && InGrid(sx, sy, dx, dy) && InGrid(sx, sy, x, y) && x % 2 == 1 && y % 2 == 1
    requires Partial(g, g0, sx, sy, dx, dy, x, y, {}, n)
    requires Newly(g0, sx, sy, dx, dy, x, y) && !InScan(g0, sx, sy, dx, dy, x, y, x, y)
    requires Takes(g, sx, sy, dx, dy, x, y)
    ensures TileStep(g, sx, sy, dx, dy, x, y).1
    ensures Partial(TileStep(g, sx, sy, dx, dy, x, y).0, g0, sx, sy, dx, dy, x, y,
                    TakeDelta(g0, sx, sy, dx, dy, x, y), n + |TakeDelta(g0, sx, sy, dx, dy, x, y)|)
  {
    var g2: seq<seq<Space>> := Give(g, sx, sy, dx, dy, x, y);
    TileStepTaken(g, sx, sy, dx, dy, x, y);
    PartialGive(g, g0, sx, sy, dx, dy, x, y, {}, n, x, y);
    assert {} + {(x, y)} == {(x, y)};
    if g2[2 * dy - y][2 * dx - x].assoc {
      StepTakeOne(g2, g0, sx, sy, dx, dy, n, x, y);
    } else {
      StepTakeTwo(g2, g0, sx, sy, dx, dy, n, x, y);
    }
  }

  /** The take ends after the tile itself when its opposite is associated by then. */
  lemma StepTakeOne(g: seq<seq<Space>>, g0: seq<seq<Space>>, sx: int, sy: int, dx: int, dy: int, n: int, x: int, y: int)
    requires Dims(g0, sx, sy) && InGrid(sx, sy, dx, dy) && InGrid(sx, sy, x, y) && x % 2 == 1 && y % 2 == 1
    requires Partial(g, g0, sx, sy, dx, dy, x, y, {(x, y)}, n + 1)
    requires InGrid(sx, sy, 2 * dx - x, 2 * dy - y) && g[2 * dy - y][2 * dx - x].assoc
    ensures Partial(g, g0, sx, sy, dx, dy, x, y, TakeDelta(g0, sx, sy, dx, dy, x, y), n + |TakeDelta(g0, sx, sy, dx, dy, x, y)|)
  {
    var ox, oy := 2 * dx - x, 2 * dy - y;
    assert g[oy][ox] == Stage(g0, InScan(g0, sx, sy, dx, dy, x, y, ox, oy) || (ox, oy) in {(x, y)}, dx, dy, n + 1, ox, oy);
    DeltaOne(g0, sx, sy, dx, dy, x, y);
  }

  /** Otherwise the take gives the opposite too. */
  lemma StepTakeTwo(g: seq<seq<Space>>, g0: seq<seq<Space>>, sx: int, sy: int, dx: int, dy: int, n: int, x: int, y: int)
    requires Dims(g0, sx, sy) && InGrid(sx, sy, dx, dy) && InGrid(sx, sy, x, y) && x % 2 == 1 && y % 2 == 1
    requires Newly(g0, sx, sy, dx, dy, x, y)
    requires Partial(g, g0, sx, sy, dx, dy, x, y, {(x, y)}, n + 1)
    requires !g[2 * dy - y][2 * dx - x].assoc
    ensures Partial(Give(g, sx, sy, dx, dy, 2 * dx - x, 2 * dy - y), g0, sx, sy, dx, dy, x, y,
                    TakeDelta(g0, sx, sy, dx, dy, x, y), n + |TakeDelta(g0, sx, sy, dx, dy, x, y)|)
  {
    OppositeFree(g, g0, sx, sy, dx, dy, n, x, y);
    DeltaTwo(g0, sx, sy, dx, dy, x, y);
    PartialGiveOpposite(g, g0, sx, sy, dx, dy, n, x, y, TakeDelta(g0, sx, sy, dx, dy, x, y), n + |TakeDelta(g0, sx, sy, dx, dy, x, y)|);
  }

  /** Giving the opposite tile on top of the tile itself: d is the two of them. */
  lemma PartialGiveOpposite(g: seq<seq<Space>>, g0: seq<seq<Space>>, sx: int, sy: int, dx: int, dy: int, n: int, x: int, y: int,
                            d: set<(int, int)>, m: int)
    requires Dims(g0, sx, sy) && InGrid(sx, sy, dx, dy) && InGrid(sx, sy, 2 * dx - x, 2 * dy - y)
    requires Partial(g, g0, sx, sy, dx, dy, x, y, {(x, y)}, n + 1)
    requires d == {(x, y)} + {(2 * dx - x, 2 * dy - y)} && m == n + 2
    ensures Partial(Give(g, sx, sy, dx, dy, 2 * dx - x, 2 * dy - y), g0, sx, sy, dx, dy, x, y, d, m)
  {
    PartialGive(g, g0, sx, sy, dx, dy, x, y, {(x, y)}, n + 1, 2 * dx - x, 2 * dy - y);
    PartialSame(Give(g, sx, sy, dx, dy, 2 * dx - x, 2 * dy - y), g0, sx, sy, dx, dy, x, y,
                {(x, y)} + {(2 * dx - x, 2 * dy - y)}, n + 1 + 1, d, m);
  }

  /** An opposite still unassociated once the tile is given is another tile of NewSet not yet given away. */
  lemma OppositeFree(g: seq<seq<Space>>, g0: seq<seq<Space>>, sx: int, sy: int, dx: int, dy: int, n: int, x: int, y: int)
    requires Dims(g0, sx, sy) && InGrid(sx, sy, dx, dy) && InGrid(sx, sy, x, y) && x % 2 == 1 && y % 2 == 1
    requires Newly(g0, sx, sy, dx, dy, x, y)
    requires Partial(g, g0, sx, sy, dx, dy, x, y, {(x, y)}, n + 1)
    requires !g[2 * dy - y][2 * dx - x].assoc
    ensures (2 * dx - x, 2 * dy - y) != (x, y)
    ensures Newly(g0, sx, sy, dx, dy, 2 * dx - x, 2 * dy - y) && !InScan(g0, sx, sy, dx, dy, x, y, 2 * dx - x, 2 * dy - y)
  {
    var ox, oy := 2 * dx - x, 2 * dy - y;
    OddMirror(dx, x);
    OddMirror(dy, y);
    assert g[oy][ox] == Stage(g0, InScan(g0, sx, sy, dx, dy, x, y, ox, oy) || (ox, oy) in {(x, y)}, dx, dy, n + 1, ox, oy);
  }

  /** A tile step the dot takes stages the scan one tile further and gives away at least that tile. */
  lemma TileStepTake(g: seq<seq<Space>>, g0: seq<seq<Space>>, sx: int, sy: int, dx: int, dy: int, x: int, y: int)
    requires Dims(g0, sx, sy) && InGrid(sx, sy, dx, dy) && InGrid(sx, sy, x, y) && x % 2 == 1 && y % 2 == 1
    requires Staged(g, g0, sx, sy, dx, dy, x, y) && Takes(g, sx, sy, dx, dy, x, y)
    ensures TileStep(g, sx, sy, dx, dy, x, y).1
    ensures Staged(TileStep(g, sx, sy, dx, dy, x, y).0, g0, sx, sy, dx, dy, x, y + 2)
    ensures |Scanned(g0, sx, sy, dx, dy, x, y + 2)| > |Scanned(g0, sx, sy, dx, dy, x, y)|
  {
    var n := g0[dy][dx].nassoc + |Scanned(g0, sx, sy, dx, dy, x, y)|;
    TakesScan(g, g0, sx, sy, dx, dy, x, y, n, x, y);
    StepTakeGrid(g, g0, sx, sy, dx, dy, n, x, y);
    TakeMove(TileStep(g, sx, sy, dx, dy, x, y).0, g0, sx, sy, dx, dy, n, x, y);
  }

  /** A grid with TakeDelta given on top of the scan at (x, y) is the grid staged at (x, y + 2). */
  lemma TakeMove(g: seq<seq<Space>>, g0: seq<seq<Space>>, sx: int, sy: int, dx: int, dy: int, n: int, x: int, y: int)
    requires Dims(g0, sx, sy) && InGrid(sx, sy, dx, dy) && InGrid(sx, sy, x, y) && x % 2 == 1 && y % 2 == 1
    requires Newly(g0, sx, sy, dx, dy, x, y) && !InScan(g0, sx, sy, dx, dy, x, y, x, y)
    requires n == g0[dy][dx].nassoc + |Scanned(g0, sx, sy, dx, dy, x, y)|
    requires Partial(g, g0, sx, sy, dx, dy, x, y, TakeDelta(g0, sx, sy, dx, dy, x, y), n + |TakeDelta(g0, sx, sy, dx, dy, x, y)|)
    ensures Staged(g, g0, sx, sy, dx, dy, x, y + 2)
    ensures |Scanned(g0, sx, sy, dx, dy, x, y + 2)| > |Scanned(g0, sx, sy, dx, dy, x, y)|
  {
    var d := TakeDelta(g0, sx, sy, dx, dy, x, y);
    ScanTake(g0, sx, sy, dx, dy, x, y);
    PartialMove(g, g0, sx, sy, dx, dy, x, y, d, n + |d|, x, y + 2,
                g0[dy][dx].nassoc + |Scanned(g0, sx, sy, dx, dy, x, y + 2)|);
  }

  /** A tile step the dot does not take leaves the grid alone and the scan where it was. */
  lemma TileStepSkip(g: seq<seq<Space>>, g0: seq<seq<Space>>, sx: int, sy: int, dx: int, dy: int, x: int, y: int)
    requires Dims(g0, sx, sy) && InGrid(sx, sy, dx, dy) && InGrid(sx, sy, x, y) && x % 2 == 1 && y % 2 == 1
    requires Staged(g, g0, sx, sy, dx, dy, x, y) && !Takes(g, sx, sy, dx, dy, x, y)
    ensures TileStep(g, sx, sy, dx, dy, x, y) == (g, false)
    ensures Scanned(g0, sx, sy, dx, dy, x, y + 2) == Scanned(g0, sx, sy, dx, dy, x, y)
    ensures Staged(g, g0, sx, sy, dx, dy, x, y + 2)
  {
    var n := g0[dy][dx].nassoc + |Scanned(g0, sx, sy, dx, dy, x, y)|;
    assert Partial(g, g0, sx, sy, dx, dy, x, y, {}, n);
    TakesScan(g, g0, sx, sy, dx, dy, x, y, n, x, y);
    ScanSkip(g0, sx, sy, dx, dy, x, y);
    PartialMove(g, g0, sx, sy, dx, dy, x, y, {}, n, x, y + 2, g0[dy][dx].nassoc + |Scanned(g0, sx, sy, dx, dy, x, y + 2)|);
  }

  /**
   * One tile step of solver_obvious_dot keeps the grid staged: it moves the
   * scan one tile on, and reports a take exactly when the scan gives
   * something away there.
   */
  lemma TileStepStaged(g: seq<seq<Space>>, g0: seq<seq<Space>>, sx: int, sy: int, dx: int, dy: int, x: int, y: int)
    requires Dims(g0, sx, sy) && InGrid(sx, sy, dx, dy) && InGrid(sx, sy, x, y) && x % 2 == 1 && y % 2 == 1
    requires Staged(g, g0, sx, sy, dx, dy, x, y)
    ensures Staged(TileStep(g, sx, sy, dx, dy, x, y).0, g0, sx, sy, dx, dy, x, y + 2)
    ensures TileStep(g, sx, sy, dx, dy, x, y).1 ==> Scanned(g0, sx, sy, dx, dy, x, y + 2) != {}
    ensures !TileStep(g, sx, sy, dx, dy, x, y).1 ==> Scanned(g0, sx, sy, dx, dy, x, y + 2) == Scanned(g0, sx, sy, dx, dy, x, y)
  {
    assert Dims(g, sx, sy);
    if Takes(g, sx, sy, dx, dy, x, y) {
      TileStepTake(g, g0, sx, sy, dx, dy, x, y);
    } else {
      TileStepSkip(g, g0, sx, sy, dx, dy, x, y);
    }
  }

  /* ---------- the scan as the grid it leaves ---------- */

  /** The grid the scan of solver_obvious_dot leaves once it reaches (cx, cy), starting from g0. */
  ghost function ScanGrid(g0: seq<seq<Space>>, sx: int, sy: int, dx: int, dy: int, cx: int, cy: int): (r: seq<seq<Space>>)
    requires Dims(g0, sx, sy) && InGrid(sx, sy, dx, dy)
    ensures Dims(r, sx, sy)
  {
    seq(sy, y requires 0 <= y < sy =>
      seq(sx, x requires 0 <= x < sx =>
        Stage(g0, InScan(g0, sx, sy, dx, dy, cx, cy, x, y), dx, dy,
              g0[dy][dx].nassoc + |Scanned(g0, sx, sy, dx, dy, cx, cy)|, x, y)))
  }

  /** ScanGrid is staged. */
  lemma ScanGridStaged(g0: seq<seq<Space>>, sx: int, sy: int, dx: int, dy: int, cx: int, cy: int)
    requires Dims(g0, sx, sy) && InGrid(sx, sy, dx, dy)
    ensures Staged(ScanGrid(g0, sx, sy, dx, dy, cx, cy), g0, sx, sy, dx, dy, cx, cy)
  {
  }

  /** A staged grid is ScanGrid. */
  lemma StagedScanGrid(g: seq<seq<Space>>, g0: seq<seq<Space>>, sx: int, sy: int, dx: int, dy: int, cx: int, cy: int)
    requires Dims(g0, sx, sy) && InGrid(sx, sy, dx, dy)
    requires Staged(g, g0, sx, sy, dx, dy, cx, cy)
    ensures g == ScanGrid(g0, sx, sy, dx, dy, cx, cy)
  {
    var r := ScanGrid(g0, sx, sy, dx, dy, cx, cy);
    forall y, x | InGrid(sx, sy, x, y) ensures g[y][x] == r[y][x] {
    }
    GridExt(g, r, sx, sy);
  }

  /** Before the scan starts nothing has been given away and the grid is as it was. */
  lemma ScanStart(g: seq<seq<Space>>, sx: int, sy: int, dx: int, dy: int)
    requires Dims(g, sx, sy) && InGrid(sx, sy, dx, dy)
    ensures Scanned(g, sx, sy, dx, dy, 1, 1) == {}
    ensures g == ScanGrid(g, sx, sy, dx, dy, 1, 1)
  {
    StartStaged(g, sx, sy, dx, dy);
    StagedScanGrid(g, g, sx, sy, dx, dy, 1, 1);
  }

  /**
   * One tile step of solver_obvious_dot moves the scan one tile on, and
   * reports a take exactly when the scan gives something away there.
   */
  lemma ScanStep(g0: seq<seq<Space>>, sx: int, sy: int, dx: int, dy: int, x: int, y: int)
    requires Dims(g0, sx, sy) && InGrid(sx, sy, dx, dy) && InGrid(sx, sy, x, y) && x % 2 == 1 && y % 2 == 1
    ensures TileStep(ScanGrid(g0, sx, sy, dx, dy, x, y), sx, sy, dx, dy, x, y).0 == ScanGrid(g0, sx, sy, dx, dy, x, y + 2)
    ensures TileStep(ScanGrid(g0, sx, sy, dx, dy, x, y), sx, sy, dx, dy, x, y).1 ==> Scanned(g0, sx, sy, dx, dy, x, y + 2) != {}
    ensures !TileStep(ScanGrid(g0, sx, sy, dx, dy, x, y), sx, sy, dx, dy, x, y).1 ==>
              Scanned(g0, sx, sy, dx, dy, x, y + 2) == Scanned(g0, sx, sy, dx, dy, x, y)
  {
    var g := ScanGrid(g0, sx, sy, dx, dy, x, y);
    ScanGridStaged(g0, sx, sy, dx, dy, x, y);
    TileStepStaged(g, g0, sx, sy, dx, dy, x, y);
    StagedScanGrid(TileStep(g, sx, sy, dx, dy, x, y).0, g0, sx, sy, dx, dy, x, y + 2);
  }

  /** Finishing a column at cy >= sy is starting the next one. */
  lemma ScanColumn(g0: seq<seq<Space>>, sx: int, sy: int, dx: int, dy: int, cx: int, cy: int)
    requires Dims(g0, sx, sy) && InGrid(sx, sy, dx, dy) && cx % 2 == 1 && cy >= sy
    ensures Scanned(g0, sx, sy, dx, dy, cx, cy) == Scanned(g0, sx, sy, dx, dy, cx + 2, 1)
    ensures ScanGrid(g0, sx, sy, dx, dy, cx, cy) == ScanGrid(g0, sx, sy, dx, dy, cx + 2, 1)
  {
    var g := ScanGrid(g0, sx, sy, dx, dy, cx, cy);
    ScanGridStaged(g0, sx, sy, dx, dy, cx, cy);
    ColumnStaged(g, g0, sx, sy, dx, dy, cx, cy);
    StagedScanGrid(g, g0, sx, sy, dx, dy, cx + 2, 1);
  }

  /** Once every column is scanned, the scan has given away NewSet and left the grid Obvious describes. */
  lemma ScanFinish(g0: seq<seq<Space>>, sx: int, sy: int, dx: int, dy: int, cx: int)
    requires Dims(g0, sx, sy) && InGrid(sx, sy, dx, dy) && cx >= sx
    ensures Scanned(g0, sx, sy, dx, dy, cx, 1) == NewSet(g0, sx, sy, dx, dy)
    ensures ScanGrid(g0, sx, sy, dx, dy, cx, 1) == Obvious(g0, sx, sy, dx, dy)
  {
    ScanGridStaged(g0, sx, sy, dx, dy, cx, 1);
    FinishStaged(ScanGrid(g0, sx, sy, dx, dy, cx, 1), g0, sx, sy, dx, dy, cx);
  }
}
