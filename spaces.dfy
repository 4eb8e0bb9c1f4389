/**
 * The board of the puzzle generator: a (2w+1) x (2h+1) grid of spaces, each
 * a tile (both coordinates odd), a vertex (both even) or an edge, carrying
 * the flags F_DOT, F_EDGE_SET, F_TILE_ASSOC and F_DOT_BLACK, the dot a tile
 * is associated with and, on a dot, the number of spaces associated with it.
 */
module Spaces {

  import opened Tiles
  import GameId

  datatype Kind = TileSpace | EdgeSpace | VertexSpace

  /**
   * One space.  The flag bits are kept as booleans: dot is F_DOT, edgeSet is
   * F_EDGE_SET, assoc is F_TILE_ASSOC and black is F_DOT_BLACK.
   */
  datatype Space = Space(x: int, y: int, kind: Kind, dot: bool, edgeSet: bool, assoc: bool, black: bool,
                         dotx: int, doty: int, nassoc: int)

  /** The type blank_game gives the space at (x, y). */
  function KindAt(x: int, y: int): (k: Kind)
    ensures k == TileSpace <==> x % 2 == 1 && y % 2 == 1
    ensures k == VertexSpace <==> x % 2 == 0 && y % 2 == 0
  {
    if x % 2 == 1 && y % 2 == 1 then TileSpace
    else if x % 2 == 0 && y % 2 == 0 then VertexSpace
    else EdgeSpace
  }

  /** A zeroed space at (x, y) with the given F_EDGE_SET. */
  function Plain(x: int, y: int, edge: bool): Space
  {
    Space(x, y, KindAt(x, y), false, edge, false, false, 0, 0, 0)
  }

  /** INGRID: (x, y) lies on an sx x sy grid. */
  predicate InGrid(sx: int, sy: int, x: int, y: int)
  {
    0 <= x < sx && 0 <= y < sy
  }

  /** The grid has sy rows of sx spaces, each knowing its own position and type. */
  ghost predicate Shape(g: seq<seq<Space>>, sx: int, sy: int)
  {
    |g| == sy &&
    forall y :: 0 <= y < sy ==>
      |g[y]| == sx && forall x :: 0 <= x < sx ==> g[y][x].x == x && g[y][x].y == y && g[y][x].kind == KindAt(x, y)
  }

  /** Every associated space names a dot space on the grid. */
  ghost predicate AssocToDots(g: seq<seq<Space>>, sx: int, sy: int)
    requires Shape(g, sx, sy)
  {
    forall y, x :: InGrid(sx, sy, x, y) && g[y][x].assoc ==>
      InGrid(sx, sy, g[y][x].dotx, g[y][x].doty) && g[g[y][x].doty][g[y][x].dotx].dot
  }

  /**
   * space_opposite_dot: the point symmetric to (x, y) about the dot at
   * (dx, dy), or nothing when it falls off the grid.
   */
  function Opposite(sx: int, sy: int, x: int, y: int, dx: int, dy: int): (r: Option<(int, int)>)
    ensures r.Some? <==> InGrid(sx, sy, 2 * dx - x, 2 * dy - y)
    ensures r.Some? ==> r.value.0 - dx == dx - x && r.value.1 - dy == dy - y
  {
    var ox, oy := dx + (dx - x), dy + (dy - y);
    if !InGrid(sx, sy, ox, oy) then None else Some((ox, oy))
  }

  /** Taking the opposite twice comes back: space_opposite_dot is an involution on the grid. */
  lemma OppositeInvolution(sx: int, sy: int, x: int, y: int, dx: int, dy: int)
    requires InGrid(sx, sy, x, y) && Opposite(sx, sy, x, y, dx, dy).Some?
    ensures var o := Opposite(sx, sy, x, y, dx, dy).value;
            Opposite(sx, sy, o.0, o.1, dx, dy) == Some((x, y))
  {
  }

  /** The opposite of a space has the same type: tiles mirror onto tiles. */
  lemma OppositeKind(sx: int, sy: int, x: int, y: int, dx: int, dy: int)
    requires Opposite(sx, sy, x, y, dx, dy).Some?
    ensures var o := Opposite(sx, sy, x, y, dx, dy).value;
            KindAt(o.0, o.1) == KindAt(x, y)
  {
    var o := Opposite(sx, sy, x, y, dx, dy).value;
    assert o.0 == 2 * dx - x && o.1 == 2 * dy - y;
    assert o.0 % 2 == x % 2 && o.1 % 2 == y % 2;
  }

  /** What encode_game sees of a space. */
  function CellOf(sp: Space): GameId.Cell
  {
    if sp.dot then GameId.DotCell(sp.black) else GameId.Blank
  }

  function RowCells(row: seq<Space>): (r: seq<GameId.Cell>)
    ensures |r| == |row| && forall i :: 0 <= i < |row| ==> r[i] == CellOf(row[i])
  {
    seq(|row|, i requires 0 <= i < |row| => CellOf(row[i]))
  }

  /** The cells of the grid in row-major order, as SPACE walks them. */
  function Cells(g: seq<seq<Space>>): seq<GameId.Cell>
  {
    if g == [] then [] else Cells(g[..|g| - 1]) + RowCells(g[|g| - 1])
  }

  /** Every space on the border of the grid has F_EDGE_SET. */
  ghost predicate BorderClosed(g: seq<seq<Space>>, sx: int, sy: int)
    requires Shape(g, sx, sy)
  {
    forall y, x :: InGrid(sx, sy, x, y) && (x == 0 || y == 0 || x == sx - 1 || y == sy - 1) ==> g[y][x].edgeSet
  }

  /** The space with F_TILE_ASSOC set and (dotx, doty) pointing at the dot (dx, dy). */
  function Assign(sp: Space, dx: int, dy: int): Space
  {
    sp.(assoc := true, dotx := dx, doty := dy)
  }

  /** The space is associated with the dot at (dx, dy). */
  predicate BelongsTo(sp: Space, dx: int, dy: int)
  {
    sp.assoc && sp.dotx == dx && sp.doty == dy
  }

  /** The space is associated with some dot other than (dx, dy). */
  predicate Blocked(sp: Space, dx: int, dy: int)
  {
    sp.assoc && (sp.dotx != dx || sp.doty != dy)
  }

  /** A grid of sy rows of sx spaces each. */
  predicate Dims(g: seq<seq<Space>>, sx: int, sy: int)
  {
    |g| == sy && forall y :: 0 <= y < sy ==> |g[y]| == sx
  }

  /** The grid with the space at (x, y) replaced. */
  function SetSpace(g: seq<seq<Space>>, x: int, y: int, sp: Space): seq<seq<Space>>
    requires 0 <= y < |g| && 0 <= x < |g[y]|
  {
    g[y := g[y][x := sp]]
  }

  /** Writing a space back unchanged leaves the grid as it was. */
  lemma SetSpaceSame(g: seq<seq<Space>>, x: int, y: int)
    requires 0 <= y < |g| && 0 <= x < |g[y]|
    ensures SetSpace(g, x, y, g[y][x]) == g
  {
    assert g[y][x := g[y][x]] == g[y];
  }

  /** Two grids of the same dimensions that agree on every space are equal. */
  lemma GridExt(g1: seq<seq<Space>>, g2: seq<seq<Space>>, sx: int, sy: int)
    requires Dims(g1, sx, sy) && Dims(g2, sx, sy)
    requires forall y, x :: InGrid(sx, sy, x, y) ==> g1[y][x] == g2[y][x]
    ensures g1 == g2
  {
    forall y | 0 <= y < sy ensures g1[y] == g2[y] {
      assert forall x :: 0 <= x < sx ==> g1[y][x] == g2[y][x];
    }
  }
}
