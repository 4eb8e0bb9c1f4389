/**
 * Where the generator may put a new dot (dot_is_possible) and what putting
 * it there does (add_dot), stated on values.
 */
module Placement {

  import opened Tiles
  import opened Spaces

  /**
   * The half-widths (hx, hy) of the box dot_is_possible inspects around a
   * space of kind k in column x: 1 x 1 around a tile, 2 x 1 around a
   * vertical edge (even x), 1 x 2 around a horizontal one, 2 x 2 around a
   * vertex.
   */
  function Box(k: Kind, x: int): (int, int)
  {
    match k
    case TileSpace => (1, 1)
    case EdgeSpace => if x % 2 == 0 then (2, 1) else (1, 2)
    case VertexSpace => (2, 2)
  }

  /**
   * The space at offset (ox, oy) from (x, y) does not stand in the way of a
   * dot at (x, y): it is off the grid, or it is unassociated (unless
   * associations are allowed), it is not a dot (unless it is (x, y)
   * itself), and it has no edge set when it lies strictly inside the box.
   */
  predicate Clear(g: seq<seq<Space>>, sx: int, sy: int, x: int, y: int, allow: bool, hx: int, hy: int, ox: int, oy: int)
    requires Dims(g, sx, sy)
  {
    !InGrid(sx, sy, x + ox, y + oy) ||
    ((allow || !g[y + oy][x + ox].assoc) &&
     ((ox == 0 && oy == 0) || !g[y + oy][x + ox].dot) &&
     !(Abs(ox) < hx && Abs(oy) < hy && g[y + oy][x + ox].edgeSet))
  }

  /** dot_is_possible: every space of the box around (x, y) is clear. */
  ghost predicate Possible(g: seq<seq<Space>>, sx: int, sy: int, x: int, y: int, allow: bool)
    requires Dims(g, sx, sy) && InGrid(sx, sy, x, y)
  {
    forall ox, oy ::
      -Box(g[y][x].kind, x).0 <= ox <= Box(g[y][x].kind, x).0 && -Box(g[y][x].kind, x).1 <= oy <= Box(g[y][x].kind, x).1 ==>
        Clear(g, sx, sy, x, y, allow, Box(g[y][x].kind, x).0, Box(g[y][x].kind, x).1, ox, oy)
  }

  /**
   * A possible position has no other dot within its box, and, when
   * associations are not allowed, no associated space in it, the position
   * itself included.
   */
  lemma PossibleIsolated(g: seq<seq<Space>>, sx: int, sy: int, x: int, y: int, allow: bool, p: int, q: int)
    requires Dims(g, sx, sy) && InGrid(sx, sy, x, y) && Possible(g, sx, sy, x, y, allow)
    requires InGrid(sx, sy, p, q) && Abs(p - x) <= Box(g[y][x].kind, x).0 && Abs(q - y) <= Box(g[y][x].kind, x).1
    ensures (p, q) != (x, y) ==> !g[q][p].dot
    ensures !allow ==> !g[q][p].assoc
  {
    var b := Box(g[y][x].kind, x);
    assert Clear(g, sx, sy, x, y, allow, b.0, b.1, p - x, q - y);
  }

  /** A tile position is possible only when its own space has no edge set. */
  lemma PossibleTileOpen(g: seq<seq<Space>>, sx: int, sy: int, x: int, y: int, allow: bool)
    requires Shape(g, sx, sy) && InGrid(sx, sy, x, y) && x % 2 == 1 && y % 2 == 1
    requires Possible(g, sx, sy, x, y, allow)
    ensures !g[y][x].edgeSet && (allow || !g[y][x].assoc)
  {
    assert g[y][x].kind == KindAt(x, y) == TileSpace;
    assert Box(g[y][x].kind, x) == (1, 1);
    assert Clear(g, sx, sy, x, y, allow, 1, 1, 0, 0);
  }

  /** Forbidding associations only rules more positions out. */
  lemma PossibleAllowing(g: seq<seq<Space>>, sx: int, sy: int, x: int, y: int)
    requires Dims(g, sx, sy) && InGrid(sx, sy, x, y)
    ensures Possible(g, sx, sy, x, y, false) ==> Possible(g, sx, sy, x, y, true)
  {
    var b := Box(g[y][x].kind, x);
    if Possible(g, sx, sy, x, y, false) {
      forall ox, oy | -b.0 <= ox <= b.0 && -b.1 <= oy <= b.1
        ensures Clear(g, sx, sy, x, y, true, b.0, b.1, ox, oy)
      {
        assert Clear(g, sx, sy, x, y, false, b.0, b.1, ox, oy);
      }
    }
  }

  /** add_dot: the space at (x, y) gets F_DOT and a zero count. */
  function AddedDot(g: seq<seq<Space>>, sx: int, sy: int, x: int, y: int): (r: seq<seq<Space>>)
    requires Dims(g, sx, sy) && InGrid(sx, sy, x, y)
    ensures Dims(r, sx, sy) && r[y][x].dot && r[y][x].nassoc == 0
    ensures forall q, p :: InGrid(sx, sy, p, q) && (p, q) != (x, y) ==> r[q][p] == g[q][p]
  {
    SetSpace(g, x, y, g[y][x].(dot := true, nassoc := 0))
  }

  /**
   * Putting a dot where dot_is_possible allowed one leaves the grid valid
   * and the position still possible: the only dot in its box is its own.
   */
  lemma AddedDotKeeps(g: seq<seq<Space>>, sx: int, sy: int, x: int, y: int, allow: bool)
    requires Shape(g, sx, sy) && AssocToDots(g, sx, sy) && BorderClosed(g, sx, sy) && InGrid(sx, sy, x, y)
    ensures Shape(AddedDot(g, sx, sy, x, y), sx, sy)
    ensures AssocToDots(AddedDot(g, sx, sy, x, y), sx, sy) && BorderClosed(AddedDot(g, sx, sy, x, y), sx, sy)
    ensures Possible(g, sx, sy, x, y, allow) ==> Possible(AddedDot(g, sx, sy, x, y), sx, sy, x, y, allow)
  {
    var r: seq<seq<Space>> := AddedDot(g, sx, sy, x, y);
    var b := Box(g[y][x].kind, x);
    assert r[y][x].kind == g[y][x].kind;
    if Possible(g, sx, sy, x, y, allow) {
      forall ox, oy | -b.0 <= ox <= b.0 && -b.1 <= oy <= b.1
        ensures Clear(r, sx, sy, x, y, allow, b.0, b.1, ox, oy)
      {
        assert Clear(g, sx, sy, x, y, allow, b.0, b.1, ox, oy);
      }
    }
  }
}
