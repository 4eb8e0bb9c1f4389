/**
 * dot_expand_or_move and generate_try_block on values: a block of tiles
 * handed to a dot together with their opposites, and the lists of tiles
 * generate_try_block gathers.
 */
module Blocks {

  import opened Tiles
  import opened Spaces
  import opened Regions

  /** MAX_TOADD and MAX_OUTSIDE of generate_try_block. */
  const MaxToAdd := 20
  const MaxOutside := 100

  /** Every space of ts is on the grid. */
  predicate OnGrid(ts: seq<(int, int)>, sx: int, sy: int)
  {
    forall i :: 0 <= i < |ts| ==> InGrid(sx, sy, ts[i].0, ts[i].1)
  }

  /** Every space of ts, and its opposite about (dx, dy), is on the grid. */
  predicate Mirrored(ts: seq<(int, int)>, sx: int, sy: int, dx: int, dy: int)
  {
    forall i :: 0 <= i < |ts| ==>
      InGrid(sx, sy, ts[i].0, ts[i].1) && InGrid(sx, sy, 2 * dx - ts[i].0, 2 * dy - ts[i].1)
  }

  /**
   * The test loop of dot_expand_or_move passes: every space of ts has its
   * opposite about (dx, dy) on the grid and not tied to another dot.
   */
  predicate OppositesOpen(g: seq<seq<Space>>, sx: int, sy: int, dx: int, dy: int, ts: seq<(int, int)>)
    requires Dims(g, sx, sy)
  {
    forall i :: 0 <= i < |ts| ==>
      InGrid(sx, sy, 2 * dx - ts[i].0, 2 * dy - ts[i].1) && !Blocked(g[2 * dy - ts[i].1][2 * dx - ts[i].0], dx, dy)
  }

  /** When the test loop passes on spaces of the grid they are mirrored. */
  lemma OpenMirrored(g: seq<seq<Space>>, sx: int, sy: int, dx: int, dy: int, ts: seq<(int, int)>)
    requires Dims(g, sx, sy) && OnGrid(ts, sx, sy) && OppositesOpen(g, sx, sy, dx, dy, ts)
    ensures Mirrored(ts, sx, sy, dx, dy)
  {
  }

  /**
   * Space b differs from space a only in its association to the dot
   * (dx, dy) and in its count: if a belonged to the dot b still does, if a
   * was free of other dots b still is, every other field is kept, and b,
   * when associated, belongs to (dx, dy) or kept the dot a had.
   */
  predicate SpaceWidens(a: Space, b: Space, dx: int, dy: int)
  {
    (BelongsTo(a, dx, dy) ==> BelongsTo(b, dx, dy)) &&
    (!Blocked(a, dx, dy) ==> !Blocked(b, dx, dy)) &&
    b.(assoc := a.assoc, dotx := a.dotx, doty := a.doty, nassoc := a.nassoc) == a &&
    (b.assoc ==> BelongsTo(b, dx, dy) || (a.assoc && b.dotx == a.dotx && b.doty == a.doty))
  }

  /** r differs from g, space by space, only as SpaceWidens allows. */
  ghost predicate Widens(g: seq<seq<Space>>, r: seq<seq<Space>>, sx: int, sy: int, dx: int, dy: int)
    requires Dims(g, sx, sy) && Dims(r, sx, sy)
  {
    forall q, p {:trigger r[q][p]} :: InGrid(sx, sy, p, q) ==> SpaceWidens(g[q][p], r[q][p], dx, dy)
  }

  lemma WidensSelf(g: seq<seq<Space>>, sx: int, sy: int, dx: int, dy: int)
    requires Dims(g, sx, sy)
    ensures Widens(g, g, sx, sy, dx, dy)
  {
    forall q, p | InGrid(sx, sy, p, q) ensures SpaceWidens(g[q][p], g[q][p], dx, dy) {
      SpaceWidensSelf(g[q][p], dx, dy);
    }
  }

  lemma SpaceWidensSelf(a: Space, dx: int, dy: int)
    ensures SpaceWidens(a, a, dx, dy)
  {
    assert a.(assoc := a.assoc, dotx := a.dotx, doty := a.doty, nassoc := a.nassoc) == a;
  }

  lemma SpaceWidensTrans(a: Space, b: Space, c: Space, dx: int, dy: int)
    requires SpaceWidens(a, b, dx, dy) && SpaceWidens(b, c, dx, dy)
    ensures SpaceWidens(a, c, dx, dy)
  {
    assert c.(assoc := b.assoc, dotx := b.dotx, doty := b.doty, nassoc := b.nassoc) == b;
    assert b.(assoc := a.assoc, dotx := a.dotx, doty := a.doty, nassoc := a.nassoc) == a;
  }

  lemma WidensTrans(g: seq<seq<Space>>, m: seq<seq<Space>>, r: seq<seq<Space>>, sx: int, sy: int, dx: int, dy: int)
    requires Dims(g, sx, sy) && Dims(m, sx, sy) && Dims(r, sx, sy)
    requires Widens(g, m, sx, sy, dx, dy) && Widens(m, r, sx, sy, dx, dy)
    ensures Widens(g, r, sx, sy, dx, dy)
  {
    forall q, p | InGrid(sx, sy, p, q) ensures SpaceWidens(g[q][p], r[q][p], dx, dy) {
      SpaceWidensTrans(g[q][p], m[q][p], r[q][p], dx, dy);
    }
  }

  /** Associating a space with the dot, and bumping a count, each widen it. */
  lemma SpaceWidensSteps(a: Space, dx: int, dy: int, n: int)
    ensures SpaceWidens(a, Assign(a, dx, dy), dx, dy)
    ensures SpaceWidens(a, a.(nassoc := n), dx, dy)
    ensures SpaceWidens(a, Assign(a, dx, dy).(nassoc := n), dx, dy)
  {
    assert Assign(a, dx, dy).(assoc := a.assoc, dotx := a.dotx, doty := a.doty, nassoc := a.nassoc) == a;
    assert a.(nassoc := n).(assoc := a.assoc, dotx := a.dotx, doty := a.doty, nassoc := a.nassoc) == a;
    assert Assign(a, dx, dy).(nassoc := n).(assoc := a.assoc, dotx := a.dotx, doty := a.doty, nassoc := a.nassoc) == a;
  }

  /** Giving one space to the dot widens the grid and leaves that space with the dot. */
  lemma GiveWidens(g: seq<seq<Space>>, sx: int, sy: int, dx: int, dy: int, x: int, y: int)
    requires Dims(g, sx, sy) && InGrid(sx, sy, dx, dy) && InGrid(sx, sy, x, y)
    ensures Widens(g, Give(g, sx, sy, dx, dy, x, y), sx, sy, dx, dy)
    ensures BelongsTo(Give(g, sx, sy, dx, dy, x, y)[y][x], dx, dy)
  {
    var r: seq<seq<Space>> := Give(g, sx, sy, dx, dy, x, y);
    forall q, p | InGrid(sx, sy, p, q) ensures SpaceWidens(g[q][p], r[q][p], dx, dy) {
      var a := g[q][p];
      SpaceWidensSteps(a, dx, dy, r[q][p].nassoc);
      if (p, q) == (dx, dy) {
        assert r[q][p] == (if (p, q) == (x, y) then Assign(a, dx, dy) else a).(nassoc := r[q][p].nassoc);
      } else if (p, q) == (x, y) {
        assert r[q][p] == Assign(a, dx, dy);
      } else {
        assert r[q][p] == a;
        SpaceWidensSelf(a, dx, dy);
      }
    }
  }

  /**
   * Giving a space and its opposite to the dot, when that opposite is not
   * tied to another dot, leaves both with the dot.
   */
  lemma GivePairWidens(g: seq<seq<Space>>, sx: int, sy: int, dx: int, dy: int, x: int, y: int)
    requires Dims(g, sx, sy) && InGrid(sx, sy, dx, dy) && InGrid(sx, sy, x, y) && InGrid(sx, sy, 2 * dx - x, 2 * dy - y)
    requires !Blocked(g[2 * dy - y][2 * dx - x], dx, dy)
    ensures Widens(g, GivePair(g, sx, sy, dx, dy, x, y), sx, sy, dx, dy)
    ensures BelongsTo(GivePair(g, sx, sy, dx, dy, x, y)[y][x], dx, dy)
    ensures MirrorBelongs(GivePair(g, sx, sy, dx, dy, x, y), sx, sy, dx, dy, x, y)
  {
    var g2: seq<seq<Space>> := Give(g, sx, sy, dx, dy, x, y);
    GiveWidens(g, sx, sy, dx, dy, x, y);
    if !g2[2 * dy - y][2 * dx - x].assoc {
      var r: seq<seq<Space>> := Give(g2, sx, sy, dx, dy, 2 * dx - x, 2 * dy - y);
      GiveWidens(g2, sx, sy, dx, dy, 2 * dx - x, 2 * dy - y);
      WidensTrans(g, g2, r, sx, sy, dx, dy);
    }
  }

  /** A widened grid of a valid one, for a dot (dx, dy), is valid. */
  lemma WidensValid(g: seq<seq<Space>>, r: seq<seq<Space>>, sx: int, sy: int, dx: int, dy: int)
    requires Shape(g, sx, sy) && AssocToDots(g, sx, sy) && BorderClosed(g, sx, sy)
    requires InGrid(sx, sy, dx, dy) && g[dy][dx].dot
    requires Dims(r, sx, sy) && Widens(g, r, sx, sy, dx, dy)
    ensures Shape(r, sx, sy) && AssocToDots(r, sx, sy) && BorderClosed(r, sx, sy)
    ensures forall q, p :: InGrid(sx, sy, p, q) ==> r[q][p].dot == g[q][p].dot
  {
    forall q, p | InGrid(sx, sy, p, q) ensures r[q][p].dot == g[q][p].dot && r[q][p].edgeSet == g[q][p].edgeSet {
      assert r[q][p].(assoc := g[q][p].assoc, dotx := g[q][p].dotx, doty := g[q][p].doty, nassoc := g[q][p].nassoc) == g[q][p];
    }
    assert Shape(r, sx, sy) by {
      forall q, p | InGrid(sx, sy, p, q) ensures r[q][p].x == p && r[q][p].y == q && r[q][p].kind == KindAt(p, q) {
        assert r[q][p].(assoc := g[q][p].assoc, dotx := g[q][p].dotx, doty := g[q][p].doty, nassoc := g[q][p].nassoc) == g[q][p];
      }
    }
  }

  /** The assignment loop of dot_expand_or_move over the spaces ts, in order. */
  ghost function Expand(g: seq<seq<Space>>, sx: int, sy: int, dx: int, dy: int, ts: seq<(int, int)>): (r: seq<seq<Space>>)
    requires Dims(g, sx, sy) && InGrid(sx, sy, dx, dy) && Mirrored(ts, sx, sy, dx, dy)
    ensures Dims(r, sx, sy)
    decreases |ts|
  {
    if ts == [] then g
    else GivePair(Expand(g, sx, sy, dx, dy, ts[..|ts| - 1]), sx, sy, dx, dy, ts[|ts| - 1].0, ts[|ts| - 1].1)
  }

  /** The assignment loop one entry further: the next pair is given to the dot. */
  lemma ExpandNext(g: seq<seq<Space>>, sx: int, sy: int, dx: int, dy: int, ts: seq<(int, int)>, i: int)
    requires Dims(g, sx, sy) && InGrid(sx, sy, dx, dy) && Mirrored(ts, sx, sy, dx, dy) && 0 <= i < |ts|
    ensures Mirrored(ts[..i], sx, sy, dx, dy) && Mirrored(ts[..i + 1], sx, sy, dx, dy)
    ensures Expand(g, sx, sy, dx, dy, ts[..i + 1]) == GivePair(Expand(g, sx, sy, dx, dy, ts[..i]), sx, sy, dx, dy, ts[i].0, ts[i].1)
  {
    assert forall j :: 0 <= j < i + 1 ==> ts[..i + 1][j] == ts[j];
    assert ts[..i + 1][..i] == ts[..i];
  }

  /** Every space of ts and its opposite about (dx, dy) belong to that dot. */
  predicate Joined(g: seq<seq<Space>>, sx: int, sy: int, dx: int, dy: int, ts: seq<(int, int)>)
    requires Dims(g, sx, sy) && Mirrored(ts, sx, sy, dx, dy)
  {
    forall i :: 0 <= i < |ts| ==>
      BelongsTo(g[ts[i].1][ts[i].0], dx, dy) && BelongsTo(g[2 * dy - ts[i].1][2 * dx - ts[i].0], dx, dy)
  }

  /** Widening keeps what was joined to the dot joined. */
  lemma WidensJoined(g: seq<seq<Space>>, r: seq<seq<Space>>, sx: int, sy: int, dx: int, dy: int, ts: seq<(int, int)>)
    requires Dims(g, sx, sy) && Dims(r, sx, sy) && Mirrored(ts, sx, sy, dx, dy)
    requires Widens(g, r, sx, sy, dx, dy) && Joined(g, sx, sy, dx, dy, ts)
    ensures Joined(r, sx, sy, dx, dy, ts)
  {
    forall i | 0 <= i < |ts|
      ensures BelongsTo(r[ts[i].1][ts[i].0], dx, dy) && BelongsTo(r[2 * dy - ts[i].1][2 * dx - ts[i].0], dx, dy)
    {
      assert BelongsTo(g[ts[i].1][ts[i].0], dx, dy);
      assert BelongsTo(g[2 * dy - ts[i].1][2 * dx - ts[i].0], dx, dy);
    }
  }

  /** Joined on a list and on its last entry is joined on the whole list. */
  lemma JoinedSnoc(g: seq<seq<Space>>, sx: int, sy: int, dx: int, dy: int, ts: seq<(int, int)>)
    requires Dims(g, sx, sy) && Mirrored(ts, sx, sy, dx, dy) && ts != []
    requires Joined(g, sx, sy, dx, dy, ts[..|ts| - 1])
    requires BelongsTo(g[ts[|ts| - 1].1][ts[|ts| - 1].0], dx, dy)
    requires MirrorBelongs(g, sx, sy, dx, dy, ts[|ts| - 1].0, ts[|ts| - 1].1)
    ensures Joined(g, sx, sy, dx, dy, ts)
  {
    var k := |ts| - 1;
    forall i | 0 <= i < k
      ensures BelongsTo(g[ts[i].1][ts[i].0], dx, dy) && BelongsTo(g[2 * dy - ts[i].1][2 * dx - ts[i].0], dx, dy)
    {
      assert ts[..k][i] == ts[i];
    }
  }

  /** A prefix of a mirrored list is mirrored, and its test-loop condition holds. */
  lemma PrefixOpen(g: seq<seq<Space>>, sx: int, sy: int, dx: int, dy: int, ts: seq<(int, int)>, k: int)
    requires Dims(g, sx, sy) && Mirrored(ts, sx, sy, dx, dy) && OppositesOpen(g, sx, sy, dx, dy, ts) && 0 <= k <= |ts|
    ensures Mirrored(ts[..k], sx, sy, dx, dy) && OppositesOpen(g, sx, sy, dx, dy, ts[..k])
  {
    assert forall i :: 0 <= i < k ==> ts[..k][i] == ts[i];
  }

  /**
   * When the test loop passes, the assignment loop hands every space of ts
   * and its opposite to the dot, and only widens the grid.
   */
  lemma {:induction false} ExpandBelongs(g: seq<seq<Space>>, sx: int, sy: int, dx: int, dy: int, ts: seq<(int, int)>)
    requires Dims(g, sx, sy) && InGrid(sx, sy, dx, dy) && Mirrored(ts, sx, sy, dx, dy)
    requires OppositesOpen(g, sx, sy, dx, dy, ts)
    ensures Widens(g, Expand(g, sx, sy, dx, dy, ts), sx, sy, dx, dy)
    ensures Joined(Expand(g, sx, sy, dx, dy, ts), sx, sy, dx, dy, ts)
    decreases |ts|
  {
    if ts == [] {
      WidensSelf(g, sx, sy, dx, dy);
    } else {
      var k := |ts| - 1;
      PrefixOpen(g, sx, sy, dx, dy, ts, k);
      var m: seq<seq<Space>> := Expand(g, sx, sy, dx, dy, ts[..k]);
      ExpandBelongs(g, sx, sy, dx, dy, ts[..k]);
      var x, y := ts[k].0, ts[k].1;
      assert !Blocked(g[2 * dy - y][2 * dx - x], dx, dy);
      GivePairWidens(m, sx, sy, dx, dy, x, y);
      var r: seq<seq<Space>> := GivePair(m, sx, sy, dx, dy, x, y);
      WidensTrans(g, m, r, sx, sy, dx, dy);
      WidensJoined(m, r, sx, sy, dx, dy, ts[..k]);
      JoinedSnoc(r, sx, sy, dx, dy, ts);
    }
  }

  /** The space (p, q) is neither the dot, nor a space of ts, nor the opposite of one. */
  predicate Untouched(ts: seq<(int, int)>, dx: int, dy: int, p: int, q: int)
  {
    (p, q) != (dx, dy) && forall i :: 0 <= i < |ts| ==> ts[i] != (p, q) && (2 * dx - ts[i].0, 2 * dy - ts[i].1) != (p, q)
  }

  /** Giving a pair to a dot changes no other space than the pair and the dot. */
  lemma GivePairElsewhere(g: seq<seq<Space>>, sx: int, sy: int, dx: int, dy: int, x: int, y: int, p: int, q: int)
    requires Dims(g, sx, sy) && InGrid(sx, sy, dx, dy) && InGrid(sx, sy, x, y) && InGrid(sx, sy, 2 * dx - x, 2 * dy - y)
    requires InGrid(sx, sy, p, q) && (p, q) != (dx, dy) && (p, q) != (x, y) && (p, q) != (2 * dx - x, 2 * dy - y)
    ensures GivePair(g, sx, sy, dx, dy, x, y)[q][p] == g[q][p]
  {
    var g2 := Give(g, sx, sy, dx, dy, x, y);
    assert g2[q][p] == g[q][p];
    assert Give(g2, sx, sy, dx, dy, 2 * dx - x, 2 * dy - y)[q][p] == g2[q][p];
  }

  /** The assignment loop of dot_expand_or_move changes no space it does not touch. */
  lemma {:induction false} ExpandFrame(g: seq<seq<Space>>, sx: int, sy: int, dx: int, dy: int, ts: seq<(int, int)>, p: int, q: int)
    requires Dims(g, sx, sy) && InGrid(sx, sy, dx, dy) && Mirrored(ts, sx, sy, dx, dy) && InGrid(sx, sy, p, q)
    requires Untouched(ts, dx, dy, p, q)
    ensures Expand(g, sx, sy, dx, dy, ts)[q][p] == g[q][p]
    decreases |ts|
  {
    if ts != [] {
      var k := |ts| - 1;
      assert Untouched(ts[..k], dx, dy, p, q) by {
        forall i | 0 <= i < k ensures ts[..k][i] == ts[i] { }
      }
      ExpandFrame(g, sx, sy, dx, dy, ts[..k], p, q);
      assert ts[k] != (p, q) && (2 * dx - ts[k].0, 2 * dy - ts[k].1) != (p, q);
      GivePairElsewhere(Expand(g, sx, sy, dx, dy, ts[..k]), sx, sy, dx, dy, ts[k].0, ts[k].1, p, q);
    }
  }

  /** The assignment loop of dot_expand_or_move keeps the grid valid and every dot in place. */
  lemma {:induction false} ExpandKeepsValid(g: seq<seq<Space>>, sx: int, sy: int, dx: int, dy: int, ts: seq<(int, int)>)
    requires Shape(g, sx, sy) && AssocToDots(g, sx, sy) && BorderClosed(g, sx, sy)
    requires InGrid(sx, sy, dx, dy) && g[dy][dx].dot && Mirrored(ts, sx, sy, dx, dy)
    ensures Shape(Expand(g, sx, sy, dx, dy, ts), sx, sy)
    ensures AssocToDots(Expand(g, sx, sy, dx, dy, ts), sx, sy) && BorderClosed(Expand(g, sx, sy, dx, dy, ts), sx, sy)
    ensures Expand(g, sx, sy, dx, dy, ts)[dy][dx].dot
    decreases |ts|
  {
    if ts != [] {
      var k := |ts| - 1;
      var m: seq<seq<Space>> := Expand(g, sx, sy, dx, dy, ts[..k]);
      ExpandKeepsValid(g, sx, sy, dx, dy, ts[..k]);
      GiveWidensAny(m, sx, sy, dx, dy, ts[k].0, ts[k].1);
      WidensValid(m, GivePair(m, sx, sy, dx, dy, ts[k].0, ts[k].1), sx, sy, dx, dy);
    }
  }

  /** Giving a space and its opposite to the dot widens the grid, whatever the opposite held. */
  lemma GiveWidensAny(g: seq<seq<Space>>, sx: int, sy: int, dx: int, dy: int, x: int, y: int)
    requires Dims(g, sx, sy) && InGrid(sx, sy, dx, dy) && InGrid(sx, sy, x, y) && InGrid(sx, sy, 2 * dx - x, 2 * dy - y)
    ensures Widens(g, GivePair(g, sx, sy, dx, dy, x, y), sx, sy, dx, dy)
  {
    var g2: seq<seq<Space>> := Give(g, sx, sy, dx, dy, x, y);
    GiveWidens(g, sx, sy, dx, dy, x, y);
    if !g2[2 * dy - y][2 * dx - x].assoc {
      var r: seq<seq<Space>> := Give(g2, sx, sy, dx, dy, 2 * dx - x, 2 * dy - y);
      GiveWidens(g2, sx, sy, dx, dy, 2 * dx - x, 2 * dy - y);
      WidensTrans(g, g2, r, sx, sy, dx, dy);
    }
  }

  /**
   * dot_expand_or_move, when its test passes, leaves every space of ts and
   * its opposite with the dot, after solver_obvious_dot has run as well.
   */
  lemma BlockJoinsDot(g: seq<seq<Space>>, sx: int, sy: int, dx: int, dy: int, ts: seq<(int, int)>, i: int)
    requires Shape(g, sx, sy) && InGrid(sx, sy, dx, dy) && Mirrored(ts, sx, sy, dx, dy)
    requires OppositesOpen(g, sx, sy, dx, dy, ts) && 0 <= i < |ts|
    ensures BelongsTo(Obvious(Expand(g, sx, sy, dx, dy, ts), sx, sy, dx, dy)[ts[i].1][ts[i].0], dx, dy)
    ensures MirrorBelongs(Obvious(Expand(g, sx, sy, dx, dy, ts), sx, sy, dx, dy), sx, sy, dx, dy, ts[i].0, ts[i].1)
  {
    var m: seq<seq<Space>> := Expand(g, sx, sy, dx, dy, ts);
    ExpandBelongs(g, sx, sy, dx, dy, ts);
    assert BelongsTo(m[ts[i].1][ts[i].0], dx, dy) && BelongsTo(m[2 * dy - ts[i].1][2 * dx - ts[i].0], dx, dy);
    assert Shape(m, sx, sy) by {
      forall q, p | InGrid(sx, sy, p, q) ensures m[q][p].x == p && m[q][p].y == q && m[q][p].kind == KindAt(p, q) {
        assert m[q][p].(assoc := g[q][p].assoc, dotx := g[q][p].dotx, doty := g[q][p].doty, nassoc := g[q][p].nassoc) == g[q][p];
      }
    }
    ObviousGrows(m, sx, sy, dx, dy);
  }

  /* ---------- the lists of generate_try_block ---------- */

  /** The tiles (x, y), (x + 2, y), ... up to column x2. */
  function Row(x: int, x2: int, y: int): seq<(int, int)>
    decreases x2 - x + 2
  {
    if x > x2 then [] else [(x, y)] + Row(x + 2, x2, y)
  }

  /** The tiles of the block from row y down to row y2, row by row, each row from x1 to x2, in steps of 2. */
  function Block(x1: int, x2: int, y: int, y2: int): seq<(int, int)>
    decreases y2 - y + 2
  {
    if y > y2 then [] else Row(x1, x2, y) + Block(x1, x2, y + 2, y2)
  }

  /** One more tile of a row, moved from what is left to what is gathered. */
  lemma RowStep(pre: seq<(int, int)>, x: int, x2: int, y: int, rest: seq<(int, int)>)
    requires x <= x2
    ensures pre + (Row(x, x2, y) + rest) == (pre + [(x, y)]) + (Row(x + 2, x2, y) + rest)
  {
    assert Row(x, x2, y) == [(x, y)] + Row(x + 2, x2, y);
  }

  /** A finished row leaves the rest of the block. */
  lemma RowDone(pre: seq<(int, int)>, x: int, x2: int, y: int, rest: seq<(int, int)>)
    requires x > x2
    ensures pre + (Row(x, x2, y) + rest) == pre + rest
  {
    assert Row(x, x2, y) + rest == rest;
  }

  /** One more row of a block. */
  lemma BlockStep(pre: seq<(int, int)>, x1: int, x2: int, y: int, y2: int)
    requires y <= y2
    ensures pre + Block(x1, x2, y, y2) == pre + (Row(x1, x2, y) + Block(x1, x2, y + 2, y2))
  {
  }

  lemma {:induction false} RowInside(x: int, x2: int, y: int)
    ensures forall i :: 0 <= i < |Row(x, x2, y)| ==> x <= Row(x, x2, y)[i].0 <= x2 && Row(x, x2, y)[i].1 == y
    decreases x2 - x + 2
  {
    if x <= x2 {
      RowInside(x + 2, x2, y);
    }
  }

  /** Every tile of the block lies in the rectangle x1..x2 by y..y2. */
  lemma {:induction false} BlockInside(x1: int, x2: int, y: int, y2: int)
    ensures forall i :: 0 <= i < |Block(x1, x2, y, y2)| ==>
              x1 <= Block(x1, x2, y, y2)[i].0 <= x2 && y <= Block(x1, x2, y, y2)[i].1 <= y2
    decreases y2 - y + 2
  {
    if y <= y2 {
      RowInside(x1, x2, y);
      BlockInside(x1, x2, y + 2, y2);
    }
  }

  /** No space of ts is associated. */
  predicate Unassociated(g: seq<seq<Space>>, sx: int, sy: int, ts: seq<(int, int)>)
    requires Dims(g, sx, sy)
  {
    forall i :: 0 <= i < |ts| ==> InGrid(sx, sy, ts[i].0, ts[i].1) && !g[ts[i].1][ts[i].0].assoc
  }

  /** The tiles just above and just below the block, column by column, those on the grid. */
  function AboveBelow(x: int, x2: int, y1: int, y2: int, sy: int): seq<(int, int)>
    decreases x2 - x + 2
  {
    if x > x2 then []
    else Above(x, y1) + Below(x, y2, sy) + AboveBelow(x + 2, x2, y1, y2, sy)
  }

  /** The tile above the block in column x, when the block does not touch the top. */
  function Above(x: int, y1: int): (r: seq<(int, int)>)
    ensures |r| <= 1
  {
    if y1 >= 2 then [(x, y1 - 2)] else []
  }

  /** The tile below the block in column x, when the block does not touch the bottom. */
  function Below(x: int, y2: int, sy: int): (r: seq<(int, int)>)
    ensures |r| <= 1
  {
    if y2 <= sy - 3 then [(x, y2 + 2)] else []
  }

  /** The tile left of the block in row y, when the block does not touch the left side. */
  function Left(y: int, x1: int): (r: seq<(int, int)>)
    ensures |r| <= 1
  {
    if x1 >= 2 then [(x1 - 2, y)] else []
  }

  /** The tile right of the block in row y, when the block does not touch the right side. */
  function Right(y: int, x2: int, sx: int): (r: seq<(int, int)>)
    ensures |r| <= 1
  {
    if x2 <= sx - 3 then [(x2 + 2, y)] else []
  }

  /** One more column of the tiles above and below. */
  lemma AboveBelowStep(done: seq<(int, int)>, x: int, x2: int, y1: int, y2: int, sy: int)
    requires x <= x2
    ensures done + AboveBelow(x, x2, y1, y2, sy) ==
              ((done + Above(x, y1)) + Below(x, y2, sy)) + AboveBelow(x + 2, x2, y1, y2, sy)
  {
  }

  /** One more row of the tiles left and right. */
  lemma LeftRightStep(done: seq<(int, int)>, y: int, y2: int, x1: int, x2: int, sx: int)
    requires y <= y2
    ensures done + LeftRight(y, y2, x1, x2, sx) ==
              ((done + Left(y, x1)) + Right(y, x2, sx)) + LeftRight(y + 2, y2, x1, x2, sx)
  {
  }

  /** The tiles just left and just right of the block, row by row, those on the grid. */
  function LeftRight(y: int, y2: int, x1: int, x2: int, sx: int): seq<(int, int)>
    decreases y2 - y + 2
  {
    if y > y2 then []
    else Left(y, x1) + Right(y, x2, sx) + LeftRight(y + 2, y2, x1, x2, sx)
  }

  /** All the tiles around the block generate_try_block considers, in the order it gathers them. */
  function Candidates(x1: int, y1: int, x2: int, y2: int, sx: int, sy: int): seq<(int, int)>
  {
    AboveBelow(x1, x2, y1, y2, sy) + LeftRight(y1, y2, x1, x2, sx)
  }

  /** The first MAX_OUTSIDE entries of s. */
  function Cap(s: seq<(int, int)>): (r: seq<(int, int)>)
    ensures |r| <= MaxOutside && r <= s
    ensures |s| <= MaxOutside ==> r == s
  {
    if |s| <= MaxOutside then s else s[..MaxOutside]
  }

  /**
   * Appending at most one entry to a capped list, and only while it has
   * room, keeps it the first MAX_OUTSIDE entries.
   */
  lemma CapAppend(s: seq<(int, int)>, t: seq<(int, int)>)
    requires |t| <= 1
    ensures Cap(s + t) == if t != [] && |Cap(s)| < MaxOutside then Cap(s) + t else Cap(s)
  {
    if t == [] {
      assert s + t == s;
    } else if |s| >= MaxOutside {
      assert (s + t)[..MaxOutside] == s[..MaxOutside];
    }
  }

  lemma {:induction false} AboveBelowOnGrid(x: int, x2: int, y1: int, y2: int, sx: int, sy: int)
    requires 0 <= x && x2 < sx && 0 <= y1 <= y2 < sy
    ensures forall c :: c in AboveBelow(x, x2, y1, y2, sy) ==> InGrid(sx, sy, c.0, c.1)
    decreases x2 - x + 2
  {
    if x <= x2 {
      AboveBelowOnGrid(x + 2, x2, y1, y2, sx, sy);
      var head := Above(x, y1) + Below(x, y2, sy);
      assert forall c :: c in head ==> InGrid(sx, sy, c.0, c.1);
      assert AboveBelow(x, x2, y1, y2, sy) == head + AboveBelow(x + 2, x2, y1, y2, sy);
    }
  }

  lemma {:induction false} LeftRightOnGrid(y: int, y2: int, x1: int, x2: int, sx: int, sy: int)
    requires 0 <= y && y2 < sy && 0 <= x1 <= x2 < sx
    ensures forall c :: c in LeftRight(y, y2, x1, x2, sx) ==> InGrid(sx, sy, c.0, c.1)
    decreases y2 - y + 2
  {
    if y <= y2 {
      LeftRightOnGrid(y + 2, y2, x1, x2, sx, sy);
      var head := Left(y, x1) + Right(y, x2, sx);
      assert forall c :: c in head ==> InGrid(sx, sy, c.0, c.1);
      assert LeftRight(y, y2, x1, x2, sx) == head + LeftRight(y + 2, y2, x1, x2, sx);
    }
  }

  /** Every tile generate_try_block gathers around an in-range block is on the grid. */
  lemma CandidatesOnGrid(x1: int, y1: int, x2: int, y2: int, sx: int, sy: int)
    requires 0 <= x1 <= x2 < sx && 0 <= y1 <= y2 < sy
    ensures forall c :: c in Candidates(x1, y1, x2, y2, sx, sy) ==> InGrid(sx, sy, c.0, c.1)
  {
    AboveBelowOnGrid(x1, x2, y1, y2, sx, sy);
    LeftRightOnGrid(y1, y2, x1, x2, sx, sy);
  }

  /** A permutation of a list of tiles on the grid holds tiles on the grid. */
  lemma ShuffledOnGrid(a: seq<(int, int)>, s: seq<(int, int)>, sx: int, sy: int)
    requires multiset(a) == multiset(s) && forall c :: c in s ==> InGrid(sx, sy, c.0, c.1)
    ensures forall j :: 0 <= j < |a| ==> InGrid(sx, sy, a[j].0, a[j].1)
    ensures forall c :: c in s <==> c in a
  {
    forall j | 0 <= j < |a| ensures InGrid(sx, sy, a[j].0, a[j].1) {
      assert a[j] in multiset(a);
    }
    forall c ensures c in s <==> c in a {
      assert c in s <==> c in multiset(s);
      assert c in a <==> c in multiset(a);
    }
  }

  /** generate_try_block's size limit for a dot: w*h / ndots, but at least 4. */
  function MaxSize(w: int, h: int, ndots: int): (m: int)
    requires ndots > 0
    ensures m >= 4 && (w * h >= 0 ==> (m == 4 || m * ndots <= w * h))
  {
    if (w * h) / ndots < 4 then 4 else (w * h) / ndots
  }

  /**
   * The block x1..x2 by y1..y2 passes the first checks of
   * generate_try_block: it lies on the grid, has at most MAX_TOADD tiles
   * and none of them is associated.
   */
  predicate FreeBlock(g: seq<seq<Space>>, sx: int, sy: int, x1: int, y1: int, x2: int, y2: int)
    requires Dims(g, sx, sy)
  {
    0 <= x1 && 0 <= y1 && x2 < sx && y2 < sy &&
    |Block(x1, x2, y1, y2)| <= MaxToAdd && Unassociated(g, sx, sy, Block(x1, x2, y1, y2))
  }

  /**
   * The dot d may take the spaces ts: it is a dot on the grid with fewer
   * than maxsz spaces, and the test loop of dot_expand_or_move passes.
   */
  predicate CanTake(g: seq<seq<Space>>, sx: int, sy: int, d: (int, int), ts: seq<(int, int)>, maxsz: int)
    requires Dims(g, sx, sy)
  {
    InGrid(sx, sy, d.0, d.1) && g[d.1][d.0].dot && g[d.1][d.0].nassoc < maxsz && OppositesOpen(g, sx, sy, d.0, d.1, ts)
  }

  /** The outside tile c cannot take the block: it is unassociated, or its dot cannot. */
  predicate Rejects(g: seq<seq<Space>>, sx: int, sy: int, c: (int, int), ts: seq<(int, int)>, maxsz: int)
    requires Dims(g, sx, sy) && InGrid(sx, sy, c.0, c.1)
  {
    !g[c.1][c.0].assoc || !CanTake(g, sx, sy, (g[c.1][c.0].dotx, g[c.1][c.0].doty), ts, maxsz)
  }
}
