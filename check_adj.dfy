/**
 * The first half of check.py's validate_solution: the tiles, the dots read
 * off the grid rows and the tile adjacency built from the absence of
 * walls.
 *
 * Each row is padded with blanks to 2W+1 characters when shorter; each
 * character is then looked at.  A dot glyph is recorded as a dot wherever
 * it is.  An edge cell holding a blank or a dot glyph links the two tiles
 * on its sides: a vertical edge cell (even x, odd y) links tiles
 * (x/2 - 1, y/2) and (x/2, y/2), a horizontal one (odd x, even y) links
 * (x/2, y/2 - 1) and (x/2, y/2).  Links are added only when the tile
 * indices pass the range checks of the source; the horizontal branch
 * checks the rows and not the column, and a missing dictionary key raises
 * KeyError.  The flag guard adds the column check that branch lacks.
 */
module Adjacency {

  import opened Tiles
  import opened Render

  type Tile = (int, int)

  predicate IsGlyph(c: char)
  {
    c == BlackGlyph || c == WhiteGlyph
  }

  /** No wall: a blank, or a dot glyph (dots may sit on edges). */
  predicate Open(c: char)
  {
    c == ' ' || IsGlyph(c)
  }

  /** " " * n. */
  function Spaces(n: int): (r: string)
    ensures |r| == Count(n) && forall i :: 0 <= i < |r| ==> r[i] == ' '
  {
    seq(Count(n), _ => ' ')
  }

  /** The row padded with blanks to 2w+1 characters when it is shorter. */
  function Pad(line: string, w: int): (r: string)
    ensures |r| >= |line| && |r| >= 2 * w + 1
  {
    if |line| < 2 * w + 1 then line + Spaces(2 * w + 1 - |line|) else line
  }

  /** Padding keeps the row's characters and adds only blanks, and only up to 2w+1. */
  lemma PadChars(line: string, w: int)
    ensures |Pad(line, w)| == if |line| < 2 * w + 1 then 2 * w + 1 else |line|
    ensures forall i :: 0 <= i < |line| ==> Pad(line, w)[i] == line[i]
    ensures forall i :: |line| <= i < |Pad(line, w)| ==> Pad(line, w)[i] == ' '
  {
  }

  // ---------------------------------------------------------------------
  // The tiles and the empty adjacency
  // ---------------------------------------------------------------------

  predicate OnBoard(w: int, h: int, t: Tile)
  {
    0 <= t.0 < w && 0 <= t.1 < h
  }

  function TileSet(w: int, h: int): set<Tile>
  {
    set tx, ty | 0 <= tx < w && 0 <= ty < h :: (tx, ty)
  }

  lemma TileSetMembers(w: int, h: int, t: Tile)
    ensures t in TileSet(w, h) <==> OnBoard(w, h, t)
  {
    if OnBoard(w, h, t) {
      assert (t.0, t.1) in TileSet(w, h);
    }
  }

  function RowTiles(w: int, ty: int): (r: seq<Tile>)
    ensures |r| == Count(w)
  {
    seq(Count(w), tx requires 0 <= tx < Count(w) => (tx, ty))
  }

  /** The list `tiles`, row by row. */
  function TileList(w: int, h: int): seq<Tile>
    decreases h
  {
    if h <= 0 then [] else TileList(w, h - 1) + RowTiles(w, h - 1)
  }

  /** The tile list holds every tile of the board and nothing else. */
  lemma {:induction false} TileListMembers(w: int, h: int)
    ensures forall t :: t in TileList(w, h) <==> OnBoard(w, h, t)
    decreases h
  {
    if h > 0 {
      TileListMembers(w, h - 1);
      forall t ensures t in TileList(w, h) <==> OnBoard(w, h, t) {
        if OnBoard(w, h, t) && t.1 == h - 1 {
          assert RowTiles(w, h - 1)[t.0] == t;
        }
      }
    }
  }

  /** An adjacency with a key for every tile and no links yet. */
  predicate EmptyOn(adj: map<Tile, seq<Tile>>, w: int, h: int)
  {
    adj.Keys == TileSet(w, h) && forall t :: t in adj ==> adj[t] == []
  }

  /** The first loops of validate_solution: the list of tiles and an empty list of neighbours for each. */
  method InitTiles(w: nat, h: nat) returns (tiles: seq<Tile>, adj: map<Tile, seq<Tile>>)
    ensures tiles == TileList(w, h)
    ensures EmptyOn(adj, w, h)
  {
    tiles := [];
    adj := map[];
    var ty := 0;
    while ty < h
      invariant 0 <= ty <= h
      invariant tiles == TileList(w, ty)
      invariant adj.Keys == TileSet(w, ty) && forall t :: t in adj ==> adj[t] == []
    {
      var tx := 0;
      while tx < w
        invariant 0 <= tx <= w
        invariant tiles == TileList(w, ty) + RowTiles(w, ty)[..tx]
        invariant adj.Keys == TileSet(w, ty) + RowSet(tx, ty) && forall t :: t in adj ==> adj[t] == []
      {
        assert RowTiles(w, ty)[..tx + 1] == RowTiles(w, ty)[..tx] + [(tx, ty)];
        tiles := tiles + [(tx, ty)];
        adj := adj[(tx, ty) := []];
        tx := tx + 1;
      }
      assert RowTiles(w, ty)[..tx] == RowTiles(w, ty);
      RowAdded(w, ty);
      ty := ty + 1;
    }
  }

  /** The first n tiles of row ty. */
  function RowSet(n: int, ty: int): set<Tile>
  {
    set i | 0 <= i < n :: (i, ty)
  }

  lemma RowAdded(w: nat, ty: nat)
    ensures TileSet(w, ty + 1) == TileSet(w, ty) + RowSet(w, ty)
  {
    forall t | t in TileSet(w, ty + 1) ensures t in TileSet(w, ty) + RowSet(w, ty) {
      TileSetMembers(w, ty + 1, t);
      TileSetMembers(w, ty, t);
    }
    forall t | t in TileSet(w, ty) + RowSet(w, ty) ensures t in TileSet(w, ty + 1) {
      TileSetMembers(w, ty + 1, t);
      TileSetMembers(w, ty, t);
      if t !in TileSet(w, ty) {
        assert t in RowSet(w, ty);
      }
    }
  }

  // ---------------------------------------------------------------------
  // The scan of the rows
  // ---------------------------------------------------------------------

  /** The dots found so far, the adjacency so far, and whether a KeyError was raised. */
  datatype Scan = Scan(dots: seq<Tile>, adj: map<Tile, seq<Tile>>, crashed: bool)

  /** adj[a].append(b); adj[b].append(a): KeyError when a key is missing. */
  function Connect(st: Scan, a: Tile, b: Tile): Scan
  {
    if a !in st.adj || b !in st.adj then st.(crashed := true)
    else
      var m := st.adj[a := st.adj[a] + [b]];
      st.(adj := m[b := m[b] + [a]])
  }

  /**
   * validate_solution at character c of cell (x, y): the dot check, then
   * the vertical-edge branch and the horizontal-edge branch.
   */
  function CellStep(st: Scan, w: int, h: int, c: char, x: int, y: int, guard: bool): Scan
  {
    if st.crashed then st
    else
      var st1 := if IsGlyph(c) then st.(dots := st.dots + [(x, y)]) else st;
      if x % 2 == 0 && y % 2 == 1 && Open(c) && 0 <= x / 2 - 1 < w && 0 <= x / 2 < w then
        Connect(st1, (x / 2 - 1, (y - 1) / 2), (x / 2, (y - 1) / 2))
      else if x % 2 == 1 && y % 2 == 0 && Open(c) && 0 <= y / 2 - 1 < h && 0 <= y / 2 < h && (!guard || (x - 1) / 2 < w) then
        Connect(st1, ((x - 1) / 2, y / 2 - 1), ((x - 1) / 2, y / 2))
      else st1
  }

  /** The state once the characters of row y from column x on have been scanned from st. */
  function RowScan(st: Scan, line: string, y: int, w: int, h: int, x: nat, guard: bool): Scan
    requires x <= |line|
    decreases |line| - x
  {
    if x == |line| then st else RowScan(CellStep(st, w, h, line[x], x, y, guard), line, y, w, h, x + 1, guard)
  }

  /** The state after the first k padded rows; a KeyError ends the scan. */
  function RowsScan(rows: seq<string>, w: int, h: int, adj0: map<Tile, seq<Tile>>, k: nat, guard: bool): Scan
    requires k <= |rows|
  {
    if k == 0 then Scan([], adj0, false)
    else
      var prev := RowsScan(rows, w, h, adj0, k - 1, guard);
      if prev.crashed then prev
      else RowScan(prev, Pad(rows[k - 1], w), k - 1, w, h, 0, guard)
  }

  /** One character of the scan, as validate_solution's loop body updates dots and adj. */
  method ScanCell(st: Scan, w: int, h: int, c: char, x: int, y: int, guard: bool) returns (r: Scan)
    requires !st.crashed
    ensures r == CellStep(st, w, h, c, x, y, guard)
  {
    var dots, adj := st.dots, st.adj;
    if c == BlackGlyph || c == WhiteGlyph {
      dots := dots + [(x, y)];
    }
    if x % 2 == 0 && y % 2 == 1 {
      if c == ' ' || c == BlackGlyph || c == WhiteGlyph {
        var tx1, tx2, ty := x / 2 - 1, x / 2, (y - 1) / 2;
        if 0 <= tx1 < w && 0 <= tx2 < w {
          if (tx1, ty) !in adj || (tx2, ty) !in adj {
            return Scan(dots, adj, true);
          }
          adj := adj[(tx1, ty) := adj[(tx1, ty)] + [(tx2, ty)]];
          adj := adj[(tx2, ty) := adj[(tx2, ty)] + [(tx1, ty)]];
        }
      }
    }
    if x % 2 == 1 && y % 2 == 0 {
      if c == ' ' || c == BlackGlyph || c == WhiteGlyph {
        var tx, ty1, ty2 := (x - 1) / 2, y / 2 - 1, y / 2;
        if 0 <= ty1 < h && 0 <= ty2 < h && (!guard || tx < w) {
          if (tx, ty1) !in adj || (tx, ty2) !in adj {
            return Scan(dots, adj, true);
          }
          adj := adj[(tx, ty1) := adj[(tx, ty1)] + [(tx, ty2)]];
          adj := adj[(tx, ty2) := adj[(tx, ty2)] + [(tx, ty1)]];
        }
      }
    }
    return Scan(dots, adj, false);
  }

  /** A raised KeyError ends the scan: the state stays as it is. */
  lemma {:induction false} RowScanCrashed(st: Scan, line: string, y: int, w: int, h: int, x: nat, guard: bool)
    requires x <= |line|
    ensures st.crashed ==> RowScan(st, line, y, w, h, x, guard) == st
    decreases |line| - x
  {
    if x < |line| {
      RowScanCrashed(CellStep(st, w, h, line[x], x, y, guard), line, y, w, h, x + 1, guard);
    }
  }

  lemma {:induction false} RowsScanStays(rows: seq<string>, w: int, h: int, adj0: map<Tile, seq<Tile>>, k: nat, m: nat, guard: bool)
    requires k <= m <= |rows| && RowsScan(rows, w, h, adj0, k, guard).crashed
    ensures RowsScan(rows, w, h, adj0, m, guard) == RowsScan(rows, w, h, adj0, k, guard)
    decreases m - k
  {
    if k < m {
      RowsScanStays(rows, w, h, adj0, k, m - 1, guard);
    }
  }

  /** line + " " * (2w + 1 - len(line)) when the row is short. */
  method PadLine(line: string, w: int) returns (r: string)
    ensures r == Pad(line, w)
  {
    r := line;
    if |r| < 2 * w + 1 {
      r := r + Spaces(2 * w + 1 - |r|);
    }
  }

  /** The loop over the characters of padded row y; a KeyError ends it at once. */
  method ScanRow(st0: Scan, rows: seq<string>, y: nat, w: int, h: int, adj0: map<Tile, seq<Tile>>, guard: bool) returns (st: Scan)
    requires y < |rows| && st0 == RowsScan(rows, w, h, adj0, y, guard) && !st0.crashed
    ensures st == RowsScan(rows, w, h, adj0, y + 1, guard)
  {
    var line := PadLine(rows[y], w);
    st := st0;
    var x := 0;
    while x < |line|
      invariant 0 <= x <= |line|
      invariant RowScan(st, line, y, w, h, x, guard) == RowsScan(rows, w, h, adj0, y + 1, guard) && !st.crashed
    {
      st := ScanCell(st, w, h, line[x], x, y, guard);
      RowScanCrashed(st, line, y, w, h, x + 1, guard);
      if st.crashed {
        return;
      }
      x := x + 1;
    }
  }

  /**
   * The scan loops of validate_solution over the rows and their padded
   * characters; a KeyError ends them at once.
   */
  method ScanRows(w: int, h: int, rows: seq<string>, adj0: map<Tile, seq<Tile>>, guard: bool) returns (st: Scan)
    ensures st == RowsScan(rows, w, h, adj0, |rows|, guard)
  {
    st := Scan([], adj0, false);
    var y := 0;
    while y < |rows|
      invariant 0 <= y <= |rows|
      invariant st == RowsScan(rows, w, h, adj0, y, guard) && !st.crashed
    {
      st := ScanRow(st, rows, y, w, h, adj0, guard);
      if st.crashed {
        RowsScanStays(rows, w, h, adj0, y + 1, |rows|, guard);
        return;
      }
      y := y + 1;
    }
  }

  // ---------------------------------------------------------------------
  // What the scan finds
  // ---------------------------------------------------------------------

  /** Row y has a (padded) character at x. */
  predicate HasCell(rows: seq<string>, w: int, x: int, y: int)
  {
    0 <= y < |rows| && 0 <= x < |Pad(rows[y], w)|
  }

  predicate OpenAt(rows: seq<string>, w: int, x: int, y: int)
  {
    HasCell(rows, w, x, y) && Open(Pad(rows[y], w)[x])
  }

  predicate GlyphAt(rows: seq<string>, w: int, x: int, y: int)
  {
    HasCell(rows, w, x, y) && IsGlyph(Pad(rows[y], w)[x])
  }

  /** The edge cell between two tiles, when they are neighbours. */
  function Between(a: Tile, b: Tile): (int, int)
  {
    (a.0 + b.0 + 1, a.1 + b.1 + 1)
  }

  predicate Neighbours(a: Tile, b: Tile)
  {
    Abs(a.0 - b.0) + Abs(a.1 - b.1) == 1
  }

  /** Two neighbouring tiles of the board with no wall drawn between them. */
  predicate Linked(rows: seq<string>, w: int, h: int, a: Tile, b: Tile)
  {
    OnBoard(w, h, a) && OnBoard(w, h, b) && Neighbours(a, b) && OpenAt(rows, w, Between(a, b).0, Between(a, b).1)
  }

  /**
   * An open horizontal edge cell whose row lies inside the board and whose
   * column lies beyond it: the tile key the source looks up there is missing.
   */
  predicate Overhang(rows: seq<string>, w: int, h: int, x: int, y: int)
  {
    x % 2 == 1 && y % 2 == 0 && 2 <= y <= 2 * h - 2 && x >= 2 * w + 1 && OpenAt(rows, w, x, y)
  }

  /** (x, y) has been scanned once the scan is at column n of row k. */
  predicate Done(k: int, n: int, x: int, y: int)
  {
    y < k || (y == k && x < n)
  }

  /** Row-major order of cells. */
  predicate Earlier(p: Tile, q: Tile)
  {
    p.1 < q.1 || (p.1 == q.1 && p.0 < q.0)
  }

  /** What the scan has found by column n of row k. */
  ghost predicate Found(st: Scan, rows: seq<string>, w: int, h: int, k: int, n: int, guard: bool)
  {
    st.adj.Keys == TileSet(w, h) &&
    (guard ==> !st.crashed) &&
    (st.crashed ==> exists x, y :: Done(k, n, x, y) && Overhang(rows, w, h, x, y)) &&
    (!st.crashed ==>
      LinksFound(st.adj, rows, w, h, k, n) &&
      DotsFound(st.dots, rows, w, k, n) &&
      (!guard ==> forall x, y :: Done(k, n, x, y) ==> !Overhang(rows, w, h, x, y)))
  }

  /** The rows and the empty adjacency validate_solution starts from. */
  predicate Start(rows: seq<string>, w: int, h: int, adj0: map<Tile, seq<Tile>>)
  {
    w >= 0 && h >= 0 && |rows| == 2 * h + 1 && EmptyOn(adj0, w, h)
  }

  lemma FoundStart(rows: seq<string>, w: int, h: int, adj0: map<Tile, seq<Tile>>, guard: bool)
    requires Start(rows, w, h, adj0)
    ensures Found(Scan([], adj0, false), rows, w, h, 0, 0, guard)
  {
    forall a, b | a in adj0 && Linked(rows, w, h, a, b) && Done(0, 0, Between(a, b).0, Between(a, b).1) ensures false {
      TileSetMembers(w, h, a);
      TileSetMembers(w, h, b);
    }
  }

  /** The tiles a vertical edge cell (x, y) links are the only neighbours it lies between. */
  lemma VerticalPair(x: int, y: int, a: Tile, b: Tile)
    requires x % 2 == 0 && y % 2 == 1 && Neighbours(a, b) && Between(a, b) == (x, y)
    ensures (a, b) == ((x / 2 - 1, (y - 1) / 2), (x / 2, (y - 1) / 2)) || (b, a) == ((x / 2 - 1, (y - 1) / 2), (x / 2, (y - 1) / 2))
  {
  }

  /** The same for a horizontal edge cell. */
  lemma HorizontalPair(x: int, y: int, a: Tile, b: Tile)
    requires x % 2 == 1 && y % 2 == 0 && Neighbours(a, b) && Between(a, b) == (x, y)
    ensures (a, b) == (((x - 1) / 2, y / 2 - 1), ((x - 1) / 2, y / 2)) || (b, a) == (((x - 1) / 2, y / 2 - 1), ((x - 1) / 2, y / 2))
  {
  }

  /** A vertical edge cell lies between its two tiles and no others. */
  lemma VerticalCell(x: int, y: int)
    requires x % 2 == 0 && y % 2 == 1
    ensures Neighbours((x / 2 - 1, (y - 1) / 2), (x / 2, (y - 1) / 2)) && Between((x / 2 - 1, (y - 1) / 2), (x / 2, (y - 1) / 2)) == (x, y)
    ensures forall a, b :: Neighbours(a, b) && Between(a, b) == (x, y) ==> (a, b) == ((x / 2 - 1, (y - 1) / 2), (x / 2, (y - 1) / 2)) || (b, a) == ((x / 2 - 1, (y - 1) / 2), (x / 2, (y - 1) / 2))
  {
    forall a, b | Neighbours(a, b) && Between(a, b) == (x, y) ensures (a, b) == ((x / 2 - 1, (y - 1) / 2), (x / 2, (y - 1) / 2)) || (b, a) == ((x / 2 - 1, (y - 1) / 2), (x / 2, (y - 1) / 2)) {
      VerticalPair(x, y, a, b);
    }
  }

  /** A horizontal edge cell lies between its two tiles and no others. */
  lemma HorizontalCell(x: int, y: int)
    requires x % 2 == 1 && y % 2 == 0
    ensures Neighbours(((x - 1) / 2, y / 2 - 1), ((x - 1) / 2, y / 2)) && Between(((x - 1) / 2, y / 2 - 1), ((x - 1) / 2, y / 2)) == (x, y)
    ensures forall a, b :: Neighbours(a, b) && Between(a, b) == (x, y) ==> (a, b) == (((x - 1) / 2, y / 2 - 1), ((x - 1) / 2, y / 2)) || (b, a) == (((x - 1) / 2, y / 2 - 1), ((x - 1) / 2, y / 2))
  {
    forall a, b | Neighbours(a, b) && Between(a, b) == (x, y) ensures (a, b) == (((x - 1) / 2, y / 2 - 1), ((x - 1) / 2, y / 2)) || (b, a) == (((x - 1) / 2, y / 2 - 1), ((x - 1) / 2, y / 2)) {
      HorizontalPair(x, y, a, b);
    }
  }

  /** The only neighbours an edge cell lies between are the two tiles of its branch. */
  lemma CellPairs(x: int, y: int, a: Tile, b: Tile)
    requires Neighbours(a, b)
    ensures Between(a, b) == (x, y) ==>
      (x % 2 == 0 && y % 2 == 1 && ((a, b) == ((x / 2 - 1, (y - 1) / 2), (x / 2, (y - 1) / 2)) || (b, a) == ((x / 2 - 1, (y - 1) / 2), (x / 2, (y - 1) / 2)))) ||
      (x % 2 == 1 && y % 2 == 0 && ((a, b) == (((x - 1) / 2, y / 2 - 1), ((x - 1) / 2, y / 2)) || (b, a) == (((x - 1) / 2, y / 2 - 1), ((x - 1) / 2, y / 2))))
  {
    if Between(a, b) == (x, y) {
      if x % 2 == y % 2 {
        NoPairAt(x, y, a, b);
      } else if x % 2 == 0 {
        VerticalPair(x, y, a, b);
      } else {
        HorizontalPair(x, y, a, b);
      }
    }
  }

  /** No pair of neighbours lies around a tile or vertex cell. */
  lemma NoPairAt(x: int, y: int, a: Tile, b: Tile)
    requires (x % 2 == y % 2) && Neighbours(a, b)
    ensures Between(a, b) != (x, y)
  {
  }

  /** Connect adds exactly the pair (a1, a2) in both directions. */
  lemma ConnectAdds(st: Scan, a1: Tile, a2: Tile)
    requires a1 in st.adj && a2 in st.adj && a1 != a2 && !st.crashed
    ensures !Connect(st, a1, a2).crashed && Connect(st, a1, a2).adj.Keys == st.adj.Keys && Connect(st, a1, a2).dots == st.dots
    ensures forall a, b :: a in st.adj ==> (b in Connect(st, a1, a2).adj[a] <==> b in st.adj[a] || (a == a1 && b == a2) || (a == a2 && b == a1))
  {
  }

  /** The dots part of Found, which a cell step keeps. */
  ghost predicate DotsFound(dots: seq<Tile>, rows: seq<string>, w: int, k: int, n: int)
  {
    DotsSound(dots, rows, w, k, n) && DotsComplete(dots, rows, w, k, n) && DotsOrdered(dots)
  }

  /** Every recorded dot is a glyph cell already scanned. */
  ghost predicate DotsSound(dots: seq<Tile>, rows: seq<string>, w: int, k: int, n: int)
  {
    forall i :: 0 <= i < |dots| ==> GlyphAt(rows, w, dots[i].0, dots[i].1) && Done(k, n, dots[i].0, dots[i].1)
  }

  /** Every glyph cell already scanned is recorded. */
  ghost predicate DotsComplete(dots: seq<Tile>, rows: seq<string>, w: int, k: int, n: int)
  {
    forall x, y :: Done(k, n, x, y) && GlyphAt(rows, w, x, y) ==> (x, y) in dots
  }

  /** The dots are recorded in row-major order, each once. */
  ghost predicate DotsOrdered(dots: seq<Tile>)
  {
    forall i, j :: 0 <= i < j < |dots| ==> Earlier(dots[i], dots[j])
  }

  lemma DotsStep(dots: seq<Tile>, rows: seq<string>, w: int, k: int, n: int)
    requires DotsFound(dots, rows, w, k, n) && HasCell(rows, w, n, k)
    ensures DotsFound(if GlyphAt(rows, w, n, k) then dots + [(n, k)] else dots, rows, w, k, n + 1)
  {
    if GlyphAt(rows, w, n, k) {
      DotsAppend(dots, rows, w, k, n);
    } else {
      assert DotsComplete(dots, rows, w, k, n + 1) by {
        forall x, y | Done(k, n + 1, x, y) && GlyphAt(rows, w, x, y) ensures (x, y) in dots {
          assert Done(k, n, x, y);
        }
      }
    }
  }

  lemma DotsAppend(dots: seq<Tile>, rows: seq<string>, w: int, k: int, n: int)
    requires DotsFound(dots, rows, w, k, n) && GlyphAt(rows, w, n, k)
    ensures DotsFound(dots + [(n, k)], rows, w, k, n + 1)
  {
    var d := dots + [(n, k)];
    assert DotsSound(d, rows, w, k, n + 1) by {
      forall i | 0 <= i < |d| ensures GlyphAt(rows, w, d[i].0, d[i].1) && Done(k, n + 1, d[i].0, d[i].1) {
        if i < |dots| {
          assert d[i] == dots[i];
        }
      }
    }
    assert DotsComplete(d, rows, w, k, n + 1) by {
      forall x, y | Done(k, n + 1, x, y) && GlyphAt(rows, w, x, y) ensures (x, y) in d {
        if Done(k, n, x, y) {
          assert (x, y) in dots;
        } else {
          assert d[|d| - 1] == (n, k);
        }
      }
    }
    assert DotsOrdered(d) by {
      forall i, j | 0 <= i < j < |d| ensures Earlier(d[i], d[j]) {
        if j < |dots| {
          assert d[i] == dots[i] && d[j] == dots[j];
        } else {
          assert d[i] == dots[i] && Done(k, n, dots[i].0, dots[i].1);
        }
      }
    }
  }

  /** The link part of Found. */
  ghost predicate LinksFound(adj: map<Tile, seq<Tile>>, rows: seq<string>, w: int, h: int, k: int, n: int)
  {
    forall a, b :: a in adj ==> (b in adj[a] <==> Linked(rows, w, h, a, b) && Done(k, n, Between(a, b).0, Between(a, b).1))
  }

  /** The cell (n, k) lies between no two linked tiles of the board. */
  lemma LinksUntouched(adj: map<Tile, seq<Tile>>, rows: seq<string>, w: int, h: int, k: int, n: int)
    requires LinksFound(adj, rows, w, h, k, n)
    requires forall a, b :: Linked(rows, w, h, a, b) ==> Between(a, b) != (n, k)
    ensures LinksFound(adj, rows, w, h, k, n + 1)
  {
  }

  /** The cell (n, k) lies between the tiles a1 and a2 and no others, and is open. */
  lemma LinksAdded(st: Scan, rows: seq<string>, w: int, h: int, k: int, n: int, a1: Tile, a2: Tile)
    requires !st.crashed && LinksFound(st.adj, rows, w, h, k, n) && a1 in st.adj && a2 in st.adj && a1 != a2
    requires Linked(rows, w, h, a1, a2) && Between(a1, a2) == (n, k)
    requires forall a, b :: Linked(rows, w, h, a, b) && Between(a, b) == (n, k) ==> (a, b) == (a1, a2) || (b, a) == (a1, a2)
    ensures LinksFound(Connect(st, a1, a2).adj, rows, w, h, k, n + 1)
  {
    ConnectAdds(st, a1, a2);
    forall a, b | a in st.adj
      ensures b in Connect(st, a1, a2).adj[a] <==> Linked(rows, w, h, a, b) && Done(k, n + 1, Between(a, b).0, Between(a, b).1)
    {
      if (a, b) == (a2, a1) {
        assert Between(a, b) == Between(a1, a2);
      }
    }
  }

  /** The scan's view of the cell (n, k) before its step. */
  ghost predicate CellReady(st: Scan, rows: seq<string>, w: int, h: int, k: int, n: int, guard: bool)
  {
    w >= 0 && h >= 0 && |rows| == 2 * h + 1 && Found(st, rows, w, h, k, n, guard) && HasCell(rows, w, n, k) && !st.crashed
  }

  /** The state after the dot check of cell (n, k). */
  function Dotted(st: Scan, rows: seq<string>, w: int, k: int, n: int): Scan
    requires HasCell(rows, w, n, k)
  {
    if IsGlyph(Pad(rows[k], w)[n]) then st.(dots := st.dots + [(n, k)]) else st
  }

  /** Found, assembled from its parts for a state without a KeyError. */
  lemma FoundIntro(st: Scan, rows: seq<string>, w: int, h: int, k: int, n: int, guard: bool)
    requires !st.crashed && st.adj.Keys == TileSet(w, h)
    requires LinksFound(st.adj, rows, w, h, k, n) && DotsFound(st.dots, rows, w, k, n)
    requires !guard ==> forall x, y :: Done(k, n, x, y) ==> !Overhang(rows, w, h, x, y)
    ensures Found(st, rows, w, h, k, n, guard)
  {
  }

  /** The cell (n, k) is no overhang, so none is found by column n + 1 if none was by column n. */
  lemma NoOverhangStep(rows: seq<string>, w: int, h: int, k: int, n: int)
    requires forall x, y :: Done(k, n, x, y) ==> !Overhang(rows, w, h, x, y)
    requires !Overhang(rows, w, h, n, k)
    ensures forall x, y :: Done(k, n + 1, x, y) ==> !Overhang(rows, w, h, x, y)
  {
  }

  lemma FoundVertical(st: Scan, rows: seq<string>, w: int, h: int, k: int, n: int, guard: bool)
    requires CellReady(st, rows, w, h, k, n, guard)
    requires n % 2 == 0 && k % 2 == 1 && Open(Pad(rows[k], w)[n]) && 0 <= n / 2 - 1 < w && 0 <= n / 2 < w
    ensures Found(Connect(Dotted(st, rows, w, k, n), (n / 2 - 1, (k - 1) / 2), (n / 2, (k - 1) / 2)), rows, w, h, k, n + 1, guard)
  {
    var st1 := Dotted(st, rows, w, k, n);
    var a1, a2 := (n / 2 - 1, (k - 1) / 2), (n / 2, (k - 1) / 2);
    var st2 := Connect(st1, a1, a2);
    assert a1 in st1.adj && a2 in st1.adj && a1 != a2 by {
      TileSetMembers(w, h, a1);
      TileSetMembers(w, h, a2);
    }
    assert !st2.crashed && st2.adj.Keys == TileSet(w, h) && st2.dots == st1.dots by {
      ConnectAdds(st1, a1, a2);
    }
    assert LinksFound(st2.adj, rows, w, h, k, n + 1) by {
      VerticalCell(n, k);
      TileSetMembers(w, h, a1);
      TileSetMembers(w, h, a2);
      assert Linked(rows, w, h, a1, a2);
      LinksAdded(st1, rows, w, h, k, n, a1, a2);
    }
    assert DotsFound(st2.dots, rows, w, k, n + 1) by {
      DotsStep(st.dots, rows, w, k, n);
    }
    assert !guard ==> forall x, y :: Done(k, n + 1, x, y) ==> !Overhang(rows, w, h, x, y) by {
      if !guard {
        NoOverhangStep(rows, w, h, k, n);
      }
    }
    FoundIntro(st2, rows, w, h, k, n + 1, guard);
  }

  lemma FoundHorizontal(st: Scan, rows: seq<string>, w: int, h: int, k: int, n: int, guard: bool)
    requires CellReady(st, rows, w, h, k, n, guard)
    requires n % 2 == 1 && k % 2 == 0 && Open(Pad(rows[k], w)[n]) && 0 <= k / 2 - 1 < h && 0 <= k / 2 < h && (!guard || (n - 1) / 2 < w)
    ensures Found(Connect(Dotted(st, rows, w, k, n), ((n - 1) / 2, k / 2 - 1), ((n - 1) / 2, k / 2)), rows, w, h, k, n + 1, guard)
  {
    var st1 := Dotted(st, rows, w, k, n);
    var a1, a2 := ((n - 1) / 2, k / 2 - 1), ((n - 1) / 2, k / 2);
    var st2 := Connect(st1, a1, a2);
    if (n - 1) / 2 < w {
      assert a1 in st1.adj && a2 in st1.adj && a1 != a2 by {
        TileSetMembers(w, h, a1);
        TileSetMembers(w, h, a2);
      }
      assert !st2.crashed && st2.adj.Keys == TileSet(w, h) && st2.dots == st1.dots by {
        ConnectAdds(st1, a1, a2);
      }
      assert LinksFound(st2.adj, rows, w, h, k, n + 1) by {
        HorizontalCell(n, k);
        TileSetMembers(w, h, a1);
        TileSetMembers(w, h, a2);
        assert Linked(rows, w, h, a1, a2);
        LinksAdded(st1, rows, w, h, k, n, a1, a2);
      }
      assert DotsFound(st2.dots, rows, w, k, n + 1) by {
        DotsStep(st.dots, rows, w, k, n);
      }
      assert !guard ==> forall x, y :: Done(k, n + 1, x, y) ==> !Overhang(rows, w, h, x, y) by {
        if !guard {
          NoOverhangStep(rows, w, h, k, n);
        }
      }
      FoundIntro(st2, rows, w, h, k, n + 1, guard);
    } else {
      assert a1 !in st1.adj by {
        TileSetMembers(w, h, a1);
      }
      assert st2.crashed && st2.adj == st.adj;
      assert Overhang(rows, w, h, n, k) && Done(k, n + 1, n, k);
    }
  }

  lemma FoundPlain(st: Scan, rows: seq<string>, w: int, h: int, k: int, n: int, guard: bool)
    requires CellReady(st, rows, w, h, k, n, guard)
    requires !(n % 2 == 0 && k % 2 == 1 && Open(Pad(rows[k], w)[n]) && 0 <= n / 2 - 1 < w && 0 <= n / 2 < w)
    requires !(n % 2 == 1 && k % 2 == 0 && Open(Pad(rows[k], w)[n]) && 0 <= k / 2 - 1 < h && 0 <= k / 2 < h && (!guard || (n - 1) / 2 < w))
    ensures Found(Dotted(st, rows, w, k, n), rows, w, h, k, n + 1, guard)
  {
    var st1 := Dotted(st, rows, w, k, n);
    assert DotsFound(st1.dots, rows, w, k, n + 1) by {
      DotsStep(st.dots, rows, w, k, n);
    }
    assert LinksFound(st1.adj, rows, w, h, k, n + 1) by {
      forall a, b | Linked(rows, w, h, a, b) ensures Between(a, b) != (n, k) {
        CellPairs(n, k, a, b);
      }
      LinksUntouched(st.adj, rows, w, h, k, n);
    }
    assert !guard ==> forall x, y :: Done(k, n + 1, x, y) ==> !Overhang(rows, w, h, x, y) by {
      if !guard {
        NoOverhangStep(rows, w, h, k, n);
      }
    }
    FoundIntro(st1, rows, w, h, k, n + 1, guard);
  }

  /** What a cell step does, for a cell inside the rows of the board. */
  lemma FoundCell(st: Scan, rows: seq<string>, w: int, h: int, k: int, n: int, guard: bool)
    requires w >= 0 && h >= 0 && |rows| == 2 * h + 1
    requires Found(st, rows, w, h, k, n, guard) && HasCell(rows, w, n, k)
    ensures Found(CellStep(st, w, h, Pad(rows[k], w)[n], n, k, guard), rows, w, h, k, n + 1, guard)
  {
    if st.crashed {
      var x0, y0 :| Done(k, n, x0, y0) && Overhang(rows, w, h, x0, y0);
      assert Done(k, n + 1, x0, y0);
    } else if n % 2 == 0 && k % 2 == 1 && Open(Pad(rows[k], w)[n]) && 0 <= n / 2 - 1 < w && 0 <= n / 2 < w {
      FoundVertical(st, rows, w, h, k, n, guard);
    } else if n % 2 == 1 && k % 2 == 0 && Open(Pad(rows[k], w)[n]) && 0 <= k / 2 - 1 < h && 0 <= k / 2 < h && (!guard || (n - 1) / 2 < w) {
      FoundHorizontal(st, rows, w, h, k, n, guard);
    } else {
      FoundPlain(st, rows, w, h, k, n, guard);
    }
  }

  /** Only the cells up to column n of row k have been scanned, so the cells past the padded row change nothing. */
  lemma FoundNextRow(st: Scan, rows: seq<string>, w: int, h: int, k: int, guard: bool)
    requires 0 <= k < |rows| && Found(st, rows, w, h, k, |Pad(rows[k], w)|, guard)
    ensures Found(st, rows, w, h, k + 1, 0, guard)
  {
    var L := |Pad(rows[k], w)|;
    if st.crashed {
      var x0, y0 :| Done(k, L, x0, y0) && Overhang(rows, w, h, x0, y0);
      assert Done(k + 1, 0, x0, y0);
    } else {
      assert LinksFound(st.adj, rows, w, h, k + 1, 0) by {
        forall a, b | a in st.adj && Linked(rows, w, h, a, b) ensures Done(k, L, Between(a, b).0, Between(a, b).1) <==> Done(k + 1, 0, Between(a, b).0, Between(a, b).1) {
          assert HasCell(rows, w, Between(a, b).0, Between(a, b).1);
        }
      }
      assert DotsFound(st.dots, rows, w, k + 1, 0) by {
        forall x, y | Done(k + 1, 0, x, y) && GlyphAt(rows, w, x, y) ensures Done(k, L, x, y) {
        }
        forall i | 0 <= i < |st.dots| ensures Done(k + 1, 0, st.dots[i].0, st.dots[i].1) {
          assert Done(k, L, st.dots[i].0, st.dots[i].1);
        }
      }
      assert !guard ==> forall x, y :: Done(k + 1, 0, x, y) ==> !Overhang(rows, w, h, x, y) by {
        if !guard {
          forall x, y | Done(k + 1, 0, x, y) ensures !Overhang(rows, w, h, x, y) {
            if Overhang(rows, w, h, x, y) {
              assert HasCell(rows, w, x, y) && Done(k, L, x, y);
            }
          }
        }
      }
      FoundIntro(st, rows, w, h, k + 1, 0, guard);
    }
  }

  lemma {:induction false} FoundRowScan(st: Scan, rows: seq<string>, w: int, h: int, k: int, n: nat, guard: bool)
    requires w >= 0 && h >= 0 && |rows| == 2 * h + 1 && 0 <= k < |rows|
    requires Found(st, rows, w, h, k, n, guard) && n <= |Pad(rows[k], w)|
    ensures Found(RowScan(st, Pad(rows[k], w), k, w, h, n, guard), rows, w, h, k, |Pad(rows[k], w)|, guard)
    decreases |Pad(rows[k], w)| - n
  {
    var line := Pad(rows[k], w);
    if n < |line| {
      var next := CellStep(st, w, h, line[n], n, k, guard);
      assert RowScan(st, line, k, w, h, n, guard) == RowScan(next, line, k, w, h, n + 1, guard);
      assert HasCell(rows, w, n, k);
      FoundCell(st, rows, w, h, k, n, guard);
      FoundRowScan(next, rows, w, h, k, n + 1, guard);
    }
  }

  /** A scan that has raised has found, after the next row too, what it had found. */
  lemma FoundCrashedRow(st: Scan, rows: seq<string>, w: int, h: int, k: int, guard: bool)
    requires st.crashed && Found(st, rows, w, h, k, 0, guard)
    ensures Found(st, rows, w, h, k + 1, 0, guard)
  {
    var x0, y0 :| Done(k, 0, x0, y0) && Overhang(rows, w, h, x0, y0);
    assert Done(k + 1, 0, x0, y0);
  }

  /** Scanning the whole of row k from a state that has found the rows before it. */
  lemma FoundWholeRow(st: Scan, rows: seq<string>, w: int, h: int, k: int, guard: bool)
    requires w >= 0 && h >= 0 && |rows| == 2 * h + 1 && 0 <= k < |rows|
    requires Found(st, rows, w, h, k, 0, guard)
    ensures Found(RowScan(st, Pad(rows[k], w), k, w, h, 0, guard), rows, w, h, k + 1, 0, guard)
  {
    FoundRowScan(st, rows, w, h, k, 0, guard);
    FoundNextRow(RowScan(st, Pad(rows[k], w), k, w, h, 0, guard), rows, w, h, k, guard);
  }

  /** Scanning row k - 1 keeps what the scan has found. */
  lemma FoundRowsStep(rows: seq<string>, w: int, h: int, adj0: map<Tile, seq<Tile>>, k: nat, guard: bool)
    requires Start(rows, w, h, adj0) && 0 < k <= |rows|
    requires Found(RowsScan(rows, w, h, adj0, k - 1, guard), rows, w, h, k - 1, 0, guard)
    ensures Found(RowsScan(rows, w, h, adj0, k, guard), rows, w, h, k, 0, guard)
  {
    var prev := RowsScan(rows, w, h, adj0, k - 1, guard);
    if prev.crashed {
      assert RowsScan(rows, w, h, adj0, k, guard) == prev;
      FoundCrashedRow(prev, rows, w, h, k - 1, guard);
    } else {
      assert RowsScan(rows, w, h, adj0, k, guard) == RowScan(prev, Pad(rows[k - 1], w), k - 1, w, h, 0, guard);
      FoundWholeRow(prev, rows, w, h, k - 1, guard);
    }
  }

  /** The state after k rows has found what the first k rows show. */
  lemma {:induction false} FoundRows(rows: seq<string>, w: int, h: int, adj0: map<Tile, seq<Tile>>, k: nat, guard: bool)
    requires Start(rows, w, h, adj0) && k <= |rows|
    ensures Found(RowsScan(rows, w, h, adj0, k, guard), rows, w, h, k, 0, guard)
  {
    if k == 0 {
      FoundStart(rows, w, h, adj0, guard);
    } else {
      FoundRows(rows, w, h, adj0, k - 1, guard);
      FoundRowsStep(rows, w, h, adj0, k, guard);
    }
  }

  /** The state at the end of the scan. */
  function Scanned(rows: seq<string>, w: int, h: int, adj0: map<Tile, seq<Tile>>, guard: bool): Scan
  {
    RowsScan(rows, w, h, adj0, |rows|, guard)
  }

  /**
   * The scan raises KeyError exactly when the flag is off and some row
   * has an open horizontal edge cell beyond the board; with the flag on it
   * never does.  The keys stay the tiles of the board.
   */
  lemma ScanCrashes(rows: seq<string>, w: int, h: int, adj0: map<Tile, seq<Tile>>, guard: bool)
    requires Start(rows, w, h, adj0)
    ensures Scanned(rows, w, h, adj0, guard).adj.Keys == TileSet(w, h)
    ensures Scanned(rows, w, h, adj0, guard).crashed <==> !guard && exists x, y :: Overhang(rows, w, h, x, y)
  {
    FoundRows(rows, w, h, adj0, |rows|, guard);
    if !guard && !Scanned(rows, w, h, adj0, guard).crashed {
      forall x, y | Overhang(rows, w, h, x, y) ensures false {
        assert Done(|rows|, 0, x, y);
      }
    }
  }

  /** When the scan ends normally, b is a neighbour of a exactly when the two tiles are linked. */
  lemma ScanLinks(rows: seq<string>, w: int, h: int, adj0: map<Tile, seq<Tile>>, guard: bool)
    requires Start(rows, w, h, adj0) && !Scanned(rows, w, h, adj0, guard).crashed
    ensures forall a, b :: a in Scanned(rows, w, h, adj0, guard).adj ==> (b in Scanned(rows, w, h, adj0, guard).adj[a] <==> Linked(rows, w, h, a, b))
  {
    FoundRows(rows, w, h, adj0, |rows|, guard);
    var st := Scanned(rows, w, h, adj0, guard);
    forall a, b | a in st.adj && Linked(rows, w, h, a, b) ensures Done(|rows|, 0, Between(a, b).0, Between(a, b).1) {
      assert HasCell(rows, w, Between(a, b).0, Between(a, b).1);
    }
  }

  /** When the scan ends normally, the dots are the glyph cells, each once, in reading order. */
  lemma ScanDots(rows: seq<string>, w: int, h: int, adj0: map<Tile, seq<Tile>>, guard: bool)
    requires Start(rows, w, h, adj0) && !Scanned(rows, w, h, adj0, guard).crashed
    ensures forall i :: 0 <= i < |Scanned(rows, w, h, adj0, guard).dots| ==> GlyphAt(rows, w, Scanned(rows, w, h, adj0, guard).dots[i].0, Scanned(rows, w, h, adj0, guard).dots[i].1)
    ensures forall x, y :: GlyphAt(rows, w, x, y) ==> (x, y) in Scanned(rows, w, h, adj0, guard).dots
    ensures forall i, j :: 0 <= i < j < |Scanned(rows, w, h, adj0, guard).dots| ==> Earlier(Scanned(rows, w, h, adj0, guard).dots[i], Scanned(rows, w, h, adj0, guard).dots[j])
  {
    FoundRows(rows, w, h, adj0, |rows|, guard);
    var st := Scanned(rows, w, h, adj0, guard);
    forall x, y | GlyphAt(rows, w, x, y) ensures (x, y) in st.dots {
      assert Done(|rows|, 0, x, y);
    }
  }

  /** Rows no wider than the board have no overhang, so their scan never raises. */
  lemma NarrowRowsNoOverhang(rows: seq<string>, w: int, h: int)
    requires forall y :: 0 <= y < |rows| ==> |rows[y]| <= 2 * w + 1
    ensures forall x, y :: !Overhang(rows, w, h, x, y)
  {
    forall x, y | Overhang(rows, w, h, x, y) ensures false {
      PadChars(rows[y], w);
    }
  }

  // ---------------------------------------------------------------------
  // The missing column check of the horizontal branch
  // ---------------------------------------------------------------------

  lemma CellKeys(st: Scan, w: int, h: int, c: char, x: int, y: int, guard: bool, keys: set<Tile>)
    requires st.adj.Keys == keys
    ensures CellStep(st, w, h, c, x, y, guard).adj.Keys == keys
  {
  }

  lemma {:induction false} RowScanKeys(st: Scan, line: string, y: int, w: int, h: int, x: nat, guard: bool, keys: set<Tile>)
    requires x <= |line| && st.adj.Keys == keys
    ensures RowScan(st, line, y, w, h, x, guard).adj.Keys == keys
    decreases |line| - x
  {
    if x < |line| {
      CellKeys(st, w, h, line[x], x, y, guard, keys);
      RowScanKeys(CellStep(st, w, h, line[x], x, y, guard), line, y, w, h, x + 1, guard, keys);
    }
  }

  lemma RowsScanKeysStep(rows: seq<string>, w: int, h: int, adj0: map<Tile, seq<Tile>>, k: nat, guard: bool)
    requires 0 < k <= |rows| && RowsScan(rows, w, h, adj0, k - 1, guard).adj.Keys == adj0.Keys
    ensures RowsScan(rows, w, h, adj0, k, guard).adj.Keys == adj0.Keys
  {
    var prev := RowsScan(rows, w, h, adj0, k - 1, guard);
    if !prev.crashed {
      RowScanKeys(prev, Pad(rows[k - 1], w), k - 1, w, h, 0, guard, adj0.Keys);
    }
  }

  lemma {:induction false} RowsScanKeys(rows: seq<string>, w: int, h: int, adj0: map<Tile, seq<Tile>>, k: nat, guard: bool)
    requires k <= |rows|
    ensures RowsScan(rows, w, h, adj0, k, guard).adj.Keys == adj0.Keys
  {
    if k > 0 {
      RowsScanKeys(rows, w, h, adj0, k - 1, guard);
      RowsScanKeysStep(rows, w, h, adj0, k, guard);
    }
  }

  /** Where the unguarded step raises no KeyError, the column check changes nothing. */
  lemma CellAgrees(st: Scan, w: int, h: int, c: char, x: int, y: int)
    requires st.adj.Keys == TileSet(w, h) && !CellStep(st, w, h, c, x, y, false).crashed
    ensures CellStep(st, w, h, c, x, y, false) == CellStep(st, w, h, c, x, y, true)
  {
    if x % 2 == 1 && y % 2 == 0 && Open(c) && 0 <= y / 2 - 1 < h && 0 <= y / 2 < h && (x - 1) / 2 >= w {
      TileSetMembers(w, h, ((x - 1) / 2, y / 2 - 1));
    }
  }

  lemma {:induction false} RowScanAgrees(st: Scan, line: string, y: int, w: int, h: int, x: nat)
    requires x <= |line| && st.adj.Keys == TileSet(w, h) && !RowScan(st, line, y, w, h, x, false).crashed
    ensures RowScan(st, line, y, w, h, x, false) == RowScan(st, line, y, w, h, x, true)
    decreases |line| - x
  {
    if x < |line| {
      var next := CellStep(st, w, h, line[x], x, y, false);
      RowScanCrashed(next, line, y, w, h, x + 1, false);
      CellAgrees(st, w, h, line[x], x, y);
      CellKeys(st, w, h, line[x], x, y, false, TileSet(w, h));
      RowScanAgrees(next, line, y, w, h, x + 1);
    }
  }

  /** A scan that has not raised after k rows had not raised after k - 1. */
  lemma RowsScanEarlier(rows: seq<string>, w: int, h: int, adj0: map<Tile, seq<Tile>>, k: nat, guard: bool)
    requires 0 < k <= |rows| && !RowsScan(rows, w, h, adj0, k, guard).crashed
    ensures !RowsScan(rows, w, h, adj0, k - 1, guard).crashed
  {
  }

  /** Where row k - 1 raises no KeyError, the column check changes nothing in it. */
  lemma RowsAgreeStep(rows: seq<string>, w: int, h: int, adj0: map<Tile, seq<Tile>>, k: nat)
    requires 0 < k <= |rows| && RowsScan(rows, w, h, adj0, k - 1, false).adj.Keys == TileSet(w, h)
    requires RowsScan(rows, w, h, adj0, k - 1, false) == RowsScan(rows, w, h, adj0, k - 1, true)
    requires !RowsScan(rows, w, h, adj0, k, false).crashed
    ensures RowsScan(rows, w, h, adj0, k, false) == RowsScan(rows, w, h, adj0, k, true)
  {
    var prev := RowsScan(rows, w, h, adj0, k - 1, false);
    assert !prev.crashed;
    RowScanAgrees(prev, Pad(rows[k - 1], w), k - 1, w, h, 0);
  }

  lemma {:induction false} RowsScanAgrees(rows: seq<string>, w: int, h: int, adj0: map<Tile, seq<Tile>>, k: nat)
    requires k <= |rows| && adj0.Keys == TileSet(w, h) && !RowsScan(rows, w, h, adj0, k, false).crashed
    ensures RowsScan(rows, w, h, adj0, k, false) == RowsScan(rows, w, h, adj0, k, true)
  {
    if k > 0 {
      RowsScanEarlier(rows, w, h, adj0, k, false);
      RowsScanAgrees(rows, w, h, adj0, k - 1);
      RowsScanKeys(rows, w, h, adj0, k - 1, false);
      RowsAgreeStep(rows, w, h, adj0, k);
    }
  }

  /** Whenever the scan as written ends normally, it computes what the guarded scan computes. */
  lemma ScanGuardAgrees(rows: seq<string>, w: int, h: int, adj0: map<Tile, seq<Tile>>)
    requires adj0.Keys == TileSet(w, h) && !Scanned(rows, w, h, adj0, false).crashed
    ensures Scanned(rows, w, h, adj0, false) == Scanned(rows, w, h, adj0, true)
  {
    RowsScanAgrees(rows, w, h, adj0, |rows|);
  }

  /** A 1 x 2 board whose middle rule carries one trailing blank. */
  function TrailingBlankRows(): seq<string>
  {
    ["+-+", "| |", "+-+ ", "| |", "+-+"]
  }

  /**
   * As written, the scan of these rows raises KeyError: the trailing blank
   * at (3, 2) sends the horizontal branch to the missing tile (1, 0).  With
   * the column check the scan ends normally.
   */
  lemma TrailingBlankCrashes(adj0: map<Tile, seq<Tile>>)
    requires EmptyOn(adj0, 1, 2)
    ensures Scanned(TrailingBlankRows(), 1, 2, adj0, false).crashed
    ensures !Scanned(TrailingBlankRows(), 1, 2, adj0, true).crashed
  {
    assert Overhang(TrailingBlankRows(), 1, 2, 3, 2);
    ScanCrashes(TrailingBlankRows(), 1, 2, adj0, false);
    ScanCrashes(TrailingBlankRows(), 1, 2, adj0, true);
  }
}
