/**
 * check.py's validate_solution and check: scan the printed grid for dots
 * and open edges, split the tiles into regions, and validate the regions
 * against the dots.
 *
 * The flag guard chooses between the scan as written (false), which raises
 * KeyError on an open horizontal edge cell right of the board, and the
 * scan that also bounds the tile column there (true).
 */
module Checker {

  import opened Tiles
  import opened Render
  import opened Adjacency
  import Components
  import opened Validation
  import opened OutputText

  /** The neighbour lists validate_solution starts from. */
  function EmptyAdj(w: int, h: int): (r: map<Tile, seq<Tile>>)
    ensures EmptyOn(r, w, h)
  {
    map t | t in TileSet(w, h) :: []
  }

  /** There is only one map with no neighbours for each tile of the board. */
  lemma EmptyOnUnique(adj: map<Tile, seq<Tile>>, w: int, h: int)
    requires EmptyOn(adj, w, h)
    ensures adj == EmptyAdj(w, h)
  {
  }

  /** The dots of the printed grid, in reading order. */
  function DotsOf(rows: seq<string>, w: int, h: int, guard: bool): seq<(int, int)>
  {
    Scanned(rows, w, h, EmptyAdj(w, h), guard).dots
  }

  /** The tiles among cs that a is linked to, in the order of cs. */
  function LinkedAmong(rows: seq<string>, w: int, h: int, a: Tile, cs: seq<Tile>): (r: seq<Tile>)
    ensures forall b :: b in r <==> b in cs && Linked(rows, w, h, a, b)
  {
    if |cs| == 0 then []
    else (if Linked(rows, w, h, a, cs[0]) then [cs[0]] else []) + LinkedAmong(rows, w, h, a, cs[1..])
  }

  /** The tiles linked to a: its neighbours with no wall drawn between. */
  function LinksOf(rows: seq<string>, w: int, h: int, a: Tile): (r: seq<Tile>)
    ensures forall b :: b in r <==> Linked(rows, w, h, a, b)
  {
    LinkedAmong(rows, w, h, a, [(a.0 + 1, a.1), (a.0 - 1, a.1), (a.0, a.1 + 1), (a.0, a.1 - 1)])
  }

  /** The adjacency the printed grid draws: each tile of the board with the tiles it is linked to. */
  function LinkAdj(rows: seq<string>, w: int, h: int): (r: map<Tile, seq<Tile>>)
    ensures forall t :: t in r <==> OnBoard(w, h, t)
    ensures forall a, b :: a in r ==> (b in r[a] <==> Linked(rows, w, h, a, b))
  {
    var r := map t | t in TileSet(w, h) :: LinksOf(rows, w, h, t);
    forall t ensures t in r <==> OnBoard(w, h, t) {
      TileSetMembers(w, h, t);
    }
    r
  }

  /**
   * The split of the board's tiles into its connected regions, in the
   * order of their first tiles in reading order: nonempty regions, each
   * tile in exactly one, with no open edge leading out of a region, and
   * the tile set of the j-th region the j-th component of the tiles
   * linked by open edges.
   */
  ghost predicate RegionsOf(regions: seq<seq<Tile>>, rows: seq<string>, w: int, h: int)
  {
    && (forall j :: 0 <= j < |regions| ==> |regions[j]| > 0)
    && Components.Distinct(Components.Flatten(regions))
    && (forall t :: t in Components.Flatten(regions) <==> OnBoard(w, h, t))
    && (forall j, a, b :: 0 <= j < |regions| && a in regions[j] && Linked(rows, w, h, a, b) ==> b in regions[j])
    && Components.SetsOf(regions) == Components.ComponentsFrom(LinkAdj(rows, w, h), TileList(w, h), {})
  }

  /**
   * Any two splits RegionsOf admits get the same verdict: the grid
   * determines the result of the region checks.
   */
  lemma VerdictDetermined(r1: seq<seq<Tile>>, r2: seq<seq<Tile>>, rows: seq<string>, w: int, h: int, dots: seq<(int, int)>)
    requires RegionsOf(r1, rows, w, h) && RegionsOf(r2, rows, w, h)
    ensures Validated(r1, dots) == Validated(r2, dots)
  {
    Components.DistinctParts(r1);
    Components.DistinctParts(r2);
    ValidatedBySets(r1, r2, dots);
  }

  lemma LinkedSymmetric(rows: seq<string>, w: int, h: int, a: Tile, b: Tile)
    ensures Linked(rows, w, h, a, b) <==> Linked(rows, w, h, b, a)
  {
    assert Between(a, b) == Between(b, a);
  }

  /** Dots found in strict reading order are at distinct positions. */
  lemma OrderedDistinct(dots: seq<(int, int)>)
    requires forall i, j :: 0 <= i < j < |dots| ==> Earlier(dots[i], dots[j])
    ensures Components.Distinct(dots)
  {
  }

  /** What the scan leaves, when it does not crash, meets what the region search needs. */
  lemma ScanReady(rows: seq<string>, w: nat, h: nat, tiles: seq<Tile>, guard: bool)
    requires |rows| == 2 * h + 1 && tiles == TileList(w, h)
    requires !Scanned(rows, w, h, EmptyAdj(w, h), guard).crashed
    ensures var adj := Scanned(rows, w, h, EmptyAdj(w, h), guard).adj;
      && Components.Closed(adj) && Components.Symmetric(adj)
      && (forall t :: t in adj <==> t in tiles)
      && (forall a, b :: a in adj ==> (b in adj[a] <==> Linked(rows, w, h, a, b)))
  {
    var adj0 := EmptyAdj(w, h);
    assert Start(rows, w, h, adj0);
    ScanCrashes(rows, w, h, adj0, guard);
    ScanLinks(rows, w, h, adj0, guard);
    TileListMembers(w, h);
    var adj := Scanned(rows, w, h, adj0, guard).adj;
    forall t | true ensures t in adj <==> OnBoard(w, h, t) {
      TileSetMembers(w, h, t);
    }
    forall t, u | t in adj && u in adj[t] ensures u in adj {
      assert Linked(rows, w, h, t, u);
    }
    forall t, u | t in adj && u in adj[t] ensures t in adj[u] {
      LinkedSymmetric(rows, w, h, t, u);
    }
  }

  /** The regions of the region search, read back in terms of the grid. */
  lemma FoundRegions(rows: seq<string>, w: nat, h: nat, adj: map<Tile, seq<Tile>>, tiles: seq<Tile>, regions: seq<seq<Tile>>)
    requires forall t :: t in tiles <==> OnBoard(w, h, t)
    requires forall t :: t in adj <==> t in tiles
    requires forall a, b :: a in adj ==> (b in adj[a] <==> Linked(rows, w, h, a, b))
    requires forall j :: 0 <= j < |regions| ==> |regions[j]| > 0
    requires Components.Distinct(Components.Flatten(regions))
    requires forall t :: t in Components.Flatten(regions) <==> t in tiles
    requires forall j, t, u :: 0 <= j < |regions| && t in regions[j] && t in adj && u in adj[t] ==> u in regions[j]
    requires tiles == TileList(w, h) && Components.SetsOf(regions) == Components.ComponentsFrom(adj, tiles, {})
    ensures RegionsOf(regions, rows, w, h)
  {
    Components.SameComponents(adj, LinkAdj(rows, w, h), tiles, {});
    forall j, a, b | 0 <= j < |regions| && a in regions[j] && Linked(rows, w, h, a, b) ensures b in regions[j] {
      assert a in adj && b in adj[a];
    }
  }

  /**
   * validate_solution.  It raises KeyError exactly when the scan as
   * written meets an open cell right of the board; otherwise its verdict
   * is that of the region checks on the connected regions of the board,
   * in the order of their first tiles, with the dots of the grid in
   * reading order, and it never finds a region with two centres.
   */
  method ValidateSolution(data: Parsed, guard: bool) returns (v: Verdict)
    requires |data.rows| == 2 * data.h + 1
    ensures v == Crash <==> !guard && exists x, y :: Overhang(data.rows, data.w, data.h, x, y)
    ensures v != Crash ==>
      exists regions :: RegionsOf(regions, data.rows, data.w, data.h) && v == Validated(regions, DotsOf(data.rows, data.w, data.h, guard))
    ensures v != Crash ==>
      forall regions :: RegionsOf(regions, data.rows, data.w, data.h) ==> v == Validated(regions, DotsOf(data.rows, data.w, data.h, guard))
    ensures v != Fail(MultipleCentres)
  {
    var w, h, rows := data.w, data.h, data.rows;
    var tiles, adj0 := InitTiles(w, h);
    EmptyOnUnique(adj0, w, h);
    var st := ScanRows(w, h, rows, adj0, guard);
    assert Start(rows, w, h, adj0);
    ScanCrashes(rows, w, h, adj0, guard);
    if st.crashed {
      return Crash;
    }
    ScanReady(rows, w, h, tiles, guard);
    TileListMembers(w, h);
    var regions := Components.FindRegions(tiles, st.adj);
    FoundRegions(rows, w, h, st.adj, tiles, regions);
    ScanDots(rows, w, h, adj0, guard);
    OrderedDistinct(st.dots);
    NeverMultiple(regions, st.dots);
    v := ValidateRegions(regions, st.dots);
    assert st.dots == DotsOf(rows, w, h, guard);
    assert RegionsOf(regions, rows, w, h) && v == Validated(regions, DotsOf(rows, w, h, guard));
    forall other | RegionsOf(other, rows, w, h) ensures v == Validated(other, DotsOf(rows, w, h, guard)) {
      VerdictDetermined(regions, other, rows, w, h, DotsOf(rows, w, h, guard));
    }
  }

  /** check: the "No solution found" message, then parse_output, then validate_solution. */
  method Check(text: string, guard: bool) returns (v: Verdict)
    ensures SaysNoSolution(text) ==> v == Fail(NoSolution)
    ensures !SaysNoSolution(text) && ParsedOutput(text).ParseFailure? ==> v == Fail(Parse(ParsedOutput(text).err))
    ensures !SaysNoSolution(text) && ParsedOutput(text).Grid? ==>
      var d := ParsedOutput(text).data;
      && (v == Crash <==> !guard && exists x, y :: Overhang(d.rows, d.w, d.h, x, y))
      && (v != Crash ==> exists regions :: RegionsOf(regions, d.rows, d.w, d.h) && v == Validated(regions, DotsOf(d.rows, d.w, d.h, guard)))
      && (v != Crash ==> forall regions :: RegionsOf(regions, d.rows, d.w, d.h) ==> v == Validated(regions, DotsOf(d.rows, d.w, d.h, guard)))
  {
    if SaysNoSolution(text) {
      return Fail(NoSolution);
    }
    var r := ParseOutput(text);
    if r.ParseFailure? {
      return Fail(Parse(r.err));
    }
    ParsedOutputMeans(text);
    v := ValidateSolution(r.data, guard);
  }

  /**
   * The grid printSolution writes has rows exactly 2w+1 wide, so the scan
   * as written never raises KeyError on it and agrees with the guarded one.
   */
  lemma RenderedScans(p: Puzzle, g: Grid)
    requires Drawable(p, g)
    ensures !Scanned(Rendered(p, g), p.w, p.h, EmptyAdj(p.w, p.h), false).crashed
    ensures Scanned(Rendered(p, g), p.w, p.h, EmptyAdj(p.w, p.h), false) == Scanned(Rendered(p, g), p.w, p.h, EmptyAdj(p.w, p.h), true)
  {
    var rows := Rendered(p, g);
    NarrowRowsNoOverhang(rows, p.w, p.h);
    assert Start(rows, p.w, p.h, EmptyAdj(p.w, p.h));
    ScanCrashes(rows, p.w, p.h, EmptyAdj(p.w, p.h), false);
    ScanGuardAgrees(rows, p.w, p.h, EmptyAdj(p.w, p.h));
  }
}
