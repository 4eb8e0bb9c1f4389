/**
 * How a grid is drawn as text: the per-cell rule of printSolution (the C++
 * solvers' solved board, which the checker reads back) and the character
 * grid of the Python decoder's visualize_puzzle.
 *
 * Both draw the (2W+1) x (2H+1) internal grid: tiles at odd-odd cells,
 * vertices at even-even cells and edges in between.
 */
module Render {

  import opened Tiles

  /** The glyphs of a black and a white dot: U+25CF and U+25CB. */
  const BlackGlyph: char := '\U{25CF}'
  const WhiteGlyph: char := '\U{25CB}'

  function DotGlyph(d: Dot): char
  {
    if d.isBlack then BlackGlyph else WhiteGlyph
  }

  // ---------------------------------------------------------------------
  // printSolution
  // ---------------------------------------------------------------------

  /** The index of the first dot at (x, y) among dots[i..], or -1. */
  function FirstDotFrom(dots: seq<Dot>, x: int, y: int, i: nat): (r: int)
    requires i <= |dots|
    ensures r == -1 || i <= r < |dots|
    decreases |dots| - i
  {
    if i == |dots| then -1
    else if dots[i].x == x && dots[i].y == y then i
    else FirstDotFrom(dots, x, y, i + 1)
  }

  function FirstDot(dots: seq<Dot>, x: int, y: int): (r: int)
    ensures -1 <= r < |dots|
  {
    FirstDotFrom(dots, x, y, 0)
  }

  predicate DotAt(dots: seq<Dot>, i: int, x: int, y: int)
    requires 0 <= i < |dots|
  {
    dots[i].x == x && dots[i].y == y
  }

  /** The scan from i finds the first dot at (x, y) there, and -1 only when there is none. */
  lemma {:induction false} FirstDotFromFinds(dots: seq<Dot>, x: int, y: int, i: nat)
    requires i <= |dots|
    ensures FirstDotFrom(dots, x, y, i) == -1 <==> forall j :: i <= j < |dots| ==> !DotAt(dots, j, x, y)
    ensures FirstDotFrom(dots, x, y, i) >= 0 ==>
      DotAt(dots, FirstDotFrom(dots, x, y, i), x, y) &&
      forall j :: i <= j < FirstDotFrom(dots, x, y, i) ==> !DotAt(dots, j, x, y)
    decreases |dots| - i
  {
    if i < |dots| && !DotAt(dots, i, x, y) {
      FirstDotFromFinds(dots, x, y, i + 1);
    }
  }

  /** dotIndexAt finds the first dot at (x, y), and -1 exactly when no dot lies there. */
  lemma FirstDotFinds(dots: seq<Dot>, x: int, y: int)
    ensures FirstDot(dots, x, y) == -1 <==> forall j :: 0 <= j < |dots| ==> !DotAt(dots, j, x, y)
    ensures FirstDot(dots, x, y) >= 0 ==>
      DotAt(dots, FirstDot(dots, x, y), x, y) && forall j :: 0 <= j < FirstDot(dots, x, y) ==> !DotAt(dots, j, x, y)
  {
    FirstDotFromFinds(dots, x, y, 0);
  }

  /** dotIndexAt: the linear search over the dots. */
  method DotIndexAt(dots: seq<Dot>, x: int, y: int) returns (r: int)
    requires |dots| < 0x8000_0000
    ensures r == FirstDot(dots, x, y)
  {
    var i := 0;
    while i < |dots|
      invariant 0 <= i <= |dots|
      invariant FirstDot(dots, x, y) == FirstDotFrom(dots, x, y, i)
    {
      if dots[i].x == x && dots[i].y == y {
        return i;
      }
      i := i + 1;
    }
    return -1;
  }

  /** A puzzle record whose internal size matches its tiles, with an owner grid of that size. */
  predicate Drawable(p: Puzzle, g: Grid)
  {
    p.w >= 0 && p.h >= 0 && p.sx == 2 * p.w + 1 && p.sy == 2 * p.h + 1 && Shaped(g, p.w, p.h)
  }

  /**
   * The character printSolution writes at internal cell (x, y): the glyph
   * of the first dot there; otherwise '+' at a vertex, '|' on a vertical
   * edge and '-' on a horizontal one when the owners on its two sides
   * differ (a side off the board counts as -2), and ' ' elsewhere.
   */
  function RenderCell(p: Puzzle, g: Grid, x: int, y: int): char
    requires Drawable(p, g) && 0 <= x < p.sx && 0 <= y < p.sy
  {
    var d := FirstDot(p.dots, x, y);
    if d != -1 then DotGlyph(p.dots[d])
    else if x % 2 == 0 && y % 2 == 0 then '+'
    else if x % 2 == 0 then
      var txl, txr, ty := CHalf(x - 2), CHalf(x), CHalf(y - 1);
      var left := if txl >= 0 then g[ty][txl] else -2;
      var right := if txr < p.w then g[ty][txr] else -2;
      if left != right then '|' else ' '
    else if y % 2 == 0 then
      var tyu, tyd, tx := CHalf(y - 2), CHalf(y), CHalf(x - 1);
      var up := if tyu >= 0 then g[tyu][tx] else -2;
      var down := if tyd < p.h then g[tyd][tx] else -2;
      if up != down then '-' else ' '
    else ' '
  }

  /** The rows printSolution writes between its two '=' rules. */
  function Rendered(p: Puzzle, g: Grid): (r: seq<string>)
    requires Drawable(p, g)
    ensures |r| == p.sy && forall y :: 0 <= y < |r| ==> |r[y]| == p.sx
  {
    seq(p.sy, y requires 0 <= y < p.sy => seq(p.sx, x requires 0 <= x < p.sx => RenderCell(p, g, x, y)))
  }

  /** The owner of tile (tx, ty) as the wall rule compares it: -2 off the board. */
  function Side(g: Grid, w: int, h: int, tx: int, ty: int): int
    requires Shaped(g, w, h)
  {
    if 0 <= tx < w && 0 <= ty < h then g[ty][tx] else -2
  }

  /** No dot lies at internal cell (x, y). */
  predicate NoDotAt(dots: seq<Dot>, x: int, y: int)
  {
    forall j :: 0 <= j < |dots| ==> !DotAt(dots, j, x, y)
  }

  /**
   * Between tiles (tx - 1, ty) and (tx, ty), the cell (2 tx, 2 ty + 1)
   * with no dot on it is a wall '|' exactly when their owners differ,
   * for every tx from 0 to w, borders included; otherwise it is ' '.
   */
  lemma RenderVertical(p: Puzzle, g: Grid, tx: int, ty: int)
    requires Drawable(p, g) && 0 <= tx <= p.w && 0 <= ty < p.h && NoDotAt(p.dots, 2 * tx, 2 * ty + 1)
    ensures RenderCell(p, g, 2 * tx, 2 * ty + 1) ==
      if Side(g, p.w, p.h, tx - 1, ty) != Side(g, p.w, p.h, tx, ty) then '|' else ' '
  {
    FirstDotFinds(p.dots, 2 * tx, 2 * ty + 1);
    assert CHalf(2 * tx - 2) == tx - 1 && CHalf(2 * tx) == tx && CHalf(2 * ty) == ty;
  }

  /** The same for the cell (2 tx + 1, 2 ty) between tiles (tx, ty - 1) and (tx, ty), with '-'. */
  lemma RenderHorizontal(p: Puzzle, g: Grid, tx: int, ty: int)
    requires Drawable(p, g) && 0 <= tx < p.w && 0 <= ty <= p.h && NoDotAt(p.dots, 2 * tx + 1, 2 * ty)
    ensures RenderCell(p, g, 2 * tx + 1, 2 * ty) ==
      if Side(g, p.w, p.h, tx, ty - 1) != Side(g, p.w, p.h, tx, ty) then '-' else ' '
  {
    FirstDotFinds(p.dots, 2 * tx + 1, 2 * ty);
    assert CHalf(2 * ty - 2) == ty - 1 && CHalf(2 * ty) == ty && CHalf(2 * tx) == tx;
  }

  /**
   * The outline of a board with tiles is always drawn: when every owner is
   * -1 or a dot index, each border edge cell without a dot is a wall.
   */
  lemma RenderBorder(p: Puzzle, g: Grid, x: int, y: int)
    requires Drawable(p, g) && p.w > 0 && p.h > 0 && Owners(g, |p.dots|)
    requires 0 <= x < p.sx && 0 <= y < p.sy && NoDotAt(p.dots, x, y)
    requires ((x == 0 || x == p.sx - 1) && y % 2 == 1) || ((y == 0 || y == p.sy - 1) && x % 2 == 1)
    ensures RenderCell(p, g, x, y) == if x % 2 == 0 then '|' else '-'
  {
    if x % 2 == 0 {
      var tx, ty := x / 2, (y - 1) / 2;
      assert x == 2 * tx && y == 2 * ty + 1;
      RenderVertical(p, g, tx, ty);
      assert tx == 0 || tx == p.w;
      if tx == 0 {
        assert g[ty][0] >= -1;
      } else {
        assert g[ty][p.w - 1] >= -1;
      }
    } else {
      var tx, ty := (x - 1) / 2, y / 2;
      assert x == 2 * tx + 1 && y == 2 * ty;
      RenderHorizontal(p, g, tx, ty);
      assert ty == 0 || ty == p.h;
      if ty == 0 {
        assert g[0][tx] >= -1;
      } else {
        assert g[p.h - 1][tx] >= -1;
      }
    }
  }

  /**
   * Dots override: a cell holding a dot shows the glyph of the first dot
   * there, and no other cell shows a dot glyph.
   */
  lemma RenderDots(p: Puzzle, g: Grid, x: int, y: int)
    requires Drawable(p, g) && 0 <= x < p.sx && 0 <= y < p.sy
    ensures NoDotAt(p.dots, x, y) <==> FirstDot(p.dots, x, y) == -1
    ensures FirstDot(p.dots, x, y) >= 0 ==>
      DotAt(p.dots, FirstDot(p.dots, x, y), x, y) && RenderCell(p, g, x, y) == DotGlyph(p.dots[FirstDot(p.dots, x, y)])
    ensures NoDotAt(p.dots, x, y) <==> RenderCell(p, g, x, y) != BlackGlyph && RenderCell(p, g, x, y) != WhiteGlyph
  {
    FirstDotFinds(p.dots, x, y);
  }

  // ---------------------------------------------------------------------
  // visualize_puzzle
  // ---------------------------------------------------------------------

  /** The box-drawing characters visualize_puzzle uses: U+2502 and U+2500. */
  const VerticalBar: char := '\U{2502}'
  const HorizontalBar: char := '\U{2500}'

  /** The structure drawn at (x, y) before the dots. */
  function Frame(x: int, y: int): char
  {
    if x % 2 == 0 && y % 2 == 0 then '+'
    else if x % 2 == 0 then VerticalBar
    else if y % 2 == 0 then HorizontalBar
    else ' '
  }

  /** The length of range(n). */
  function Count(n: int): nat
  {
    if n < 0 then 0 else n
  }

  /** A Python list index i is valid for a list of length n: -n <= i < n. */
  predicate PyIndexes(i: int, n: int)
  {
    -n <= i < n
  }

  /** The element a valid Python index i names, counting from the end when negative. */
  function PyIndex(i: int, n: int): (k: int)
    requires PyIndexes(i, n)
    ensures 0 <= k < n
  {
    if i < 0 then i + n else i
  }

  /** The character grid visualize_puzzle builds before the dots: rows counted by range(sy), cells by range(sx). */
  function FrameGrid(rows: nat, cols: nat): (r: seq<seq<char>>)
    ensures |r| == rows && forall q :: 0 <= q < rows ==> |r[q]| == cols
  {
    seq(rows, q requires 0 <= q < rows => seq(cols, p requires 0 <= p < cols => Frame(p, q)))
  }

  /** The grid, sy rows of sx cells, with every cell before (x, y) in row-major order framed and the rest blank. */
  function FrameUpTo(rows: nat, cols: nat, y: int, x: int): (r: seq<seq<char>>)
    ensures |r| == rows && forall q :: 0 <= q < rows ==> |r[q]| == cols
  {
    seq(rows, q requires 0 <= q < rows => seq(cols, p requires 0 <= p < cols =>
      if q < y || (q == y && p < x) then Frame(p, q) else ' '))
  }

  /** The grid with its cell (x, y) replaced. */
  function SetChar(g: seq<seq<char>>, x: int, y: int, c: char): (r: seq<seq<char>>)
    requires 0 <= y < |g| && 0 <= x < |g[y]|
    ensures |r| == |g| && forall q :: 0 <= q < |g| ==> |r[q]| == |g[q]|
  {
    g[y := g[y][x := c]]
  }

  /**
   * What visualize_puzzle draws: the frame, then each dot's glyph
   * written over its cell in order; nothing when a dot's indices are out of
   * range, where Python raises IndexError.
   */
  function Visual(w: int, h: int, dots: seq<Dot>): (r: Option<seq<seq<char>>>)
    ensures r.Some? ==> |r.value| == Count(2 * h + 1) && forall q :: 0 <= q < |r.value| ==> |r.value[q]| == Count(2 * w + 1)
  {
    if dots == [] then Some(FrameGrid(Count(2 * h + 1), Count(2 * w + 1)))
    else
      var prev := Visual(w, h, dots[..|dots| - 1]);
      var d := dots[|dots| - 1];
      if prev.None? || !PyIndexes(d.y, Count(2 * h + 1)) || !PyIndexes(d.x, Count(2 * w + 1)) then None
      else Some(SetChar(prev.value, PyIndex(d.x, Count(2 * w + 1)), PyIndex(d.y, Count(2 * h + 1)), DotGlyph(d)))
  }

  /** One more framed cell. */
  lemma FrameStep(rows: nat, cols: nat, y: int, x: int)
    requires 0 <= y < rows && 0 <= x < cols
    ensures SetChar(FrameUpTo(rows, cols, y, x), x, y, Frame(x, y)) == FrameUpTo(rows, cols, y, x + 1)
  {
    var a := SetChar(FrameUpTo(rows, cols, y, x), x, y, Frame(x, y));
    var b := FrameUpTo(rows, cols, y, x + 1);
    forall q | 0 <= q < rows ensures a[q] == b[q] {
      assert forall p :: 0 <= p < cols ==> a[q][p] == b[q][p];
    }
  }

  /** A framed row ends where the next one starts. */
  lemma FrameRow(rows: nat, cols: nat, y: int)
    requires 0 <= y < rows
    ensures FrameUpTo(rows, cols, y, cols) == FrameUpTo(rows, cols, y + 1, 0)
  {
    var a, b := FrameUpTo(rows, cols, y, cols), FrameUpTo(rows, cols, y + 1, 0);
    forall q | 0 <= q < rows ensures a[q] == b[q] {
      assert forall p :: 0 <= p < cols ==> a[q][p] == b[q][p];
    }
  }

  /** All rows framed is the frame. */
  lemma FrameDone(rows: nat, cols: nat)
    ensures FrameUpTo(rows, cols, rows, 0) == FrameGrid(rows, cols)
  {
    var a, b := FrameUpTo(rows, cols, rows, 0), FrameGrid(rows, cols);
    forall q | 0 <= q < rows ensures a[q] == b[q] {
      assert forall p :: 0 <= p < cols ==> a[q][p] == b[q][p];
    }
  }

  /** The first two loops of visualize_puzzle: the blank grid framed cell by cell. */
  method DrawFrame(w: int, h: int) returns (grid: seq<seq<char>>)
    ensures grid == FrameGrid(Count(2 * h + 1), Count(2 * w + 1))
  {
    var sx, sy := 2 * w + 1, 2 * h + 1;
    var rows, cols := Count(sy), Count(sx);
    grid := seq(rows, _ => seq(cols, _ => ' '));
    FrameStart(rows, cols, grid);
    var y := 0;
    while y < sy
      invariant 0 <= y <= rows && (y < rows ==> y < sy)
      invariant grid == FrameUpTo(rows, cols, y, 0)
    {
      var x := 0;
      while x < sx
        invariant 0 <= x <= cols
        invariant grid == FrameUpTo(rows, cols, y, x)
      {
        FrameStep(rows, cols, y, x);
        grid := grid[y := grid[y][x := Frame(x, y)]];
        x := x + 1;
      }
      FrameRow(rows, cols, y);
      y := y + 1;
    }
    FrameDone(rows, cols);
  }

  /** Nothing is framed at first. */
  lemma FrameStart(rows: nat, cols: nat, g: seq<seq<char>>)
    requires g == seq(rows, _ => seq(cols, _ => ' '))
    ensures g == FrameUpTo(rows, cols, 0, 0)
  {
    var b := FrameUpTo(rows, cols, 0, 0);
    forall q | 0 <= q < rows ensures g[q] == b[q] {
      assert forall p :: 0 <= p < cols ==> g[q][p] == b[q][p];
    }
  }

  /**
   * visualize_puzzle up to printing: the frame, then the dots written over
   * it in order.
   */
  method VisualizeGrid(w: int, h: int, dots: seq<Dot>) returns (r: Option<seq<seq<char>>>)
    ensures r == Visual(w, h, dots)
  {
    var grid := DrawFrame(w, h);
    var rows, cols := Count(2 * h + 1), Count(2 * w + 1);
    var i := 0;
    while i < |dots|
      invariant 0 <= i <= |dots|
      invariant Visual(w, h, dots[..i]) == Some(grid)
    {
      assert dots[..i + 1][..i] == dots[..i];
      var d := dots[i];
      if !PyIndexes(d.y, rows) || !PyIndexes(d.x, cols) {
        VisualStaysNone(w, h, dots, i + 1);
        return None;
      }
      grid := grid[PyIndex(d.y, rows) := grid[PyIndex(d.y, rows)][PyIndex(d.x, cols) := DotGlyph(d)]];
      i := i + 1;
    }
    assert dots[..i] == dots;
    return Some(grid);
  }

  /** Once a dot is out of range, visualize_puzzle has raised for good. */
  lemma {:induction false} VisualStaysNone(w: int, h: int, dots: seq<Dot>, k: nat)
    requires k <= |dots| && Visual(w, h, dots[..k]).None?
    ensures Visual(w, h, dots).None?
    decreases |dots| - k
  {
    if k < |dots| {
      assert dots[..k + 1][..k] == dots[..k];
      VisualStaysNone(w, h, dots, k + 1);
    } else {
      assert dots[..k] == dots;
    }
  }

  /** Every dot's indices are valid for the grid. */
  predicate AllInRange(w: int, h: int, dots: seq<Dot>)
  {
    forall i :: 0 <= i < |dots| ==> PyIndexes(dots[i].y, Count(2 * h + 1)) && PyIndexes(dots[i].x, Count(2 * w + 1))
  }

  /** The index of the last dot landing on cell (p, q), or -1. */
  function LastDotOn(w: int, h: int, dots: seq<Dot>, p: int, q: int): (r: int)
    requires AllInRange(w, h, dots)
    ensures -1 <= r < |dots|
  {
    if dots == [] then -1
    else
      var d := dots[|dots| - 1];
      if PyIndex(d.x, Count(2 * w + 1)) == p && PyIndex(d.y, Count(2 * h + 1)) == q then |dots| - 1
      else LastDotOn(w, h, dots[..|dots| - 1], p, q)
  }

  /**
   * visualize_puzzle draws a grid exactly when every dot's indices are in
   * range; each cell then shows the glyph of the last dot landing on it,
   * or its frame character when none does.
   */
  lemma {:induction false} VisualCells(w: int, h: int, dots: seq<Dot>)
    ensures Visual(w, h, dots).Some? <==> AllInRange(w, h, dots)
    ensures Visual(w, h, dots).Some? ==>
      forall q, p :: 0 <= q < Count(2 * h + 1) && 0 <= p < Count(2 * w + 1) ==>
        Visual(w, h, dots).value[q][p] ==
          if LastDotOn(w, h, dots, p, q) == -1 then Frame(p, q) else DotGlyph(dots[LastDotOn(w, h, dots, p, q)])
    decreases |dots|
  {
    if dots != [] {
      var init := dots[..|dots| - 1];
      VisualCells(w, h, init);
      assert forall i :: 0 <= i < |init| ==> init[i] == dots[i];
      if AllInRange(w, h, dots) {
        assert AllInRange(w, h, init);
      }
    }
  }
}
