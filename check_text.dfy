/**
 * The text side of the solution checker (check.py): splitting the solver's
 * output into lines, finding the "Puzzle Grid (WxH):" header and cutting out
 * the 2H+1 grid rows that follow it (parse_output).
 */
module OutputText {

  import opened Tiles
  import opened GameId

  // ---------------------------------------------------------------------
  // str.split('\n')
  // ---------------------------------------------------------------------

  /** text.split('\n'): the pieces between the newlines, always at least one. */
  function SplitLines(s: string): (r: seq<string>)
    ensures |r| >= 1
  {
    if s == [] then [""]
    else
      var init := SplitLines(s[..|s| - 1]);
      var c := s[|s| - 1];
      if c == '\n' then init + [""] else init[..|init| - 1] + [init[|init| - 1] + [c]]
  }

  /** '\n'.join(lines). */
  function JoinLines(ls: seq<string>): string
    requires |ls| >= 1
  {
    if |ls| == 1 then ls[0] else JoinLines(ls[..|ls| - 1]) + "\n" + ls[|ls| - 1]
  }

  predicate NoNewline(s: string)
  {
    forall j :: 0 <= j < |s| ==> s[j] != '\n'
  }

  /** Appending a line to a join appends it after a newline. */
  lemma JoinSnoc(ls: seq<string>, t: string)
    requires |ls| >= 1
    ensures JoinLines(ls + [t]) == JoinLines(ls) + "\n" + t
  {
    assert (ls + [t])[..|ls|] == ls;
  }

  /** Lengthening the last line of a join lengthens the join. */
  lemma {:induction false} JoinExtend(ls: seq<string>, c: char)
    requires |ls| >= 1
    ensures JoinLines(ls[..|ls| - 1] + [ls[|ls| - 1] + [c]]) == JoinLines(ls) + [c]
  {
    var n := |ls|;
    var m := ls[..n - 1] + [ls[n - 1] + [c]];
    if n > 1 {
      assert m[..n - 1] == ls[..n - 1];
    }
  }

  /** Splitting and joining again gives the text back, and no piece holds a newline. */
  lemma {:induction false} SplitJoin(s: string)
    ensures JoinLines(SplitLines(s)) == s
    ensures forall i :: 0 <= i < |SplitLines(s)| ==> NoNewline(SplitLines(s)[i])
    decreases |s|
  {
    if s != [] {
      var init := SplitLines(s[..|s| - 1]);
      SplitJoin(s[..|s| - 1]);
      var c := s[|s| - 1];
      assert s == s[..|s| - 1] + [c];
      if c == '\n' {
        JoinSnoc(init, "");
      } else {
        JoinExtend(init, c);
        var last := init[|init| - 1];
        assert NoNewline(last);
        assert NoNewline(last + [c]);
      }
    }
  }

  /** Splitting a join of newline-free lines gives the lines back. */
  lemma {:induction false} JoinSplit(ls: seq<string>)
    requires |ls| >= 1 && forall i :: 0 <= i < |ls| ==> NoNewline(ls[i])
    ensures SplitLines(JoinLines(ls)) == ls
    decreases |ls|
  {
    if |ls| == 1 {
      SplitPlain(ls[0]);
    } else {
      var init := ls[..|ls| - 1];
      JoinSplit(init);
      SplitAfterNewline(JoinLines(init), ls[|ls| - 1]);
      assert init + [ls[|ls| - 1]] == ls;
    }
  }

  /** A newline-free text is one line. */
  lemma {:induction false} SplitPlain(t: string)
    requires NoNewline(t)
    ensures SplitLines(t) == [t]
    decreases |t|
  {
    if t != [] {
      SplitPlain(t[..|t| - 1]);
      assert t[..|t| - 1] + [t[|t| - 1]] == t;
    }
  }

  /** The lines of a + "\n" + t, for a newline-free t, are those of a followed by t. */
  lemma {:induction false} SplitAfterNewline(a: string, t: string)
    requires NoNewline(t)
    ensures SplitLines(a + "\n" + t) == SplitLines(a) + [t]
    decreases |t|
  {
    if t == [] {
      assert (a + "\n" + t)[..|a|] == a;
    } else {
      var u := t[..|t| - 1];
      SplitAfterNewline(a, u);
      assert (a + "\n" + t)[..|a| + 1 + |u|] == a + "\n" + u;
      assert u + [t[|t| - 1]] == t;
    }
  }

  // ---------------------------------------------------------------------
  // The header
  // ---------------------------------------------------------------------

  const Title: string := "Puzzle Grid"

  /** The fixed text the header pattern starts with. */
  const HeaderOpen: string := "Puzzle Grid ("

  /**
   * A match of the pattern "Puzzle Grid \((\d+)x(\d+)\):" starting at k,
   * with the two numbers it captures.  Each \d+ must be followed by a
   * non-digit ('x', ')'), so only the longest run of digits can match.
   */
  function HeaderAt(s: string, k: nat): (r: Option<(nat, nat)>)
    requires k <= |s|
  {
    if k + |HeaderOpen| > |s| || s[k..k + |HeaderOpen|] != HeaderOpen then None
    else
      var e1 := DigitEnd(s, k + |HeaderOpen|);
      if e1 == k + |HeaderOpen| || e1 >= |s| || s[e1] != 'x' then None
      else
        var e2 := DigitEnd(s, e1 + 1);
        if e2 == e1 + 1 || e2 + 2 > |s| || s[e2..e2 + 2] != "):" then None
        else Some((DigitsValue(s[k + |HeaderOpen|..e1]), DigitsValue(s[e1 + 1..e2])))
  }

  /** re.search: the match at the leftmost position from k on. */
  function SearchHeaderFrom(s: string, k: nat): (r: Option<(nat, nat)>)
    requires k <= |s|
    decreases |s| - k
  {
    if HeaderAt(s, k).Some? then HeaderAt(s, k)
    else if k == |s| then None
    else SearchHeaderFrom(s, k + 1)
  }

  function SearchHeader(s: string): Option<(nat, nat)>
  {
    SearchHeaderFrom(s, 0)
  }

  /** The search reports the match at the first position where there is one, and none only when there is none. */
  lemma {:induction false} SearchHeaderFinds(s: string, k: nat)
    requires k <= |s|
    ensures SearchHeaderFrom(s, k).None? <==> forall j :: k <= j <= |s| ==> HeaderAt(s, j).None?
    ensures SearchHeaderFrom(s, k).Some? ==>
      exists j :: k <= j <= |s| && HeaderAt(s, j) == SearchHeaderFrom(s, k) &&
        forall i :: k <= i < j ==> HeaderAt(s, i).None?
    decreases |s| - k
  {
    if HeaderAt(s, k).None? && k < |s| {
      SearchHeaderFinds(s, k + 1);
      if SearchHeaderFrom(s, k).Some? {
        var j :| k + 1 <= j <= |s| && HeaderAt(s, j) == SearchHeaderFrom(s, k + 1) &&
          forall i :: k + 1 <= i < j ==> HeaderAt(s, i).None?;
        assert forall i :: k <= i < j ==> HeaderAt(s, i).None?;
      }
    }
  }

  /** HeaderAt at position 0, once the ends of both runs of digits are known. */
  lemma HeaderAtEnds(s: string, e1: nat, e2: nat)
    requires |HeaderOpen| < e1 < e2 && e2 + 2 <= |s| && s[..|HeaderOpen|] == HeaderOpen
    requires DigitEnd(s, |HeaderOpen|) == e1 && s[e1] == 'x'
    requires DigitEnd(s, e1 + 1) == e2 && e1 + 1 < e2 && s[e2..e2 + 2] == "):"
    ensures HeaderAt(s, 0) == Some((DigitsValue(s[|HeaderOpen|..e1]), DigitsValue(s[e1 + 1..e2])))
  {
  }

  /** The header printSolution writes matches the pattern and gives back its dimensions. */
  lemma HeaderOfDims(w: nat, h: nat, rest: string)
    ensures HeaderAt(HeaderOpen + Itoa(w) + "x" + Itoa(h) + "):" + rest, 0) == Some((w, h))
  {
    var ws, hs := Itoa(w), Itoa(h);
    var tail := "):" + rest;
    var s := HeaderOpen + ws + "x" + hs + "):" + rest;
    var n := |HeaderOpen|;
    var e1 := n + |ws|;
    var e2 := e1 + 1 + |hs|;
    assert s == HeaderOpen + (ws + (['x'] + (hs + tail)));
    ItoaValue(w);
    ItoaValue(h);
    assert s[..n] == HeaderOpen;
    assert s[n..e1] == ws;
    assert s[e1] == 'x';
    assert s[e1 + 1..e2] == hs;
    assert s[e2..e2 + 2] == "):";
    DigitEndAt(s, n, e1);
    DigitEndAt(s, e1 + 1, e2);
    HeaderAtEnds(s, e1, e2);
  }

  // ---------------------------------------------------------------------
  // parse_output
  // ---------------------------------------------------------------------

  /** line.startswith("Puzzle Grid"). */
  predicate StartsWithTitle(line: string)
  {
    |Title| <= |line| && line[..|Title|] == Title
  }

  /** The index of the first line starting with the title, from i on. */
  function TitleLineFrom(lines: seq<string>, i: nat): (r: Option<nat>)
    requires i <= |lines|
    ensures r.Some? ==> i <= r.value < |lines| && StartsWithTitle(lines[r.value])
    ensures r.Some? ==> forall j :: i <= j < r.value ==> !StartsWithTitle(lines[j])
    ensures r.None? ==> forall j :: i <= j < |lines| ==> !StartsWithTitle(lines[j])
    decreases |lines| - i
  {
    if i == |lines| then None
    else if StartsWithTitle(lines[i]) then Some(i)
    else TitleLineFrom(lines, i + 1)
  }

  /** Why parse_output gives up. */
  datatype ParseError = NoDimensions | NoGridStart | Truncated | RowCount(expected: int, found: int)

  /** What parse_output returns: the dimensions and the grid rows, or the error. */
  datatype Parsed = Parsed(w: nat, h: nat, rows: seq<string>)
  datatype ParseResult = Grid(data: Parsed) | ParseFailure(err: ParseError)

  /** The result of parse_output on text, with the title line it finds. */
  function ParsedOutput(text: string): ParseResult
  {
    var lines := SplitLines(PyStrip(text));
    match SearchHeader(text)
    case None => ParseFailure(NoDimensions)
    case Some((w, h)) =>
      match TitleLineFrom(lines, 0)
      case None => ParseFailure(NoGridStart)
      case Some(i) =>
        var start, sy := i + 2, 2 * h + 1;
        if start + sy > |lines| then ParseFailure(Truncated)
        else
          var rows := lines[start..start + sy];
          if |rows| != sy then ParseFailure(RowCount(sy, |rows|)) else Grid(Parsed(w, h, rows))
  }

  /** The loop of parse_output looking for the line the grid follows. */
  method GridStart(lines: seq<string>) returns (startIdx: int)
    ensures TitleLineFrom(lines, 0).None? ==> startIdx == -1
    ensures TitleLineFrom(lines, 0).Some? ==> startIdx == TitleLineFrom(lines, 0).value + 2
  {
    startIdx := -1;
    var i := 0;
    while i < |lines|
      invariant 0 <= i <= |lines|
      invariant TitleLineFrom(lines, 0) == TitleLineFrom(lines, i)
    {
      if StartsWithTitle(lines[i]) {
        startIdx := i + 2;
        break;
      }
      i := i + 1;
    }
  }

  /** parse_output. */
  method ParseOutput(text: string) returns (r: ParseResult)
    ensures r == ParsedOutput(text)
  {
    var lines := SplitLines(PyStrip(text));
    var size := SearchHeader(text);
    if size.None? {
      return ParseFailure(NoDimensions);
    }
    var w, h := size.value.0, size.value.1;
    var startIdx := GridStart(lines);
    if startIdx == -1 {
      return ParseFailure(NoGridStart);
    }
    var sy := 2 * h + 1;
    if startIdx + sy > |lines| {
      return ParseFailure(Truncated);
    }
    var rows := lines[startIdx..startIdx + sy];
    if |rows| != sy {
      return ParseFailure(RowCount(sy, |rows|));
    }
    return Grid(Parsed(w, h, rows));
  }

  /**
   * parse_output's verdicts: no header match, no title line, too few lines
   * after it, or else exactly 2h+1 rows starting two lines after the title
   * line; the row-count error can never be raised.
   */
  lemma ParsedOutputMeans(text: string)
    ensures ParsedOutput(text) == ParseFailure(NoDimensions) <==> SearchHeader(text).None?
    ensures !ParsedOutput(text).ParseFailure? || !ParsedOutput(text).err.RowCount?
    ensures ParsedOutput(text).Grid? ==>
      var d, lines := ParsedOutput(text).data, SplitLines(PyStrip(text));
      SearchHeader(text) == Some((d.w, d.h)) && TitleLineFrom(lines, 0).Some? &&
      |d.rows| == 2 * d.h + 1 &&
      forall k :: 0 <= k < |d.rows| ==> d.rows[k] == lines[TitleLineFrom(lines, 0).value + 2 + k]
  {
  }

  /** `"No solution found" in text`. */
  predicate SaysNoSolution(text: string)
  {
    FindSubFrom(text, "No solution found", 0).Some?
  }
}
