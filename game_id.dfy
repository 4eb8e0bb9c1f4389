/**
 * The puzzle descriptor "WxH:<data>" and its three decoders: fromGameId of
 * the C++ solvers, parse_game_id of the C solvers and decode_puzzle of the
 * Python decoder, together with the encoder of the generator.
 *
 * <data> runs row-major over the (2W+1) x (2H+1) internal grid: 'M' puts a
 * white dot at the current position and 'B' a black one, each advancing the
 * position by one; 'a'..'z' skip 1..26 cells; every other character is
 * ignored.
 */
module GameId {

  import opened Tiles

  const IntMin: int := -0x8000_0000
  const IntMax: int := 0x7fff_ffff

  /** dots[MAX_DOTS] of the C puzzle record (solver/seq_solver.c). */
  const MaxDots: int := 100

  // ---------------------------------------------------------------------
  // The data part: positions of the dots
  // ---------------------------------------------------------------------

  predicate IsDotChar(c: char)
  {
    c == 'M' || c == 'B'
  }

  /** How far one character moves the position counter. */
  function Step(c: char): (n: nat)
    ensures n <= 26
    ensures n > 0 <==> IsDotChar(c) || 'a' <= c <= 'z'
  {
    if IsDotChar(c) then 1
    else if 'a' <= c <= 'z' then c as int - 'a' as int + 1
    else 0
  }

  /** The position counter after the whole of data. */
  function Advance(data: string): nat
  {
    if data == [] then 0 else Advance(data[..|data| - 1]) + Step(data[|data| - 1])
  }

  /** The number of dot characters in data. */
  function DotCount(data: string): nat
  {
    if data == [] then 0
    else DotCount(data[..|data| - 1]) + if IsDotChar(data[|data| - 1]) then 1 else 0
  }

  /** The linear position and colour (black iff 'B') of every dot, in order. */
  function DotPositions(data: string): seq<(int, bool)>
  {
    if data == [] then []
    else
      var init := data[..|data| - 1];
      var c := data[|data| - 1];
      if IsDotChar(c) then DotPositions(init) + [(Advance(init), c == 'B')] else DotPositions(init)
  }

  /**
   * One dot per dot character, at positions that lie below the total
   * advance and strictly increase.
   */
  lemma {:induction false} DotPositionsShape(data: string)
    ensures |DotPositions(data)| == DotCount(data)
    ensures forall i :: 0 <= i < |DotPositions(data)| ==> 0 <= DotPositions(data)[i].0 < Advance(data)
    ensures forall i, j :: 0 <= i < j < |DotPositions(data)| ==> DotPositions(data)[i].0 < DotPositions(data)[j].0
    decreases |data|
  {
    if data != [] {
      DotPositionsShape(data[..|data| - 1]);
    }
  }

  /** Dropping the last character of a + b, with b non-empty, drops it from b. */
  lemma InitOfAppend<T>(a: seq<T>, b: seq<T>)
    requires b != []
    ensures (a + b)[..|a + b| - 1] == a + b[..|b| - 1]
    ensures (a + b)[|a + b| - 1] == b[|b| - 1]
  {
  }

  lemma {:induction false} AdvanceAppend(a: string, b: string)
    ensures Advance(a + b) == Advance(a) + Advance(b)
    decreases |b|
  {
    if b == [] {
      assert a + b == a;
    } else {
      InitOfAppend(a, b);
      AdvanceAppend(a, b[..|b| - 1]);
    }
  }

  /** The positions ps moved on by k. */
  function Shift(ps: seq<(int, bool)>, k: int): (r: seq<(int, bool)>)
    ensures |r| == |ps| && forall i :: 0 <= i < |ps| ==> r[i] == (ps[i].0 + k, ps[i].1)
  {
    seq(|ps|, i requires 0 <= i < |ps| => (ps[i].0 + k, ps[i].1))
  }

  /** Decoding a + b decodes a, then b from where a left the counter. */
  lemma {:induction false} DotPositionsAppend(a: string, b: string)
    ensures DotPositions(a + b) == DotPositions(a) + Shift(DotPositions(b), Advance(a))
    decreases |b|
  {
    if b == [] {
      assert a + b == a;
    } else {
      var b' := b[..|b| - 1];
      InitOfAppend(a, b);
      DotPositionsAppend(a, b');
      AdvanceAppend(a, b');
    }
  }

  // ---------------------------------------------------------------------
  // Integer division as the three languages compute it
  // ---------------------------------------------------------------------

  /** C's / : the quotient truncated toward zero. */
  function CQuot(a: int, b: int): int
    requires b != 0
  {
    var q := Abs(a) / Abs(b);
    if (a < 0) == (b < 0) then q else -q
  }

  /** C's % : the remainder that goes with CQuot. */
  function CRem(a: int, b: int): int
    requires b != 0
  {
    a - b * CQuot(a, b)
  }

  /** The dots at positions ps on an internal grid sx cells wide, with C's / and %. */
  function CDots(ps: seq<(int, bool)>, sx: int): (r: seq<Dot>)
    requires sx != 0
    ensures |r| == |ps|
  {
    seq(|ps|, i requires 0 <= i < |ps| => Dot(CRem(ps[i].0, sx), CQuot(ps[i].0, sx), ps[i].1))
  }

  /** The same with Python's // and %. */
  function PyDots(ps: seq<(int, bool)>, sx: int): (r: seq<Dot>)
    requires sx != 0
    ensures |r| == |ps|
  {
    seq(|ps|, i requires 0 <= i < |ps| => Dot(PyMod(ps[i].0, sx), PyDiv(ps[i].0, sx), ps[i].1))
  }

  /** The dots at positions ps, row-major on rows of sx cells. */
  function GridDots(ps: seq<(int, bool)>, sx: int): (r: seq<Dot>)
    requires sx > 0
    ensures |r| == |ps|
  {
    seq(|ps|, i requires 0 <= i < |ps| => Dot(ps[i].0 % sx, ps[i].0 / sx, ps[i].1))
  }

  /** On a grid of positive width, at non-negative positions, C and Python place every dot alike. */
  lemma DivisionsAgree(ps: seq<(int, bool)>, sx: int)
    requires sx > 0 && forall i :: 0 <= i < |ps| ==> ps[i].0 >= 0
    ensures CDots(ps, sx) == GridDots(ps, sx) && PyDots(ps, sx) == GridDots(ps, sx)
  {
    forall i | 0 <= i < |ps| ensures CDots(ps, sx)[i] == GridDots(ps, sx)[i] {
      var a := ps[i].0;
      assert CQuot(a, sx) == a / sx;
    }
  }

  /** A negative quotient is truncated by C but floored by Python: position 1 on a width -1 grid. */
  lemma DivisionsDiffer()
    ensures CDots([(1, false)], -2) != PyDots([(1, false)], -2)
  {
    assert CQuot(1, -2) == 0;
    assert PyDiv(1, -2) == -1;
    assert CDots([(1, false)], -2)[0].y != PyDots([(1, false)], -2)[0].y;
  }

  // ---------------------------------------------------------------------
  // The decoding loops
  // ---------------------------------------------------------------------

  /**
   * The loop of fromGameId and parse_game_id: each dot character appends
   * (pos % sx, pos / sx) in C's arithmetic and moves pos on by one, a letter
   * moves pos on by its rank, anything else is skipped.
   */
  method DecodeC(data: string, sx: int) returns (dots: seq<Dot>)
    requires sx != 0
    ensures dots == CDots(DotPositions(data), sx)
    ensures |dots| == DotCount(data)
  {
    dots := [];
    var pos := 0;
    var i := 0;
    while i < |data|
      invariant 0 <= i <= |data|
      invariant pos == Advance(data[..i])
      invariant dots == CDots(DotPositions(data[..i]), sx)
    {
      var c := data[i];
      assert data[..i + 1][..i] == data[..i];
      if c == 'M' {
        dots := dots + [Dot(CRem(pos, sx), CQuot(pos, sx), false)];
        pos := pos + 1;
      } else if c == 'B' {
        dots := dots + [Dot(CRem(pos, sx), CQuot(pos, sx), true)];
        pos := pos + 1;
      } else if 'a' <= c <= 'z' {
        pos := pos + (c as int - 'a' as int + 1);
      }
      i := i + 1;
    }
    assert data[..|data|] == data;
    DotPositionsShape(data);
  }

  /** The loop of decode_puzzle: the same, with Python's // and %. */
  method DecodePy(data: string, sx: int) returns (dots: seq<Dot>)
    requires sx != 0
    ensures dots == PyDots(DotPositions(data), sx)
    ensures |dots| == DotCount(data)
  {
    dots := [];
    var pos := 0;
    var i := 0;
    while i < |data|
      invariant 0 <= i <= |data|
      invariant pos == Advance(data[..i])
      invariant dots == PyDots(DotPositions(data[..i]), sx)
    {
      var c := data[i];
      assert data[..i + 1][..i] == data[..i];
      if c == 'M' {
        dots := dots + [Dot(PyMod(pos, sx), PyDiv(pos, sx), false)];
        pos := pos + 1;
      } else if c == 'B' {
        dots := dots + [Dot(PyMod(pos, sx), PyDiv(pos, sx), true)];
        pos := pos + 1;
      } else if 'a' <= c <= 'z' {
        pos := pos + Step(c);
      }
      i := i + 1;
    }
    assert data[..|data|] == data;
    DotPositionsShape(data);
  }

  // ---------------------------------------------------------------------
  // Searching strings
  // ---------------------------------------------------------------------

  /** string::find / strchr: the first index of c at or after i. */
  function FindFrom(s: string, c: char, i: nat): (r: Option<nat>)
    ensures r.Some? ==> i <= r.value < |s| && s[r.value] == c
    decreases |s| - i
  {
    if i >= |s| then None else if s[i] == c then Some(i) else FindFrom(s, c, i + 1)
  }

  function Find(s: string, c: char): Option<nat>
  {
    FindFrom(s, c, 0)
  }

  /** The first occurrence of c is at k exactly when c occurs at k and not before. */
  /** The search finds the first occurrence, and finds none only when there is none. */
  lemma {:induction false} FindFromFirst(s: string, c: char, i: nat)
    ensures FindFrom(s, c, i).Some? ==> forall k :: i <= k < FindFrom(s, c, i).value ==> s[k] != c
    ensures FindFrom(s, c, i).None? ==> forall k :: i <= k < |s| ==> s[k] != c
    decreases |s| - i
  {
    if i < |s| && s[i] != c {
      FindFromFirst(s, c, i + 1);
    }
  }

  lemma {:induction false} FindFromAt(s: string, c: char, i: nat, k: nat)
    requires i <= k < |s| && s[k] == c && forall j :: i <= j < k ==> s[j] != c
    ensures FindFrom(s, c, i) == Some(k)
    decreases k - i
  {
    if i < k {
      FindFromAt(s, c, i + 1, k);
    }
  }

  /** The first occurrence of c is at k exactly when c occurs at k and not before. */
  lemma FindAt(s: string, c: char, k: nat)
    requires k < |s| && s[k] == c && forall j :: 0 <= j < k ==> s[j] != c
    ensures Find(s, c) == Some(k)
  {
    FindFromAt(s, c, 0, k);
  }

  /** pat occurs in s starting at index k. */
  predicate MatchesAt(s: string, pat: string, k: int)
  {
    0 <= k && k + |pat| <= |s| && s[k..k + |pat|] == pat
  }

  /** string::find / strstr for a pattern: the first index at or after i where pat starts. */
  function FindSubFrom(s: string, pat: string, i: nat): (r: Option<nat>)
    ensures r.Some? ==> i <= r.value && MatchesAt(s, pat, r.value)
    ensures r.Some? ==> forall k :: i <= k < r.value ==> !MatchesAt(s, pat, k)
    ensures r.None? ==> forall k :: i <= k ==> !MatchesAt(s, pat, k)
    decreases |s| - i
  {
    if i + |pat| > |s| then None
    else if s[i..i + |pat|] == pat then Some(i)
    else FindSubFrom(s, pat, i + 1)
  }

  /** The number of occurrences of c in s. */
  function Occurrences(s: string, c: char): nat
  {
    if s == [] then 0 else Occurrences(s[..|s| - 1], c) + if s[|s| - 1] == c then 1 else 0
  }

  /**
   * Python's `a, b = s.split(c)`: it unpacks only when c occurs exactly
   * once, into the text before and after it; otherwise it raises.
   */
  function SplitPair(s: string, c: char): Option<(string, string)>
  {
    if Occurrences(s, c) != 1 then None
    else match Find(s, c)
      case None => None
      case Some(k) => Some((s[..k], s[k + 1..]))
  }

  lemma {:induction false} OccurrencesAppend(a: string, b: string, c: char)
    ensures Occurrences(a + b, c) == Occurrences(a, c) + Occurrences(b, c)
    decreases |b|
  {
    if b == [] {
      assert a + b == a;
    } else {
      InitOfAppend(a, b);
      OccurrencesAppend(a, b[..|b| - 1], c);
    }
  }

  lemma {:induction false} OccurrencesNone(s: string, c: char)
    requires forall i :: 0 <= i < |s| ==> s[i] != c
    ensures Occurrences(s, c) == 0
    decreases |s|
  {
    if s != [] {
      OccurrencesNone(s[..|s| - 1], c);
    }
  }

  /** Splitting a + [c] + b where neither side holds c gives back the two sides. */
  lemma SplitPairOf(a: string, c: char, b: string)
    requires forall i :: 0 <= i < |a| ==> a[i] != c
    requires forall i :: 0 <= i < |b| ==> b[i] != c
    ensures SplitPair(a + [c] + b, c) == Some((a, b))
  {
    var s := a + [c] + b;
    OccurrencesAppend(a + [c], b, c);
    OccurrencesAppend(a, [c], c);
    OccurrencesNone(a, c);
    OccurrencesNone(b, c);
    assert [c][..0] == [];
    FindAt(s, c, |a|);
    assert s[..|a|] == a && s[|a| + 1..] == b;
  }

  // ---------------------------------------------------------------------
  // Reading integers
  // ---------------------------------------------------------------------

  predicate IsDigit(c: char)
  {
    '0' <= c <= '9'
  }

  predicate AllDigits(s: string)
  {
    forall i :: 0 <= i < |s| ==> IsDigit(s[i])
  }

  /** The value of a string of decimal digits. */
  function DigitsValue(s: string): nat
  {
    if s == [] then 0
    else DigitsValue(s[..|s| - 1]) * 10 + if IsDigit(s[|s| - 1]) then s[|s| - 1] as int - '0' as int else 0
  }

  /** isspace in the C locale: space, \t, \n, \v, \f and \r. */
  predicate IsCSpace(c: char)
  {
    c == ' ' || 9 <= c as int <= 13
  }

  function SkipCSpaces(s: string, i: nat): (r: nat)
    requires i <= |s|
    ensures i <= r <= |s|
    ensures r < |s| ==> !IsCSpace(s[r])
    decreases |s| - i
  {
    if i < |s| && IsCSpace(s[i]) then SkipCSpaces(s, i + 1) else i
  }

  /** The end of the run of digits starting at i. */
  function DigitEnd(s: string, i: nat): (r: nat)
    requires i <= |s|
    ensures i <= r <= |s|
    ensures r < |s| ==> !IsDigit(s[r])
    decreases |s| - i
  {
    if i < |s| && IsDigit(s[i]) then DigitEnd(s, i + 1) else i
  }

  /**
   * strtol-style scanning from index i, as both %d and std::stoi do: skip
   * white space, take an optional sign, then at least one digit.  Gives the
   * value and the index just after the last digit.
   */
  function ScanInt(s: string, i: nat): (r: Option<(int, nat)>)
    requires i <= |s|
    ensures r.Some? ==> i < r.value.1 <= |s|
    ensures r.Some? ==> r.value.1 == |s| || !IsDigit(s[r.value.1])
  {
    var j := SkipCSpaces(s, i);
    var neg := j < |s| && s[j] == '-';
    var k := if j < |s| && (s[j] == '+' || s[j] == '-') then j + 1 else j;
    var e := DigitEnd(s, k);
    if e == k then None
    else
      var v: int := DigitsValue(s[k..e]);
      Some((if neg then -v else v, e))
  }

  /**
   * std::stoi: the scanned value, or nothing when there is no digit
   * (invalid_argument) or the value does not fit an int (out_of_range).
   * Text after the digits is ignored.
   */
  function Stoi(s: string): (r: Option<int>)
    ensures r.Some? ==> IntMin <= r.value <= IntMax
  {
    match ScanInt(s, 0)
    case None => None
    case Some((v, _)) => if IntMin <= v <= IntMax then Some(v) else None
  }

  /**
   * sscanf(s, "%dx%d", &w, &h) == 2: an integer, the character 'x' right
   * after its last digit, and a second integer.
   */
  function ScanDims(s: string): Option<(int, int)>
  {
    match ScanInt(s, 0)
    case None => None
    case Some((w, k)) =>
      if k < |s| && s[k] == 'x' then
        match ScanInt(s, k + 1)
        case None => None
        case Some((h, _)) => Some((w, h))
      else None
  }

  /** Python's str.isspace, as str.strip and int() apply it. */
  predicate IsPySpace(c: char)
  {
    var n := c as int;
    (9 <= n <= 13) || (28 <= n <= 32) || n == 0x85 || n == 0xa0 || n == 0x1680 ||
    (0x2000 <= n <= 0x200a) || n == 0x2028 || n == 0x2029 || n == 0x202f || n == 0x205f || n == 0x3000
  }

  /** s without its leading and trailing white space. */
  function PyStrip(s: string): (r: string)
    ensures |r| <= |s|
    ensures r != [] ==> !IsPySpace(r[0]) && !IsPySpace(r[|r| - 1])
    decreases |s|
  {
    if s != [] && IsPySpace(s[0]) then PyStrip(s[1..])
    else if s != [] && IsPySpace(s[|s| - 1]) then PyStrip(s[..|s| - 1])
    else s
  }

  /** The stripped text is a slice of s, and everything outside the slice is white space. */
  lemma {:induction false} PyStripSlice(s: string) returns (a: nat, b: nat)
    ensures a <= b <= |s| && PyStrip(s) == s[a..b]
    ensures forall j :: 0 <= j < a ==> IsPySpace(s[j])
    ensures forall j :: b <= j < |s| ==> IsPySpace(s[j])
    decreases |s|
  {
    if s != [] && IsPySpace(s[0]) {
      var a', b' := PyStripSlice(s[1..]);
      a, b := a' + 1, b' + 1;
      assert s[1..][a'..b'] == s[a..b];
      forall j | 0 <= j < a ensures IsPySpace(s[j]) {
        if j > 0 {
          assert s[j] == s[1..][j - 1];
        }
      }
      assert forall j :: b <= j < |s| ==> s[j] == s[1..][j - 1];
    } else if s != [] && IsPySpace(s[|s| - 1]) {
      var t := s[..|s| - 1];
      a, b := PyStripSlice(t);
      assert t[a..b] == s[a..b];
      assert t[0] == s[0];
      assert a == 0;
      forall j | b <= j < |s| ensures IsPySpace(s[j]) {
        if j < |s| - 1 {
          assert s[j] == t[j];
        }
      }
    } else {
      a, b := 0, |s|;
    }
  }

  /** Digits with single underscores between them, as int() of a string accepts. */
  predicate PyDigits(s: string)
  {
    |s| > 0 && IsDigit(s[0]) && IsDigit(s[|s| - 1]) &&
    (forall i :: 0 <= i < |s| ==> IsDigit(s[i]) || s[i] == '_') &&
    forall i :: 0 <= i < |s| - 1 ==> !(s[i] == '_' && s[i + 1] == '_')
  }

  function WithoutUnderscores(s: string): (r: string)
    ensures |r| <= |s|
  {
    if s == [] then []
    else WithoutUnderscores(s[..|s| - 1]) + if s[|s| - 1] == '_' then [] else [s[|s| - 1]]
  }

  /** int(s) in base 10; nothing where int() raises ValueError. */
  function PyInt(s: string): Option<int>
  {
    var t := PyStrip(s);
    var neg := |t| > 0 && t[0] == '-';
    var body := if |t| > 0 && (t[0] == '+' || t[0] == '-') then t[1..] else t;
    if !PyDigits(body) then None
    else
      var v: int := DigitsValue(WithoutUnderscores(body));
      Some(if neg then -v else v)
  }

  // ---------------------------------------------------------------------
  // The three parsers
  // ---------------------------------------------------------------------

  /**
   * What fromGameId computes: nothing without a ':', without an 'x' before the
   * first ':', or when either dimension fails std::stoi; otherwise the
   * dimensions, sx = 2w+1, sy = 2h+1 and the dots of the data after the colon.
   */
  function ParseCpp(s: string): Option<Puzzle>
  {
    match Find(s, ':')
    case None => None
    case Some(colon) =>
      match Find(s, 'x')
      case None => None
      case Some(xpos) =>
        if xpos > colon then None
        else
          var w := Stoi(s[..xpos]);
          var h := Stoi(s[xpos + 1..colon]);
          if w.None? || h.None? then None
          else
            var sx := 2 * w.value + 1;
            Some(Puzzle(w.value, h.value, sx, 2 * h.value + 1, CDots(DotPositions(s[colon + 1..]), sx)))
  }

  method FromGameId(s: string) returns (r: Option<Puzzle>)
    ensures r == ParseCpp(s)
  {
    var colon := Find(s, ':');
    if colon.None? {
      return None;
    }
    var xpos := Find(s, 'x');
    if xpos.None? || xpos.value > colon.value {
      return None;
    }
    var w := Stoi(s[..xpos.value]);
    var h := Stoi(s[xpos.value + 1..colon.value]);
    if w.None? || h.None? {
      return None;
    }
    var sx := 2 * w.value + 1;
    var dots := DecodeC(s[colon.value + 1..], sx);
    r := Some(Puzzle(w.value, h.value, sx, 2 * h.value + 1, dots));
  }

  /** The text after the first ':', where parse_game_id decodes dots. */
  function DataPart(s: string): string
  {
    match Find(s, ':')
    case None => []
    case Some(colon) => s[colon + 1..]
  }

  /**
   * What parse_game_id computes: nothing without a ':' or when sscanf does not
   * read both dimensions; sscanf starts at the beginning of the string and
   * does not look for the colon.
   */
  function ParseC(s: string): Option<Puzzle>
  {
    match Find(s, ':')
    case None => None
    case Some(colon) =>
      match ScanDims(s)
      case None => None
      case Some((w, h)) =>
        var sx := 2 * w + 1;
        Some(Puzzle(w, h, sx, 2 * h + 1, CDots(DotPositions(s[colon + 1..]), sx)))
  }

  /** parse_game_id writes the dots into dots[MAX_DOTS] without checking the count. */
  method ParseGameId(s: string) returns (r: Option<Puzzle>)
    requires DotCount(DataPart(s)) <= MaxDots
    ensures r == ParseC(s)
    ensures r.Some? ==> |r.value.dots| <= MaxDots
  {
    var colon := Find(s, ':');
    if colon.None? {
      return None;
    }
    var dims := ScanDims(s);
    if dims.None? {
      return None;
    }
    var w, h := dims.value.0, dims.value.1;
    var sx := 2 * w + 1;
    var dots := DecodeC(s[colon.value + 1..], sx);
    r := Some(Puzzle(w, h, sx, 2 * h + 1, dots));
  }

  /**
   * What decode_puzzle computes: nothing where it raises (not exactly one
   * ':', not exactly one 'x' before it, or a dimension int() rejects),
   * otherwise (w, h, dots) with Python's // and %.
   */
  function ParsePy(s: string): Option<(int, int, seq<Dot>)>
  {
    match SplitPair(s, ':')
    case None => None
    case Some((dims, data)) =>
      match PyDims(dims)
      case None => None
      case Some((w, h)) => Some((w, h, PyDots(DotPositions(data), 2 * w + 1)))
  }

  /** `w, h = map(int, dims.split('x'))`. */
  function PyDims(dims: string): Option<(int, int)>
  {
    match SplitPair(dims, 'x')
    case None => None
    case Some((ws, hs)) =>
      var w := PyInt(ws);
      var h := PyInt(hs);
      if w.None? || h.None? then None else Some((w.value, h.value))
  }

  method DecodePuzzle(s: string) returns (r: Option<(int, int, seq<Dot>)>)
    ensures r == ParsePy(s)
  {
    var parts := SplitPair(s, ':');
    if parts.None? {
      return None;
    }
    var dims := PyDims(parts.value.0);
    if dims.None? {
      return None;
    }
    var w, h := dims.value.0, dims.value.1;
    var dots := DecodePy(parts.value.1, 2 * w + 1);
    r := Some((w, h, dots));
  }

  /**
   * The choice of descriptor in main: the text after the first "Game ID: "
   * when there is one, else the whole line when it holds a ':', else nothing.
   */
  function SelectGameId(line: string): (r: Option<string>)
    ensures r.Some? ==> |r.value| <= |line|
  {
    match FindSubFrom(line, "Game ID: ", 0)
    case Some(i) => Some(line[i + 9..])
    case None => if Find(line, ':').Some? then Some(line) else None
  }

  // ---------------------------------------------------------------------
  // The encoder of the generator
  // ---------------------------------------------------------------------

  /** One internal cell as encode_game sees it. */
  datatype Cell = Blank | DotCell(black: bool)

  /** A run of n skipped cells: 'z' for each full 26, then the letter of the rest. */
  function RunChars(n: nat): string
    decreases n
  {
    if n == 0 then []
    else if n > 26 then "z" + RunChars(n - 26)
    else [('a' as int + n - 1) as char]
  }

  function Glyph(c: Cell): char
    requires c.DotCell?
  {
    if c.black then 'B' else 'M'
  }

  /**
   * The output written and the run pending after encode_game has scanned
   * cells: a dot flushes the pending run and writes its letter, a blank cell
   * lengthens the run.
   */
  function EncodeState(cells: seq<Cell>): (string, nat)
  {
    if cells == [] then ([], 0)
    else
      var prev := EncodeState(cells[..|cells| - 1]);
      var c := cells[|cells| - 1];
      if c.DotCell? then (prev.0 + RunChars(prev.1) + [Glyph(c)], 0) else (prev.0, prev.1 + 1)
  }

  /** The descriptor data of cells in row-major order: the output with the final run flushed. */
  function Encode(cells: seq<Cell>): string
  {
    EncodeState(cells).0 + RunChars(EncodeState(cells).1)
  }

  /** The index and colour of every dot cell, in order. */
  function DotsOf(cells: seq<Cell>): seq<(int, bool)>
  {
    if cells == [] then []
    else
      var c := cells[|cells| - 1];
      var prev := DotsOf(cells[..|cells| - 1]);
      if c.DotCell? then prev + [(|cells| - 1, c.black)] else prev
  }

  /** A run encodes exactly n skipped cells, with letters only. */
  lemma {:induction false} RunCharsFacts(n: nat)
    ensures Advance(RunChars(n)) == n && DotPositions(RunChars(n)) == []
    ensures forall i :: 0 <= i < |RunChars(n)| ==> 'a' <= RunChars(n)[i] <= 'z'
    decreases n
  {
    if n > 26 {
      RunCharsFacts(n - 26);
      AdvanceAppend("z", RunChars(n - 26));
      DotPositionsAppend("z", RunChars(n - 26));
      assert "z"[..0] == [];
    } else if n > 0 {
      assert RunChars(n)[..0] == [];
    }
  }

  lemma {:induction false} EncodeStateFacts(cells: seq<Cell>)
    ensures var st := EncodeState(cells);
            DotPositions(st.0) == DotsOf(cells) && Advance(st.0) + st.1 == |cells| &&
            forall i :: 0 <= i < |st.0| ==> IsDotChar(st.0[i]) || 'a' <= st.0[i] <= 'z'
    decreases |cells|
  {
    if cells != [] {
      var init := cells[..|cells| - 1];
      EncodeStateFacts(init);
      var prev := EncodeState(init);
      var c := cells[|cells| - 1];
      if c.DotCell? {
        var run := prev.0 + RunChars(prev.1);
        RunCharsFacts(prev.1);
        AdvanceAppend(prev.0, RunChars(prev.1));
        DotPositionsAppend(prev.0, RunChars(prev.1));
        assert run + [Glyph(c)] == EncodeState(cells).0;
        assert (run + [Glyph(c)])[..|run|] == run;
      }
    }
  }

  /**
   * The round trip of the data part: decoding the encoding of cells gives
   * exactly the dot cells, in row-major order with their colours, and the
   * position counter ends at the number of cells.  The encoding is made of
   * dot letters and skip letters only.
   */
  lemma EncodeRoundTrip(cells: seq<Cell>)
    ensures DotPositions(Encode(cells)) == DotsOf(cells)
    ensures Advance(Encode(cells)) == |cells|
    ensures forall i :: 0 <= i < |Encode(cells)| ==> IsDotChar(Encode(cells)[i]) || 'a' <= Encode(cells)[i] <= 'z'
  {
    var st := EncodeState(cells);
    var run := RunChars(st.1);
    var e := st.0 + run;
    assert e == Encode(cells);
    EncodeStateFacts(cells);
    RunCharsFacts(st.1);
    AdvanceAppend(st.0, run);
    DotPositionsAppend(st.0, run);
    assert DotPositions(e) == DotPositions(st.0) + [];
    forall i | 0 <= i < |e| ensures IsDotChar(e[i]) || 'a' <= e[i] <= 'z' {
      if i < |st.0| {
        assert e[i] == st.0[i];
      } else {
        assert e[i] == run[i - |st.0|];
      }
    }
  }

  // ---------------------------------------------------------------------
  // The generator's "Game ID:" line read back by every parser
  // ---------------------------------------------------------------------

  function DigitChar(d: int): char
    requires 0 <= d < 10
  {
    ('0' as int + d) as char
  }

  /** printf's %d of a non-negative number. */
  function Itoa(n: nat): (r: string)
    ensures |r| > 0
  {
    if n < 10 then [DigitChar(n)] else Itoa(n / 10) + [DigitChar(n % 10)]
  }

  lemma {:induction false} ItoaValue(n: nat)
    ensures AllDigits(Itoa(n)) && DigitsValue(Itoa(n)) == n
    decreases n
  {
    if n >= 10 {
      ItoaValue(n / 10);
      assert Itoa(n)[..|Itoa(n)| - 1] == Itoa(n / 10);
    } else {
      assert Itoa(n)[..0] == [];
    }
  }

  /** "WxH:<data>" with the dimensions written as ws and hs. */
  function Descriptor(ws: string, hs: string, data: string): string
  {
    ws + "x" + hs + ":" + data
  }

  /** The line main of the generator prints for one puzzle. */
  function GameIdLine(w: nat, h: nat, data: string): string
  {
    "Game ID: " + Descriptor(Itoa(w), Itoa(h), data)
  }

  lemma SelectGeneratedLine(w: nat, h: nat, data: string)
    ensures SelectGameId(GameIdLine(w, h, data)) == Some(Descriptor(Itoa(w), Itoa(h), data))
  {
    var line := GameIdLine(w, h, data);
    assert line[0..9] == "Game ID: ";
    assert line[9..] == Descriptor(Itoa(w), Itoa(h), data);
  }

  /** Scanning a digit string followed by a non-digit gives its value and stops at the non-digit. */
  lemma ScanDigits(s: string, i: nat, d: string)
    requires i + |d| <= |s| && s[i..i + |d|] == d && |d| > 0 && AllDigits(d)
    requires i + |d| == |s| || !IsDigit(s[i + |d|])
    ensures ScanInt(s, i) == Some((DigitsValue(d), i + |d|))
  {
    assert s[i] == d[0];
    forall k | i <= k < i + |d| ensures IsDigit(s[k]) {
      assert s[k] == d[k - i];
    }
    DigitEndAt(s, i, i + |d|);
  }

  lemma {:induction false} DigitEndAt(s: string, i: nat, e: nat)
    requires i <= e <= |s| && (forall k :: i <= k < e ==> IsDigit(s[k])) && (e == |s| || !IsDigit(s[e]))
    ensures DigitEnd(s, i) == e
    decreases e - i
  {
    if i < e {
      DigitEndAt(s, i + 1, e);
    }
  }

  /** A dimension as %d prints it: a non-empty string of digits. */
  predicate Numeral(d: string)
  {
    |d| > 0 && AllDigits(d)
  }

  /** Where the separators of Descriptor(ws, hs, data) are, when the data holds no ':'. */
  lemma DescriptorLayout(ws: string, hs: string, data: string)
    requires Numeral(ws) && Numeral(hs)
    requires forall j :: 0 <= j < |data| ==> data[j] != ':'
    ensures var s, xpos, colon := Descriptor(ws, hs, data), |ws|, |ws| + 1 + |hs|;
            Find(s, 'x') == Some(xpos) && Find(s, ':') == Some(colon) &&
            s[..xpos] == ws && s[xpos + 1..colon] == hs && s[colon + 1..] == data
  {
    var s := Descriptor(ws, hs, data);
    var xpos, colon := |ws|, |ws| + 1 + |hs|;
    assert s[xpos] == 'x' && s[colon] == ':';
    forall j | 0 <= j < xpos ensures s[j] != 'x' && s[j] != ':' {
      assert s[j] == ws[j];
    }
    forall j | xpos < j < colon ensures s[j] != ':' {
      assert s[j] == hs[j - xpos - 1];
    }
    FindAt(s, ':', colon);
    FindAt(s, 'x', xpos);
    assert s[..xpos] == ws && s[xpos + 1..colon] == hs && s[colon + 1..] == data;
  }

  /** std::stoi of a numeral in range is its value. */
  lemma StoiNumeral(d: string)
    requires Numeral(d) && DigitsValue(d) <= IntMax
    ensures Stoi(d) == Some(DigitsValue(d))
  {
    ScanDigits(d, 0, d);
    assert d[0..|d|] == d;
  }

  /** The data of an encoding holds no ':', and its dots lie at non-negative positions. */
  lemma EncodedData(cells: seq<Cell>)
    ensures forall j :: 0 <= j < |Encode(cells)| ==> Encode(cells)[j] != ':'
    ensures forall i :: 0 <= i < |DotsOf(cells)| ==> DotsOf(cells)[i].0 >= 0
  {
    EncodeRoundTrip(cells);
    DotPositionsShape(Encode(cells));
  }

  /** The puzzle a w x h descriptor describes: its internal grid is (2w+1) x (2h+1). */
  function DescribedPuzzle(w: int, h: int, dots: seq<Dot>): Puzzle
  {
    Puzzle(w, h, 2 * w + 1, 2 * h + 1, dots)
  }

  /** What ParseCpp makes of a string once its separators, dimensions and data are known. */
  lemma ParseCppOf(s: string, data: string, colon: nat, xpos: nat, w: int, h: int)
    requires Find(s, ':') == Some(colon) && Find(s, 'x') == Some(xpos) && xpos <= colon
    requires Stoi(s[..xpos]) == Some(w) && Stoi(s[xpos + 1..colon]) == Some(h)
    requires s[colon + 1..] == data
    ensures ParseCpp(s) == Some(DescribedPuzzle(w, h, CDots(DotPositions(data), 2 * w + 1)))
  {
  }

  /** std::stoi reads both numerals of a descriptor. */
  lemma StoiDims(ws: string, hs: string, data: string, w: int, h: int)
    requires Numeral(ws) && Numeral(hs) && w == DigitsValue(ws) <= IntMax && h == DigitsValue(hs) <= IntMax
    requires forall j :: 0 <= j < |data| ==> data[j] != ':'
    ensures var s := Descriptor(ws, hs, data);
            Stoi(s[..|ws|]) == Some(w) && Stoi(s[|ws| + 1..|ws| + 1 + |hs|]) == Some(h)
  {
    DescriptorLayout(ws, hs, data);
    StoiNumeral(ws);
    StoiNumeral(hs);
  }

  /** fromGameId reads a descriptor made of the numerals of w and h and data without ':'. */
  lemma CppReads(ws: string, hs: string, data: string, w: int, h: int)
    requires Numeral(ws) && Numeral(hs) && w == DigitsValue(ws) <= IntMax && h == DigitsValue(hs) <= IntMax
    requires forall j :: 0 <= j < |data| ==> data[j] != ':'
    ensures ParseCpp(Descriptor(ws, hs, data)) == Some(DescribedPuzzle(w, h, CDots(DotPositions(data), 2 * w + 1)))
  {
    DescriptorLayout(ws, hs, data);
    StoiDims(ws, hs, data, w, h);
    ParseCppOf(Descriptor(ws, hs, data), data, |ws| + 1 + |hs|, |ws|, w, h);
  }

  /** What ParseC makes of a string once its colon, dimensions and data are known. */
  lemma ParseCOf(s: string, data: string, colon: nat, w: int, h: int)
    requires Find(s, ':') == Some(colon) && ScanDims(s) == Some((w, h)) && s[colon + 1..] == data
    ensures ParseC(s) == Some(DescribedPuzzle(w, h, CDots(DotPositions(data), 2 * w + 1)))
  {
  }

  /** sscanf's "%dx%d" reads both numerals of a descriptor. */
  lemma ScanDimsOf(ws: string, hs: string, data: string)
    requires Numeral(ws) && Numeral(hs)
    ensures ScanDims(Descriptor(ws, hs, data)) == Some((DigitsValue(ws), DigitsValue(hs)))
  {
    var s := Descriptor(ws, hs, data);
    assert s[0..|ws|] == ws && s[|ws|] == 'x';
    assert s[|ws| + 1..|ws| + 1 + |hs|] == hs && s[|ws| + 1 + |hs|] == ':';
    ScanDigits(s, 0, ws);
    ScanDigits(s, |ws| + 1, hs);
  }

  /** parse_game_id reads a descriptor made of the numerals of w and h and data without ':'. */
  lemma CReads(ws: string, hs: string, data: string, w: int, h: int)
    requires Numeral(ws) && Numeral(hs) && w == DigitsValue(ws) && h == DigitsValue(hs)
    requires forall j :: 0 <= j < |data| ==> data[j] != ':'
    ensures ParseC(Descriptor(ws, hs, data)) == Some(DescribedPuzzle(w, h, CDots(DotPositions(data), 2 * w + 1)))
  {
    DescriptorLayout(ws, hs, data);
    ScanDimsOf(ws, hs, data);
    ParseCOf(Descriptor(ws, hs, data), data, |ws| + 1 + |hs|, w, h);
  }

  /** What PyDims makes of the dimensions once the split and both values are known. */
  lemma PyDimsOf(dims: string, ws: string, hs: string, w: int, h: int)
    requires SplitPair(dims, 'x') == Some((ws, hs)) && PyInt(ws) == Some(w) && PyInt(hs) == Some(h)
    ensures PyDims(dims) == Some((w, h))
  {
  }

  /** What ParsePy makes of a string once its split and dimensions are known. */
  lemma ParsePyOf(s: string, dims: string, data: string, w: int, h: int)
    requires SplitPair(s, ':') == Some((dims, data)) && PyDims(dims) == Some((w, h))
    ensures ParsePy(s) == Some((w, h, PyDots(DotPositions(data), 2 * w + 1)))
  {
  }

  /** decode_puzzle's two splits of a descriptor. */
  lemma SplitsOf(ws: string, hs: string, data: string)
    requires Numeral(ws) && Numeral(hs)
    requires forall j :: 0 <= j < |data| ==> data[j] != ':'
    ensures SplitPair(Descriptor(ws, hs, data), ':') == Some((ws + ['x'] + hs, data))
    ensures SplitPair(ws + ['x'] + hs, 'x') == Some((ws, hs))
  {
    var dims := ws + ['x'] + hs;
    assert Descriptor(ws, hs, data) == dims + [':'] + data;
    forall j | 0 <= j < |dims| ensures dims[j] != ':' {
      if j < |ws| { assert dims[j] == ws[j]; }
      else if j > |ws| { assert dims[j] == hs[j - |ws| - 1]; }
    }
    SplitPairOf(dims, ':', data);
    SplitPairOf(ws, 'x', hs);
  }

  /** decode_puzzle reads a descriptor made of the numerals of w and h and data without ':'. */
  lemma PyReads(ws: string, hs: string, data: string, w: int, h: int)
    requires Numeral(ws) && Numeral(hs) && w == DigitsValue(ws) && h == DigitsValue(hs)
    requires forall j :: 0 <= j < |data| ==> data[j] != ':'
    ensures ParsePy(Descriptor(ws, hs, data)) == Some((w, h, PyDots(DotPositions(data), 2 * w + 1)))
  {
    SplitsOf(ws, hs, data);
    PyIntDigits(ws);
    PyIntDigits(hs);
    PyDimsOf(ws + ['x'] + hs, ws, hs, w, h);
    ParsePyOf(Descriptor(ws, hs, data), ws + ['x'] + hs, data, w, h);
  }

  /** fromGameId reads back the generator's line for a w x h board. */
  lemma CppRoundTrip(w: nat, h: nat, cells: seq<Cell>)
    requires w <= IntMax && h <= IntMax
    ensures ParseCpp(Descriptor(Itoa(w), Itoa(h), Encode(cells))) == Some(DescribedPuzzle(w, h, GridDots(DotsOf(cells), 2 * w + 1)))
  {
    var data := Encode(cells);
    EncodeRoundTrip(cells);
    EncodedData(cells);
    ItoaValue(w);
    ItoaValue(h);
    CppReads(Itoa(w), Itoa(h), data, w, h);
    DivisionsAgree(DotsOf(cells), 2 * w + 1);
  }

  /** parse_game_id reads back the generator's line for a w x h board. */
  lemma CRoundTrip(w: nat, h: nat, cells: seq<Cell>)
    ensures ParseC(Descriptor(Itoa(w), Itoa(h), Encode(cells))) == Some(DescribedPuzzle(w, h, GridDots(DotsOf(cells), 2 * w + 1)))
  {
    var data := Encode(cells);
    EncodeRoundTrip(cells);
    EncodedData(cells);
    ItoaValue(w);
    ItoaValue(h);
    CReads(Itoa(w), Itoa(h), data, w, h);
    DivisionsAgree(DotsOf(cells), 2 * w + 1);
  }

  /** decode_puzzle reads back the generator's line for a w x h board. */
  lemma PyRoundTrip(w: nat, h: nat, cells: seq<Cell>)
    ensures ParsePy(Descriptor(Itoa(w), Itoa(h), Encode(cells))) == Some((w, h, GridDots(DotsOf(cells), 2 * w + 1)))
  {
    var data := Encode(cells);
    EncodeRoundTrip(cells);
    EncodedData(cells);
    ItoaValue(w);
    ItoaValue(h);
    PyReads(Itoa(w), Itoa(h), data, w, h);
    DivisionsAgree(DotsOf(cells), 2 * w + 1);
  }

  /**
   * The headline round trip: the descriptor the generator prints for a
   * w x h board whose internal cells, row-major, are cells is read back by
   * fromGameId, parse_game_id and decode_puzzle alike, giving the
   * dimensions and exactly the dot cells at (index % sx, index / sx).
   */
  lemma DescriptorRoundTrip(w: nat, h: nat, cells: seq<Cell>)
    requires w <= IntMax && h <= IntMax
    ensures var s := Descriptor(Itoa(w), Itoa(h), Encode(cells));
            var dots := GridDots(DotsOf(cells), 2 * w + 1);
            ParseCpp(s) == Some(DescribedPuzzle(w, h, dots)) &&
            ParseC(s) == Some(DescribedPuzzle(w, h, dots)) &&
            ParsePy(s) == Some((w, h, dots))
  {
    CppRoundTrip(w, h, cells);
    CRoundTrip(w, h, cells);
    PyRoundTrip(w, h, cells);
  }

  /** int() of a plain digit string is its value. */
  lemma PyIntDigits(d: string)
    requires |d| > 0 && AllDigits(d)
    ensures PyInt(d) == Some(DigitsValue(d))
  {
    assert IsDigit(d[0]) && IsDigit(d[|d| - 1]);
    assert !IsPySpace(d[0]) && !IsPySpace(d[|d| - 1]);
    assert PyStrip(d) == d;
    assert d[0] != '+' && d[0] != '-';
    assert PyDigits(d);
    NoUnderscores(d);
  }

  lemma {:induction false} NoUnderscores(d: string)
    requires AllDigits(d)
    ensures WithoutUnderscores(d) == d
    decreases |d|
  {
    if d != [] {
      NoUnderscores(d[..|d| - 1]);
    }
  }
}
