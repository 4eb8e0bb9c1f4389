/**
 * The third step of check.py's validate_solution: each region must be
 * symmetric about exactly one dot, there must be as many regions as dots,
 * and no dot may serve two regions.
 *
 * A dot is its position (x, y) on the printed grid; tile (tx, ty) has its
 * centre at (2tx+1, 2ty+1) there.  The dot's colour plays no part in the
 * validation.
 */
module Validation {

  import opened Tiles
  import opened Components
  import OutputText

  /** The tile the half-turn about dot d sends tile t to, as rcx, rcy, rtx, rty are computed. */
  function Mirror(d: (int, int), t: Tile): (r: Tile)
    ensures r == SymmetricTile(d.0, d.1, t.0, t.1)
  {
    var rcx, rcy := 2 * d.0 - (2 * t.0 + 1), 2 * d.1 - (2 * t.1 + 1);
    (PyDiv(rcx - 1, 2), PyDiv(rcy - 1, 2))
  }

  /** The region is mapped onto itself by the half-turn about d. */
  predicate SymmetricAbout(region: seq<Tile>, d: (int, int))
  {
    forall t :: t in region ==> Mirror(d, t) in region
  }

  /** The inner loop over the region's tiles, leaving it at the first tile whose image is missing. */
  method IsSymmetric(region: seq<Tile>, d: (int, int)) returns (b: bool)
    ensures b == SymmetricAbout(region, d)
  {
    b := true;
    var j := 0;
    while j < |region|
      invariant 0 <= j <= |region|
      invariant forall m :: 0 <= m < j ==> Mirror(d, region[m]) in region
    {
      var tx, ty := region[j].0, region[j].1;
      var cx, cy := 2 * tx + 1, 2 * ty + 1;
      var rcx, rcy := 2 * d.0 - cx, 2 * d.1 - cy;
      var rtx, rty := PyDiv(rcx - 1, 2), PyDiv(rcy - 1, 2);
      if (rtx, rty) !in region {
        assert Mirror(d, region[j]) !in region;
        return false;
      }
      j := j + 1;
    }
  }

  /** The indices, below n, of the dots the region is symmetric about, in increasing order. */
  function Centres(region: seq<Tile>, dots: seq<(int, int)>, n: nat): seq<nat>
    requires n <= |dots|
  {
    if n == 0 then []
    else Centres(region, dots, n - 1) + (if SymmetricAbout(region, dots[n - 1]) then [n - 1] else [])
  }

  /** Centres lists exactly the dots the region is symmetric about, each once and in order. */
  lemma {:induction false} CentresMembers(region: seq<Tile>, dots: seq<(int, int)>, n: nat)
    requires n <= |dots|
    ensures forall i :: i in Centres(region, dots, n) <==> 0 <= i < n && SymmetricAbout(region, dots[i])
    ensures forall p, q :: 0 <= p < q < |Centres(region, dots, n)| ==> Centres(region, dots, n)[p] < Centres(region, dots, n)[q]
  {
    if n > 0 {
      CentresMembers(region, dots, n - 1);
      var prev := Centres(region, dots, n - 1);
      assert forall i :: i in prev ==> i < n - 1;
      if SymmetricAbout(region, dots[n - 1]) {
        var c := prev + [n - 1];
        assert Centres(region, dots, n) == c;
        forall p, q | 0 <= p < q < |c| ensures c[p] < c[q] {
          if q == |prev| {
            assert c[p] == prev[p] && prev[p] in prev;
          }
        }
      } else {
        assert Centres(region, dots, n) == prev;
      }
    }
  }

  /** Looking at more dots only adds centres at the end. */
  lemma {:induction false} CentresPrefix(region: seq<Tile>, dots: seq<(int, int)>, m: nat, n: nat)
    requires m <= n <= |dots|
    ensures |Centres(region, dots, m)| <= |Centres(region, dots, n)|
    ensures Centres(region, dots, n)[..|Centres(region, dots, m)|] == Centres(region, dots, m)
    decreases n - m
  {
    if m < n {
      CentresPrefix(region, dots, m, n - 1);
      assert Centres(region, dots, n)[..|Centres(region, dots, n - 1)|] == Centres(region, dots, n - 1);
    }
  }

  datatype Reason =
    | NoSolution
    | Parse(err: OutputText.ParseError)
    | MultipleCentres
    | NoCentre(size: nat)
    | RegionCount(regions: nat, dots: nat)
    | DotsReused

  /** The outcome of the check; Crash stands for the KeyError the scan can raise. */
  datatype Verdict = Pass | Fail(reason: Reason) | Crash

  /** The checks after the region loop: the region count, then the distinct dots used. */
  function Final(regions: seq<seq<Tile>>, dots: seq<(int, int)>, used: seq<nat>): (r: Verdict)
    ensures r != Crash
  {
    if |regions| != |dots| then Fail(RegionCount(|regions|, |dots|))
    else if |Elems(used)| != |dots| then Fail(DotsReused)
    else Pass
  }

  /** The region loop from region k on, with the centres used so far. */
  function Walk(regions: seq<seq<Tile>>, dots: seq<(int, int)>, k: nat, used: seq<nat>): (r: Verdict)
    requires k <= |regions|
    ensures r != Crash
    decreases |regions| - k
  {
    if k == |regions| then Final(regions, dots, used)
    else
      var c := Centres(regions[k], dots, |dots|);
      if |c| >= 2 then Fail(MultipleCentres)
      else if |c| == 0 then Fail(NoCentre(|regions[k]|))
      else Walk(regions, dots, k + 1, used + [c[0]])
  }

  /** What the region checks of validate_solution conclude. */
  function Validated(regions: seq<seq<Tile>>, dots: seq<(int, int)>): Verdict
  {
    Walk(regions, dots, 0, [])
  }

  /** The region checks of validate_solution. */
  method ValidateRegions(regions: seq<seq<Tile>>, dots: seq<(int, int)>) returns (v: Verdict)
    ensures v == Validated(regions, dots)
  {
    var used: seq<nat> := [];
    var k := 0;
    while k < |regions|
      invariant 0 <= k <= |regions|
      invariant Walk(regions, dots, k, used) == Validated(regions, dots)
    {
      var region := regions[k];
      var validDot := -1;
      var i := 0;
      while i < |dots|
        invariant 0 <= i <= |dots|
        invariant validDot == -1 <==> |Centres(region, dots, i)| == 0
        invariant validDot != -1 ==> |Centres(region, dots, i)| == 1 && Centres(region, dots, i)[0] == validDot
      {
        var sym := IsSymmetric(region, dots[i]);
        if sym {
          if validDot != -1 {
            CentresPrefix(region, dots, i + 1, |dots|);
            return Fail(MultipleCentres);
          }
          validDot := i;
        }
        i := i + 1;
      }
      if validDot == -1 {
        return Fail(NoCentre(|region|));
      }
      used := used + [validDot];
      k := k + 1;
    }
    if |regions| != |dots| {
      return Fail(RegionCount(|regions|, |dots|));
    }
    var usedSet := set x | x in used;
    assert usedSet == Elems(used);
    if |usedSet| != |dots| {
      return Fail(DotsReused);
    }
    return Pass;
  }

  /** The centre of a region with exactly one. */
  function CentreOf(region: seq<Tile>, dots: seq<(int, int)>): nat
    requires |Centres(region, dots, |dots|)| == 1
  {
    Centres(region, dots, |dots|)[0]
  }

  /** Every region from k on has exactly one centre. */
  predicate OneCentreEach(regions: seq<seq<Tile>>, dots: seq<(int, int)>, k: nat)
  {
    forall j :: k <= j < |regions| ==> |Centres(regions[j], dots, |dots|)| == 1
  }

  /** The centres of the regions from k on, when each has exactly one. */
  function CentreList(regions: seq<seq<Tile>>, dots: seq<(int, int)>, k: nat): (r: seq<nat>)
    requires k <= |regions| && OneCentreEach(regions, dots, k)
    ensures |r| == |regions| - k
    ensures forall j :: 0 <= j < |r| ==> r[j] == CentreOf(regions[k + j], dots)
    decreases |regions| - k
  {
    if k == |regions| then [] else [CentreOf(regions[k], dots)] + CentreList(regions, dots, k + 1)
  }

  lemma {:induction false} WalkPasses(regions: seq<seq<Tile>>, dots: seq<(int, int)>, k: nat, used: seq<nat>)
    requires k <= |regions|
    ensures Walk(regions, dots, k, used) == Pass <==>
      OneCentreEach(regions, dots, k) && |regions| == |dots| && |Elems(used + CentreList(regions, dots, k))| == |dots|
    decreases |regions| - k
  {
    if k < |regions| {
      var c := Centres(regions[k], dots, |dots|);
      if |c| == 1 {
        WalkPasses(regions, dots, k + 1, used + [c[0]]);
        if OneCentreEach(regions, dots, k) {
          assert used + CentreList(regions, dots, k) == used + [c[0]] + CentreList(regions, dots, k + 1);
        }
      } else {
        assert !OneCentreEach(regions, dots, k);
      }
    } else {
      assert used + CentreList(regions, dots, k) == used;
    }
  }

  /**
   * The check passes exactly when each region is symmetric about exactly
   * one dot, there are as many regions as dots, and no two regions share
   * their dot: the regions and the dots correspond one to one.
   */
  lemma ValidatedPass(regions: seq<seq<Tile>>, dots: seq<(int, int)>)
    ensures Validated(regions, dots) == Pass <==>
      OneCentreEach(regions, dots, 0) && |regions| == |dots| && Distinct(CentreList(regions, dots, 0))
  {
    WalkPasses(regions, dots, 0, []);
    if OneCentreEach(regions, dots, 0) {
      assert [] + CentreList(regions, dots, 0) == CentreList(regions, dots, 0);
      DistinctCard(CentreList(regions, dots, 0));
    }
  }

  /** The tile of s furthest to the right. */
  function RightmostTile(s: seq<Tile>): (r: Tile)
    requires |s| > 0
    ensures r in s && forall t :: t in s ==> t.0 <= r.0
  {
    if |s| == 1 then s[0]
    else
      var r := RightmostTile(s[1..]);
      assert forall t :: t in s[1..] ==> t in s;
      assert forall t :: t in s ==> t == s[0] || t in s[1..];
      if s[0].0 >= r.0 then s[0] else r
  }

  /** The tile of s furthest down. */
  function LowestTile(s: seq<Tile>): (r: Tile)
    requires |s| > 0
    ensures r in s && forall t :: t in s ==> t.1 <= r.1
  {
    if |s| == 1 then s[0]
    else
      var r := LowestTile(s[1..]);
      assert forall t :: t in s[1..] ==> t in s;
      assert forall t :: t in s ==> t == s[0] || t in s[1..];
      if s[0].1 >= r.1 then s[0] else r
  }

  /** Two half-turns about d1 and then d2 shift every tile by d2 - d1. */
  lemma MirrorTwice(d1: (int, int), d2: (int, int), t: Tile)
    ensures Mirror(d2, Mirror(d1, t)) == (t.0 + d2.0 - d1.0, t.1 + d2.1 - d1.1)
  {
  }

  /**
   * No nonempty region is symmetric about two different positions: the
   * two half-turns would shift it onto itself, and the tile furthest in
   * the direction of the shift would have no image.
   */
  lemma NoTwoCentres(region: seq<Tile>, d1: (int, int), d2: (int, int))
    requires |region| > 0 && d1 != d2
    ensures !(SymmetricAbout(region, d1) && SymmetricAbout(region, d2))
  {
    var a, b := d1, d2;
    if d2.0 < d1.0 || (d2.0 == d1.0 && d2.1 < d1.1) {
      a, b := d2, d1;
    }
    if SymmetricAbout(region, a) {
      var t := if b.0 > a.0 then RightmostTile(region) else LowestTile(region);
      var u := Mirror(a, t);
      MirrorTwice(a, b, t);
      assert u in region;
      assert Mirror(b, u) !in region;
    }
  }

  /** With the dots at distinct positions, no region has two centres. */
  lemma AtMostOneCentre(region: seq<Tile>, dots: seq<(int, int)>)
    requires |region| > 0 && Distinct(dots)
    ensures |Centres(region, dots, |dots|)| <= 1
  {
    CentresMembers(region, dots, |dots|);
    var c := Centres(region, dots, |dots|);
    if |c| >= 2 {
      assert c[0] in c && c[1] in c && c[0] < c[1];
      NoTwoCentres(region, dots[c[0]], dots[c[1]]);
    }
  }

  lemma {:induction false} WalkNeverMultiple(regions: seq<seq<Tile>>, dots: seq<(int, int)>, k: nat, used: seq<nat>)
    requires k <= |regions| && Distinct(dots) && forall j :: 0 <= j < |regions| ==> |regions[j]| > 0
    ensures Walk(regions, dots, k, used) != Fail(MultipleCentres)
    decreases |regions| - k
  {
    if k < |regions| {
      AtMostOneCentre(regions[k], dots);
      if |Centres(regions[k], dots, |dots|)| == 1 {
        WalkNeverMultiple(regions, dots, k + 1, used + [Centres(regions[k], dots, |dots|)[0]]);
      }
    }
  }

  /**
   * The "symmetric around multiple dots" failure cannot arise from
   * nonempty regions and dots at distinct positions.
   */
  lemma NeverMultiple(regions: seq<seq<Tile>>, dots: seq<(int, int)>)
    requires Distinct(dots) && forall j :: 0 <= j < |regions| ==> |regions[j]| > 0
    ensures Validated(regions, dots) != Fail(MultipleCentres)
  {
    WalkNeverMultiple(regions, dots, 0, []);
  }

  /** Whether a region is symmetric about a dot depends only on its tiles. */
  lemma {:induction false} CentresBySets(a: seq<Tile>, b: seq<Tile>, dots: seq<(int, int)>, n: nat)
    requires Elems(a) == Elems(b) && n <= |dots|
    ensures Centres(a, dots, n) == Centres(b, dots, n)
  {
    if n > 0 {
      CentresBySets(a, b, dots, n - 1);
      assert forall t :: t in a <==> t in Elems(a);
      assert forall t :: t in b <==> t in Elems(b);
      assert SymmetricAbout(a, dots[n - 1]) == SymmetricAbout(b, dots[n - 1]);
    }
  }

  /** The region loop sees only the tile set and the size of each region. */
  lemma {:induction false} WalkBySets(r1: seq<seq<Tile>>, r2: seq<seq<Tile>>, dots: seq<(int, int)>, k: nat, used: seq<nat>)
    requires |r1| == |r2| && k <= |r1|
    requires forall j :: 0 <= j < |r1| ==> Elems(r1[j]) == Elems(r2[j]) && Distinct(r1[j]) && Distinct(r2[j])
    ensures Walk(r1, dots, k, used) == Walk(r2, dots, k, used)
    decreases |r1| - k
  {
    if k < |r1| {
      CentresBySets(r1[k], r2[k], dots, |dots|);
      DistinctCard(r1[k]);
      DistinctCard(r2[k]);
      var c := Centres(r1[k], dots, |dots|);
      if |c| == 1 {
        WalkBySets(r1, r2, dots, k + 1, used + [c[0]]);
      }
    }
  }

  /**
   * Two splits into the same tile sets, in the same order, each region
   * listing its tiles once, get the same verdict: the order of the tiles
   * inside a region plays no part.
   */
  lemma ValidatedBySets(r1: seq<seq<Tile>>, r2: seq<seq<Tile>>, dots: seq<(int, int)>)
    requires SetsOf(r1) == SetsOf(r2)
    requires forall j :: 0 <= j < |r1| ==> Distinct(r1[j])
    requires forall j :: 0 <= j < |r2| ==> Distinct(r2[j])
    ensures Validated(r1, dots) == Validated(r2, dots)
  {
    assert forall j :: 0 <= j < |r1| ==> SetsOf(r1)[j] == Elems(r1[j]) && SetsOf(r2)[j] == Elems(r2[j]);
    WalkBySets(r1, r2, dots, 0, []);
  }
}
