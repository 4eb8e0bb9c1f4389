/**
 * The second step of check.py's validate_solution: the regions of the
 * solution, found by breadth-first search over the tile adjacency, one
 * search from each tile not yet visited, in the order of the tile list.
 */
module Components {

  type Tile = (int, int)

  /** set(s). */
  function Elems<T>(s: seq<T>): set<T>
  {
    set x | x in s
  }

  /** No element listed twice. */
  predicate Distinct<T(==)>(s: seq<T>)
  {
    forall p, q :: 0 <= p < q < |s| ==> s[p] != s[q]
  }

  /** len(set(s)) == len(s) exactly when s lists no element twice. */
  lemma {:induction false} DistinctCard<T>(s: seq<T>)
    ensures |Elems(s)| <= |s|
    ensures |Elems(s)| == |s| <==> Distinct(s)
  {
    if |s| > 0 {
      var init, x := s[..|s| - 1], s[|s| - 1];
      DistinctCard(init);
      assert s == init + [x];
      assert Elems(s) == Elems(init) + {x};
      if x in init {
        var i :| 0 <= i < |init| && init[i] == x;
        assert s[i] == s[|s| - 1];
      } else {
        assert x !in Elems(init);
        if Distinct(init) {
          forall p, q | 0 <= p < q < |s| ensures s[p] != s[q] {
            if q == |s| - 1 {
              assert s[p] == init[p];
            } else {
              assert s[p] == init[p] && s[q] == init[q];
            }
          }
        } else {
          var p, q :| 0 <= p < q < |init| && init[p] == init[q];
          assert s[p] == s[q];
        }
      }
    }
  }

  /** A list of distinct tiles drawn from a set is no longer than the set. */
  lemma DistinctBound<T>(s: seq<T>, keys: set<T>)
    requires Distinct(s) && Elems(s) <= keys
    ensures |s| <= |keys|
  {
    DistinctCard(s);
    SubsetCard(Elems(s), keys);
  }

  lemma {:induction false} SubsetCard<T>(a: set<T>, b: set<T>)
    requires a <= b
    ensures |a| <= |b|
    decreases |b|
  {
    if a != {} {
      var x :| x in a;
      SubsetCard(a - {x}, b - {x});
    }
  }

  /** The regions one after the other. */
  function Flatten(rs: seq<seq<Tile>>): seq<Tile>
  {
    if |rs| == 0 then [] else Flatten(rs[..|rs| - 1]) + rs[|rs| - 1]
  }

  lemma FlattenSnoc(rs: seq<seq<Tile>>, r: seq<Tile>)
    ensures Flatten(rs + [r]) == Flatten(rs) + r
  {
    assert (rs + [r])[..|rs|] == rs;
  }

  /** Regions whose concatenation lists no tile twice each list no tile twice. */
  lemma {:induction false} DistinctParts(rs: seq<seq<Tile>>)
    requires Distinct(Flatten(rs))
    ensures forall j :: 0 <= j < |rs| ==> Distinct(rs[j])
  {
    if |rs| > 0 {
      var init := rs[..|rs| - 1];
      var a, b := Flatten(init), rs[|rs| - 1];
      assert Flatten(rs) == a + b;
      assert Distinct(a) by {
        forall p, q | 0 <= p < q < |a| ensures a[p] != a[q] {
          assert (a + b)[p] == a[p] && (a + b)[q] == a[q];
        }
      }
      assert Distinct(b) by {
        forall p, q | 0 <= p < q < |b| ensures b[p] != b[q] {
          assert (a + b)[|a| + p] == b[p] && (a + b)[|a| + q] == b[q];
        }
      }
      DistinctParts(init);
      forall j | 0 <= j < |rs| ensures Distinct(rs[j]) {
        if j < |rs| - 1 {
          assert rs[j] == init[j];
        }
      }
    }
  }

  /** A tile lies in the flattened regions exactly when it lies in one of them. */
  lemma {:induction false} FlattenMembers(rs: seq<seq<Tile>>, t: Tile)
    ensures t in Flatten(rs) <==> exists j :: 0 <= j < |rs| && t in rs[j]
  {
    if |rs| > 0 {
      var init := rs[..|rs| - 1];
      FlattenMembers(init, t);
      if t in Flatten(rs) && t !in rs[|rs| - 1] {
        var j :| 0 <= j < |init| && t in init[j];
        assert rs[j] == init[j];
      }
      if exists j :: 0 <= j < |rs| && t in rs[j] {
        var j :| 0 <= j < |rs| && t in rs[j];
        if j < |rs| - 1 {
          assert init[j] == rs[j];
        }
      }
    }
  }

  /** Every listed neighbour is a tile with its own list. */
  predicate Closed(adj: map<Tile, seq<Tile>>)
  {
    forall t, u :: t in adj && u in adj[t] ==> u in adj
  }

  /** Adjacency goes both ways. */
  predicate Symmetric(adj: map<Tile, seq<Tile>>)
    requires Closed(adj)
  {
    forall t, u :: t in adj && u in adj[t] ==> t in adj[u]
  }

  /** No neighbour of a tile of s lies outside s. */
  predicate NoEdgeOut(adj: map<Tile, seq<Tile>>, s: set<Tile>)
  {
    forall t, u :: t in s && t in adj && u in adj[t] ==> u in s
  }

  /** ps is a walk along the adjacency: each tile after the first is listed as a neighbour of the one before. */
  ghost predicate Path(adj: map<Tile, seq<Tile>>, ps: seq<Tile>)
  {
    |ps| > 0 && forall i :: 0 <= i < |ps| - 1 ==> ps[i] in adj && ps[i + 1] in adj[ps[i]]
  }

  /** Some walk along the adjacency leads from a to b. */
  ghost predicate Reachable(adj: map<Tile, seq<Tile>>, a: Tile, b: Tile)
  {
    exists ps :: Path(adj, ps) && ps[0] == a && ps[|ps| - 1] == b
  }

  /** The connected component of a: the tiles reachable from it. */
  ghost function Component(adj: map<Tile, seq<Tile>>, a: Tile): set<Tile>
  {
    set b | b in adj.Keys && Reachable(adj, a, b)
  }

  /**
   * The components in the order of the tile list: the component of each
   * tile not covered by an earlier one.
   */
  ghost function ComponentsFrom(adj: map<Tile, seq<Tile>>, tiles: seq<Tile>, covered: set<Tile>): seq<set<Tile>>
    decreases |tiles|
  {
    if |tiles| == 0 then []
    else if tiles[0] in covered then ComponentsFrom(adj, tiles[1..], covered)
    else [Component(adj, tiles[0])] + ComponentsFrom(adj, tiles[1..], covered + Component(adj, tiles[0]))
  }

  /** The tile sets of the regions, in order. */
  function SetsOf(rs: seq<seq<Tile>>): (r: seq<set<Tile>>)
    ensures |r| == |rs| && forall j :: 0 <= j < |rs| ==> r[j] == Elems(rs[j])
  {
    if |rs| == 0 then [] else SetsOf(rs[..|rs| - 1]) + [Elems(rs[|rs| - 1])]
  }

  lemma ReachRefl(adj: map<Tile, seq<Tile>>, a: Tile)
    ensures Reachable(adj, a, a)
  {
    assert Path(adj, [a]);
  }

  /** A walk to b extends to any neighbour of b. */
  lemma ReachStep(adj: map<Tile, seq<Tile>>, a: Tile, b: Tile, c: Tile)
    requires Reachable(adj, a, b) && b in adj && c in adj[b]
    ensures Reachable(adj, a, c)
  {
    var ps :| Path(adj, ps) && ps[0] == a && ps[|ps| - 1] == b;
    var qs := ps + [c];
    forall i | 0 <= i < |qs| - 1 ensures qs[i] in adj && qs[i + 1] in adj[qs[i]] {
      if i < |ps| - 1 {
        assert qs[i] == ps[i] && qs[i + 1] == ps[i + 1];
      }
    }
    assert Path(adj, qs);
  }

  /** A walk that starts in a set no edge leaves stays in it. */
  lemma {:induction false} PathInside(adj: map<Tile, seq<Tile>>, s: set<Tile>, ps: seq<Tile>, i: nat)
    requires Path(adj, ps) && ps[0] in s && i < |ps|
    requires forall t, u :: t in s && t in adj && u in adj[t] ==> u in s
    ensures ps[i] in s
  {
    if i > 0 {
      PathInside(adj, s, ps, i - 1);
      assert ps[i - 1] in adj && ps[i] in adj[ps[i - 1]];
    }
  }

  /** A set no edge leaves holds everything reachable from its tiles. */
  lemma ReachClosed(adj: map<Tile, seq<Tile>>, s: set<Tile>, a: Tile, b: Tile)
    requires a in s && Reachable(adj, a, b)
    requires forall t, u :: t in s && t in adj && u in adj[t] ==> u in s
    ensures b in s
  {
    var ps :| Path(adj, ps) && ps[0] == a && ps[|ps| - 1] == b;
    PathInside(adj, s, ps, |ps| - 1);
  }

  /** Two adjacencies with the same tiles and the same neighbour sets have the same walks. */
  lemma SamePaths(adj: map<Tile, seq<Tile>>, adj': map<Tile, seq<Tile>>, ps: seq<Tile>)
    requires adj.Keys == adj'.Keys && forall a, b :: a in adj ==> (b in adj[a] <==> b in adj'[a])
    ensures Path(adj, ps) <==> Path(adj', ps)
  {
  }

  /** ... and so the same components, in the same order. */
  lemma {:induction false} SameComponents(adj: map<Tile, seq<Tile>>, adj': map<Tile, seq<Tile>>, tiles: seq<Tile>, covered: set<Tile>)
    requires adj.Keys == adj'.Keys && forall a, b :: a in adj ==> (b in adj[a] <==> b in adj'[a])
    ensures ComponentsFrom(adj, tiles, covered) == ComponentsFrom(adj', tiles, covered)
    decreases |tiles|
  {
    if |tiles| > 0 {
      var a := tiles[0];
      forall b ensures Reachable(adj, a, b) <==> Reachable(adj', a, b) {
        if Reachable(adj, a, b) {
          var ps :| Path(adj, ps) && ps[0] == a && ps[|ps| - 1] == b;
          SamePaths(adj, adj', ps);
        }
        if Reachable(adj', a, b) {
          var ps :| Path(adj', ps) && ps[0] == a && ps[|ps| - 1] == b;
          SamePaths(adj, adj', ps);
        }
      }
      assert Component(adj, a) == Component(adj', a);
      SameComponents(adj, adj', tiles[1..], covered);
      SameComponents(adj, adj', tiles[1..], covered + Component(adj, a));
    }
  }

  lemma DistinctAppend(a: seq<Tile>, b: seq<Tile>)
    requires Distinct(a) && Distinct(b) && Elems(a) !! Elems(b)
    ensures Distinct(a + b)
  {
    forall p, q | 0 <= p < q < |a + b| ensures (a + b)[p] != (a + b)[q] {
      if q >= |a| && p < |a| {
        assert (a + b)[p] in Elems(a) && (a + b)[q] in Elems(b);
      }
    }
  }

  /** The tiles of ns not in seen, each once, in the order they are first listed. */
  function Fresh(ns: seq<Tile>, seen: set<Tile>): seq<Tile>
  {
    if |ns| == 0 then []
    else
      var p := Fresh(ns[..|ns| - 1], seen);
      if ns[|ns| - 1] in seen || ns[|ns| - 1] in p then p else p + [ns[|ns| - 1]]
  }

  /** Fresh lists exactly the unseen tiles of ns, each once. */
  lemma {:induction false} FreshHolds(ns: seq<Tile>, seen: set<Tile>)
    ensures Elems(Fresh(ns, seen)) == Elems(ns) - seen
    ensures Distinct(Fresh(ns, seen))
  {
    if |ns| > 0 {
      var init := ns[..|ns| - 1];
      FreshHolds(init, seen);
      assert ns == init + [ns[|ns| - 1]];
      assert Elems(ns) == Elems(init) + {ns[|ns| - 1]};
      var p := Fresh(init, seen);
      if !(ns[|ns| - 1] in seen || ns[|ns| - 1] in p) {
        assert Elems(p + [ns[|ns| - 1]]) == Elems(p) + {ns[|ns| - 1]};
        DistinctAppend(p, [ns[|ns| - 1]]);
      }
    }
  }

  /**
   * The loop over the neighbours of the tile just taken: each one not yet
   * visited is marked and queued.
   */
  method Enqueue(ns: seq<Tile>, visited0: set<Tile>, q0: seq<Tile>) returns (visited: set<Tile>, q: seq<Tile>)
    ensures visited == visited0 + Elems(ns)
    ensures q == q0 + Fresh(ns, visited0)
  {
    visited, q := visited0, q0;
    var j := 0;
    while j < |ns|
      invariant 0 <= j <= |ns|
      invariant visited == visited0 + Elems(ns[..j])
      invariant q == q0 + Fresh(ns[..j], visited0)
    {
      var neighbor := ns[j];
      assert ns[..j + 1][..j] == ns[..j] && ns[..j + 1] == ns[..j] + [neighbor];
      assert Elems(ns[..j + 1]) == Elems(ns[..j]) + {neighbor};
      FreshHolds(ns[..j], visited0);
      assert Fresh(ns[..j + 1], visited0) == if neighbor in visited0 || neighbor in Fresh(ns[..j], visited0) then Fresh(ns[..j], visited0) else Fresh(ns[..j], visited0) + [neighbor];
      assert neighbor in Fresh(ns[..j], visited0) <==> neighbor in Elems(Fresh(ns[..j], visited0));
      if neighbor !in visited {
        visited := visited + {neighbor};
        q := q + [neighbor];
      }
      j := j + 1;
    }
    assert ns[..j] == ns;
  }

  /** The state of the search from tile: region processed, q queued, visited marked. */
  ghost predicate Searching(adj: map<Tile, seq<Tile>>, tile: Tile, visited0: set<Tile>, region: seq<Tile>, q: seq<Tile>, visited: set<Tile>)
  {
    visited == visited0 + Elems(region) + Elems(q) && visited <= adj.Keys &&
    Distinct(region + q) && Elems(region + q) !! visited0 &&
    (forall t, u :: t in region && t in adj && u in adj[t] ==> u in visited) &&
    (|region| > 0 ==> region[0] == tile) &&
    (|region| == 0 ==> q == [tile]) &&
    (forall t :: t in region + q ==> Reachable(adj, tile, t))
  }

  lemma ElemsAppend(a: seq<Tile>, b: seq<Tile>)
    ensures Elems(a + b) == Elems(a) + Elems(b)
  {
    forall x | x in Elems(a + b) ensures x in Elems(a) + Elems(b) {
      var i :| 0 <= i < |a + b| && (a + b)[i] == x;
      if i >= |a| {
        assert b[i - |a|] == x;
      }
    }
  }

  lemma VisitedStep(visited0: set<Tile>, region: seq<Tile>, q: seq<Tile>, visited: set<Tile>, ns: seq<Tile>)
    requires visited == visited0 + Elems(region) + Elems(q) && |q| > 0
    ensures visited + Elems(ns) == visited0 + Elems(region + [q[0]]) + Elems(q[1..] + Fresh(ns, visited))
  {
    FreshHolds(ns, visited);
    assert q == [q[0]] + q[1..];
    ElemsAppend([q[0]], q[1..]);
    ElemsAppend(region, [q[0]]);
    ElemsAppend(q[1..], Fresh(ns, visited));
  }

  lemma DistinctStep(visited0: set<Tile>, region: seq<Tile>, q: seq<Tile>, visited: set<Tile>, ns: seq<Tile>)
    requires Distinct(region + q) && Elems(region + q) !! visited0 && Elems(region + q) <= visited && visited0 <= visited && |q| > 0
    ensures Distinct(region + [q[0]] + (q[1..] + Fresh(ns, visited)))
    ensures Elems(region + [q[0]] + (q[1..] + Fresh(ns, visited))) !! visited0
  {
    var added := Fresh(ns, visited);
    FreshHolds(ns, visited);
    assert region + q == region + [q[0]] + q[1..];
    DistinctAppend(region + [q[0]] + q[1..], added);
    assert region + [q[0]] + (q[1..] + added) == (region + [q[0]] + q[1..]) + added;
    ElemsAppend(region + [q[0]] + q[1..], added);
  }

  lemma ClosureStep(adj: map<Tile, seq<Tile>>, region: seq<Tile>, curr: Tile, visited: set<Tile>)
    requires curr in adj && forall t, u :: t in region && t in adj && u in adj[t] ==> u in visited
    ensures forall t, u :: t in region + [curr] && t in adj && u in adj[t] ==> u in visited + Elems(adj[curr])
  {
    forall t, u | t in region + [curr] && t in adj && u in adj[t] ensures u in visited + Elems(adj[curr]) {
      if t == curr {
        assert u in Elems(adj[curr]);
      } else {
        assert t in region;
      }
    }
  }

  /** The tiles queued from the front of the queue are its neighbours, so they are reachable from tile too. */
  lemma ReachesStep(adj: map<Tile, seq<Tile>>, tile: Tile, region: seq<Tile>, q: seq<Tile>, visited: set<Tile>)
    requires |q| > 0 && q[0] in adj && forall t :: t in region + q ==> Reachable(adj, tile, t)
    ensures forall t :: t in region + [q[0]] + (q[1..] + Fresh(adj[q[0]], visited)) ==> Reachable(adj, tile, t)
  {
    var curr := q[0];
    assert curr in region + q;
    FreshHolds(adj[curr], visited);
    forall t | t in region + [curr] + (q[1..] + Fresh(adj[curr], visited)) ensures Reachable(adj, tile, t) {
      if t in Fresh(adj[curr], visited) {
        assert t in Elems(Fresh(adj[curr], visited));
        ReachStep(adj, tile, curr, t);
      } else {
        assert t in region + q;
      }
    }
  }

  /** Taking the front of the queue and queueing its unvisited neighbours keeps the search state, and makes progress. */
  lemma SearchStep(adj: map<Tile, seq<Tile>>, tile: Tile, visited0: set<Tile>, region: seq<Tile>, q: seq<Tile>, visited: set<Tile>)
    requires Closed(adj) && |q| > 0 && q[0] in adj && Searching(adj, tile, visited0, region, q, visited)
    ensures Searching(adj, tile, visited0, region + [q[0]], q[1..] + Fresh(adj[q[0]], visited), visited + Elems(adj[q[0]]))
    ensures |region| < |adj.Keys|
  {
    var curr := q[0];
    assert Elems(adj[curr]) <= adj.Keys by {
      forall u | u in Elems(adj[curr]) ensures u in adj {
        assert u in adj[curr];
      }
    }
    assert Elems(region + q) <= visited by {
      ElemsAppend(region, q);
    }
    VisitedStep(visited0, region, q, visited, adj[curr]);
    DistinctStep(visited0, region, q, visited, adj[curr]);
    ClosureStep(adj, region, curr, visited);
    ReachesStep(adj, tile, region, q, visited);
    DistinctBound(region + q, adj.Keys);
    assert region + [q[0]] + (q[1..] + Fresh(adj[q[0]], visited)) == (region + [q[0]]) + (q[1..] + Fresh(adj[q[0]], visited));
  }

  /**
   * The search from tile: the queue is emptied at the front; each tile
   * taken is added to the region and its unvisited neighbours are marked
   * and queued.  The region holds tile first, each tile once, none visited
   * before, only tiles reachable from tile, and every neighbour of its
   * tiles ends up visited.
   */
  method Explore(adj: map<Tile, seq<Tile>>, tile: Tile, visited0: set<Tile>) returns (region: seq<Tile>, visited: set<Tile>)
    requires Closed(adj) && tile in adj && tile !in visited0 && visited0 <= adj.Keys
    ensures visited == visited0 + Elems(region) && Elems(region) !! visited0 && visited <= adj.Keys
    ensures |region| > 0 && region[0] == tile && Distinct(region)
    ensures forall t, u :: t in region && t in adj && u in adj[t] ==> u in visited
    ensures forall t :: t in region ==> Reachable(adj, tile, t)
  {
    region := [];
    var q := [tile];
    visited := visited0 + {tile};
    assert Elems(q) == {tile};
    ReachRefl(adj, tile);
    while |q| > 0
      invariant Searching(adj, tile, visited0, region, q, visited)
      decreases |adj.Keys| - |region|
    {
      var curr := q[0];
      assert curr in Elems(q);
      SearchStep(adj, tile, visited0, region, q, visited);
      q := q[1..];
      region := region + [curr];
      visited, q := Enqueue(adj[curr], visited, q);
    }
    assert region + q == region;
  }

  /**
   * The regions found so far: their tiles are the visited ones, each once,
   * none empty, no edge leaves any of them, and each is the component of
   * its first tile.
   */
  ghost predicate Found(adj: map<Tile, seq<Tile>>, regions: seq<seq<Tile>>, visited: set<Tile>)
  {
    && visited == Elems(Flatten(regions)) && visited <= adj.Keys
    && Distinct(Flatten(regions))
    && NoEdgeOut(adj, visited)
    && (forall j :: 0 <= j < |regions| ==> |regions[j]| > 0)
    && (forall j, t, u :: 0 <= j < |regions| && t in regions[j] && t in adj && u in adj[t] ==> u in regions[j])
    && (forall j :: 0 <= j < |regions| ==> Elems(regions[j]) == Component(adj, regions[j][0]))
  }

  /** Appending a region explored from outside the visited tiles keeps the regions found. */
  lemma FoundAppend(adj: map<Tile, seq<Tile>>, regions: seq<seq<Tile>>, visited: set<Tile>, region: seq<Tile>, visited': set<Tile>)
    requires Closed(adj) && Symmetric(adj) && Found(adj, regions, visited)
    requires visited' == visited + Elems(region) && Elems(region) !! visited && visited' <= adj.Keys
    requires |region| > 0 && Distinct(region)
    requires forall t, u :: t in region && t in adj && u in adj[t] ==> u in visited'
    requires forall t :: t in region ==> Reachable(adj, region[0], t)
    ensures Found(adj, regions + [region], visited')
    ensures Elems(region) == Component(adj, region[0])
  {
    RegionClosed(adj, visited, region);
    RegionComponent(adj, region);
    DistinctAppend(Flatten(regions), region);
    FlattenSnoc(regions, region);
    ElemsAppend(Flatten(regions), region);
    forall j, t, u | 0 <= j < |regions + [region]| && t in (regions + [region])[j] && t in adj && u in adj[t] ensures u in (regions + [region])[j] {
      if j < |regions| {
        assert (regions + [region])[j] == regions[j];
      }
    }
    forall j | 0 <= j < |regions + [region]|
      ensures |(regions + [region])[j]| > 0
      ensures Elems((regions + [region])[j]) == Component(adj, (regions + [region])[j][0])
    {
      if j < |regions| {
        assert (regions + [region])[j] == regions[j];
      }
    }
  }

  /** A non-empty region of tiles reachable from its first tile, which no edge leaves, is that tile's component. */
  lemma RegionComponent(adj: map<Tile, seq<Tile>>, region: seq<Tile>)
    requires |region| > 0 && Elems(region) <= adj.Keys
    requires forall t :: t in region ==> Reachable(adj, region[0], t)
    requires forall t, u :: t in region && t in adj && u in adj[t] ==> u in region
    ensures Elems(region) == Component(adj, region[0])
  {
    forall b | b in Component(adj, region[0]) ensures b in Elems(region) {
      assert forall t, u :: t in Elems(region) && t in adj && u in adj[t] ==> u in Elems(region);
      ReachClosed(adj, Elems(region), region[0], b);
    }
  }

  /**
   * One tile of the outer loop: a visited tile adds no component; an
   * unvisited one adds the component explored from it, whose tiles become
   * visited.
   */
  lemma ComponentsStep(adj: map<Tile, seq<Tile>>, tiles: seq<Tile>, i: int, regions: seq<seq<Tile>>, visited: set<Tile>,
                       region: seq<Tile>, visited': set<Tile>)
    requires 0 <= i < |tiles|
    requires SetsOf(regions) + ComponentsFrom(adj, tiles[i..], visited) == ComponentsFrom(adj, tiles, {})
    requires tiles[i] !in visited ==> visited' == visited + Elems(region) && Elems(region) == Component(adj, tiles[i])
    ensures tiles[i] in visited ==> SetsOf(regions) + ComponentsFrom(adj, tiles[i + 1..], visited) == ComponentsFrom(adj, tiles, {})
    ensures tiles[i] !in visited ==> SetsOf(regions + [region]) + ComponentsFrom(adj, tiles[i + 1..], visited') == ComponentsFrom(adj, tiles, {})
  {
    assert tiles[i..][0] == tiles[i] && tiles[i..][1..] == tiles[i + 1..];
    if tiles[i] !in visited {
      assert SetsOf(regions + [region]) == SetsOf(regions) + [Elems(region)];
    }
  }

  /** Once every tile is visited, the regions found partition the tiles into closed, non-empty regions. */
  lemma FoundAll(adj: map<Tile, seq<Tile>>, regions: seq<seq<Tile>>, visited: set<Tile>, tiles: seq<Tile>)
    requires Found(adj, regions, visited) && (forall t :: t in adj <==> t in tiles)
    requires forall m :: 0 <= m < |tiles| ==> tiles[m] in visited
    ensures forall t :: t in Flatten(regions) <==> t in tiles
  {
    forall t | t in tiles ensures t in Flatten(regions) {
      var m :| 0 <= m < |tiles| && tiles[m] == t;
      assert t in visited;
    }
  }

  /**
   * The second step of validate_solution: one breadth-first search from
   * each tile not yet visited.  The regions are the connected components,
   * in the order of their first tiles in the tile list.
   */
  method FindRegions(tiles: seq<Tile>, adj: map<Tile, seq<Tile>>) returns (regions: seq<seq<Tile>>)
    requires Closed(adj) && Symmetric(adj)
    requires forall t :: t in adj <==> t in tiles
    ensures forall j :: 0 <= j < |regions| ==> |regions[j]| > 0
    ensures Distinct(Flatten(regions))
    ensures forall t :: t in Flatten(regions) <==> t in tiles
    ensures forall j, t, u :: 0 <= j < |regions| && t in regions[j] && t in adj && u in adj[t] ==> u in regions[j]
    ensures forall j :: 0 <= j < |regions| ==> Elems(regions[j]) == Component(adj, regions[j][0])
    ensures SetsOf(regions) == ComponentsFrom(adj, tiles, {})
  {
    regions := [];
    var visited: set<Tile> := {};
    var i := 0;
    while i < |tiles|
      invariant Scanning(adj, tiles, i, regions, visited)
    {
      regions, visited := VisitTile(tiles, adj, i, regions, visited);
      i := i + 1;
    }
    FoundAll(adj, regions, visited, tiles);
    assert tiles[|tiles|..] == [];
  }

  /** The outer loop after its first i tiles: each of them is visited, and the regions are the components they start. */
  ghost predicate Scanning(adj: map<Tile, seq<Tile>>, tiles: seq<Tile>, i: int, regions: seq<seq<Tile>>, visited: set<Tile>)
  {
    0 <= i <= |tiles| && Found(adj, regions, visited) &&
    (forall m :: 0 <= m < i ==> tiles[m] in visited) &&
    SetsOf(regions) + ComponentsFrom(adj, tiles[i..], visited) == ComponentsFrom(adj, tiles, {})
  }

  /** Tile i of the outer loop: searched from when it is not visited yet. */
  method VisitTile(tiles: seq<Tile>, adj: map<Tile, seq<Tile>>, i: int, regions0: seq<seq<Tile>>, visited0: set<Tile>)
      returns (regions: seq<seq<Tile>>, visited: set<Tile>)
    requires Closed(adj) && Symmetric(adj) && (forall t :: t in adj <==> t in tiles)
    requires i < |tiles| && Scanning(adj, tiles, i, regions0, visited0)
    ensures Scanning(adj, tiles, i + 1, regions, visited)
  {
    regions, visited := regions0, visited0;
    var tile := tiles[i];
    if tile !in visited {
      var region, visited' := Explore(adj, tile, visited);
      FoundAppend(adj, regions, visited, region, visited');
      ComponentsStep(adj, tiles, i, regions, visited, region, visited');
      regions := regions + [region];
      visited := visited';
    } else {
      ComponentsStep(adj, tiles, i, regions, visited, [], visited);
    }
  }

  /**
   * A region found from outside a set of visited tiles with no edge out
   * has no edge out itself: a neighbour among the visited tiles would, by
   * symmetry, have the region's tile as a visited neighbour.
   */
  lemma RegionClosed(adj: map<Tile, seq<Tile>>, visited0: set<Tile>, region: seq<Tile>)
    requires Closed(adj) && Symmetric(adj) && NoEdgeOut(adj, visited0)
    requires Elems(region) !! visited0
    requires forall t, u :: t in region && t in adj && u in adj[t] ==> u in visited0 + Elems(region)
    ensures forall t, u :: t in region && t in adj && u in adj[t] ==> u in region
    ensures NoEdgeOut(adj, visited0 + Elems(region))
  {
    forall t, u | t in region && t in adj && u in adj[t] ensures u in region {
      assert t in Elems(region);
      assert u in visited0 + Elems(region);
      if u in visited0 {
        assert false;
      }
      assert u in Elems(region);
    }
  }
}
