/** What the graph builder of sol/common/graph.ts guarantees: which island
    pairs become candidate edges, what capacity they get, and how the
    adjacency lists record them. */
module GraphFacts {
  import opened Wrappers
  import opened GameModel
  import opened GameUtil
  import opened Graphs

  // ---------------------------------------------------------------------
  // The capacity between two islands

  /** The capacity the bridges in positions `lo` up to `k` leave: the least
      of `MAX_BRIDGE_SIZE` and `MAX_BRIDGE_SIZE - bridgeCount` over each
      bridge, whatever its direction. */
  function Room(line: seq<Cell>, lo: nat, k: nat): int
    requires lo <= k <= |line|
    decreases k
  {
    if k == lo then MAX_BRIDGE_SIZE
    else if line[k - 1].Bridge? then Min(Room(line, lo, k - 1), MAX_BRIDGE_SIZE - line[k - 1].bridgeCount)
    else Room(line, lo, k - 1)
  }

  /** Some cell of positions `lo` up to `hi` blocks a pair of the pass. */
  ghost predicate Blocked(line: seq<Cell>, alongRow: bool, lo: nat, hi: nat) {
    exists k :: lo <= k < hi && k < |line| && Blocks(line[k], alongRow)
  }

  /** The builder's scan drops the pair exactly when a cell blocks it, and
      otherwise yields the capacity left by the bridges. */
  lemma {:induction false} ScanIsRoom(line: seq<Cell>, alongRow: bool, lo: nat, hi: nat)
    requires lo <= hi <= |line|
    ensures ScanUpTo(line, alongRow, lo, hi) == if Blocked(line, alongRow, lo, hi) then None else Some(Room(line, lo, hi))
  {
    if lo < hi {
      ScanIsRoom(line, alongRow, lo, hi - 1);
      if Blocked(line, alongRow, lo, hi - 1) {
        var k :| lo <= k < hi - 1 && k < |line| && Blocks(line[k], alongRow);
        assert lo <= k < hi && k < |line| && Blocks(line[k], alongRow);
      } else if !Blocks(line[hi - 1], alongRow) {
        assert !Blocked(line, alongRow, lo, hi) by {
          forall k | lo <= k < hi && k < |line|
            ensures !Blocks(line[k], alongRow)
          {
            if k < hi - 1 {
              assert !(lo <= k < hi - 1 && k < |line| && Blocks(line[k], alongRow));
            }
          }
        }
      } else {
        assert lo <= hi - 1 < hi && hi - 1 < |line| && Blocks(line[hi - 1], alongRow);
      }
    }
  }

  /** The capacity never exceeds `MAX_BRIDGE_SIZE`, nor what any bridge in
      range leaves, and it is one of those values. */
  lemma {:induction false} RoomBounds(line: seq<Cell>, lo: nat, hi: nat)
    requires lo <= hi <= |line|
    ensures Room(line, lo, hi) <= MAX_BRIDGE_SIZE
    ensures forall k :: lo <= k < hi && line[k].Bridge? ==> Room(line, lo, hi) <= MAX_BRIDGE_SIZE - line[k].bridgeCount
    ensures Room(line, lo, hi) == MAX_BRIDGE_SIZE
      || exists k :: lo <= k < hi && line[k].Bridge? && Room(line, lo, hi) == MAX_BRIDGE_SIZE - line[k].bridgeCount
  {
    if lo < hi {
      RoomBounds(line, lo, hi - 1);
    }
  }

  // ---------------------------------------------------------------------
  // Candidates of one line

  /** Positions `p < q` of a line hold islands, no island lies between them
      and no cell between them blocks the pair. */
  ghost predicate PairKept(line: seq<Cell>, alongRow: bool, p: nat, q: nat) {
    && p < q < |line| && line[p].Island? && line[q].Island?
    && (forall k :: p < k < q ==> !line[k].Island?)
    && !Blocked(line, alongRow, p + 1, q)
  }

  /** The candidate the builder forms for islands at positions `p` and `q`
      of line `fixed`: capped by the capacity between them and by both
      demands. */
  function PairCandidate(line: seq<Cell>, alongRow: bool, fixed: nat, p: nat, q: nat): Link
    requires p < q < |line| && line[p].Island? && line[q].Island?
  {
    PairAt(line, alongRow, fixed, p, q, Room(line, p + 1, q))
  }

  /** Pair `j` of the queue is kept exactly when the scan between its
      islands finds no blocking cell, and then it is that pair's candidate. */
  lemma PairLinkMeaning(line: seq<Cell>, alongRow: bool, fixed: nat, j: nat)
    requires j < PairCount(line)
    ensures var ps := IslandPositions(line, |line|);
      && ps[j] < ps[j + 1] < |line|
      && (PairLink(line, alongRow, fixed, j).Some? <==> PairKept(line, alongRow, ps[j], ps[j + 1]))
      && (PairLink(line, alongRow, fixed, j).Some? ==> PairLink(line, alongRow, fixed, j).value == PairCandidate(line, alongRow, fixed, ps[j], ps[j + 1]))
  {
    var ps := IslandPositions(line, |line|);
    IslandPositionsFacts(line, |line|);
    var p, q := ps[j], ps[j + 1];
    ScanIsRoom(line, alongRow, p + 1, q);
    forall k | p < k < q
      ensures !line[k].Island?
    {
      QueueGap(line, j, k);
    }
  }

  /** No island lies between consecutive entries of the queue. */
  lemma QueueGap(line: seq<Cell>, j: nat, k: nat)
    requires j < PairCount(line)
    requires IslandPositions(line, |line|)[j] < k < IslandPositions(line, |line|)[j + 1]
    ensures k < |line| && !line[k].Island?
  {
    var ps := IslandPositions(line, |line|);
    IslandPositionsFacts(line, |line|);
    GapFree(ps, j, k);
    IslandPositionsExact(line, |line|, k);
  }

  /** A value strictly between consecutive entries of an increasing
      sequence is not in it. */
  lemma GapFree(ps: seq<nat>, j: nat, x: nat)
    requires forall a, b :: 0 <= a < b < |ps| ==> ps[a] < ps[b]
    requires j + 1 < |ps| && ps[j] < x < ps[j + 1]
    ensures x !in ps
  {
    forall i | 0 <= i < |ps|
      ensures ps[i] != x
    {
      if i < j {
        assert ps[i] < ps[j];
      } else if i > j + 1 {
        assert ps[j + 1] < ps[i];
      }
    }
  }

  /** A kept pair of islands is some consecutive pair of the queue. */
  lemma KeptIsQueuePair(line: seq<Cell>, alongRow: bool, p: nat, q: nat) returns (j: nat)
    requires PairKept(line, alongRow, p, q)
    ensures j < PairCount(line)
    ensures IslandPositions(line, |line|)[j] == p && IslandPositions(line, |line|)[j + 1] == q
  {
    var ps := IslandPositions(line, |line|);
    IslandPositionsFacts(line, |line|);
    IslandPositionsComplete(line, |line|, p);
    IslandPositionsComplete(line, |line|, q);
    var a :| 0 <= a < |ps| && ps[a] == p;
    var b :| 0 <= b < |ps| && ps[b] == q;
    j := a;
  }

  /** A line pass offers exactly the candidates of the kept island pairs of
      the line. */
  lemma LineOffersMeaning(line: seq<Cell>, alongRow: bool, fixed: nat, l: Link)
    ensures Some(l) in LineOffers(line, alongRow, fixed) <==>
      exists p: nat, q: nat :: PairKept(line, alongRow, p, q) && l == PairCandidate(line, alongRow, fixed, p, q)
  {
    var ps := IslandPositions(line, |line|);
    var os := LineOffers(line, alongRow, fixed);
    if Some(l) in os {
      var j :| 0 <= j < |os| && os[j] == Some(l);
      PairLinkMeaning(line, alongRow, fixed, j);
      assert PairKept(line, alongRow, ps[j], ps[j + 1]);
    }
    if exists p: nat, q: nat :: PairKept(line, alongRow, p, q) && l == PairCandidate(line, alongRow, fixed, p, q) {
      var p: nat, q: nat :| PairKept(line, alongRow, p, q) && l == PairCandidate(line, alongRow, fixed, p, q);
      var j := KeptIsQueuePair(line, alongRow, p, q);
      PairLinkMeaning(line, alongRow, fixed, j);
      assert os[j] == Some(l);
    }
  }

  // ---------------------------------------------------------------------
  // Candidates of the whole grid

  /** The kept entries are the present ones. */
  lemma {:induction false} SomesElems<T>(os: seq<Option<T>>, x: T)
    ensures x in Somes(os) <==> Some(x) in os
  {
    if os != [] {
      var prev, last := os[..|os| - 1], os[|os| - 1];
      SomesElems(prev, x);
      assert os == prev + [last];
    }
  }

  /** An element of a flattened sequence comes from one of its parts. */
  lemma {:induction false} FlattenSource<T>(xss: seq<seq<T>>, x: T) returns (i: nat)
    requires x in Flatten(xss)
    ensures i < |xss| && x in xss[i]
  {
    var prev := xss[..|xss| - 1];
    assert Flatten(xss) == Flatten(prev) + xss[|xss| - 1];
    if x in xss[|xss| - 1] {
      i := |xss| - 1;
    } else {
      i := FlattenSource(prev, x);
      assert xss[i] == prev[i];
    }
  }

  /** Every element of a part is in the flattened sequence. */
  lemma {:induction false} FlattenHas<T>(xss: seq<seq<T>>, i: nat, x: T)
    requires i < |xss| && x in xss[i]
    ensures x in Flatten(xss)
  {
    var prev := xss[..|xss| - 1];
    assert Flatten(xss) == Flatten(prev) + xss[|xss| - 1];
    if i < |xss| - 1 {
      assert xss[i] == prev[i];
      FlattenHas(prev, i, x);
    }
  }

  /** A candidate of the builder: the kept pair of islands at positions `p`
      and `q` of row `fixed` (`alongRow`) or of column `fixed`. */
  ghost predicate IsCandidate(g: Grid, l: Link)
    requires Rectangular(g)
  {
    exists alongRow: bool, fixed: nat, p: nat, q: nat ::
      && (if alongRow then fixed < |g| else fixed < Width(g))
      && PairKept(LineOf(g, alongRow, fixed), alongRow, p, q)
      && l == PairCandidate(LineOf(g, alongRow, fixed), alongRow, fixed, p, q)
  }

  /** One line of a pass offers what its line of the grid offers. */
  lemma PassOffersAt(g: Grid, alongRow: bool, fixed: nat)
    requires Rectangular(g) && (if alongRow then fixed < |g| else fixed < Width(g))
    ensures fixed < |PassOffers(g, alongRow)|
    ensures PassOffers(g, alongRow)[fixed] == LineOffers(LineOf(g, alongRow, fixed), alongRow, fixed)
  {
  }

  /** Every candidate the builder offers is a kept pair of the grid. */
  lemma LinksSound(g: Grid, l: Link)
    requires Rectangular(g) && l in Links(g)
    ensures IsCandidate(g, l)
  {
    SomesElems(GridOffers(g), l);
    var alongRow := Some(l) in Flatten(PassOffers(g, true));
    var fixed := FlattenSource(PassOffers(g, alongRow), Some(l));
    assert if alongRow then fixed < |g| else fixed < Width(g);
    PassOffersAt(g, alongRow, fixed);
    var line := LineOf(g, alongRow, fixed);
    LineOffersMeaning(line, alongRow, fixed, l);
    var p: nat, q: nat :| PairKept(line, alongRow, p, q) && l == PairCandidate(line, alongRow, fixed, p, q);
  }

  /** Every kept pair of the grid is offered by the builder. */
  lemma LinksComplete(g: Grid, alongRow: bool, fixed: nat, p: nat, q: nat)
    requires Rectangular(g) && (if alongRow then fixed < |g| else fixed < Width(g))
    requires PairKept(LineOf(g, alongRow, fixed), alongRow, p, q)
    ensures PairCandidate(LineOf(g, alongRow, fixed), alongRow, fixed, p, q) in Links(g)
  {
    var line := LineOf(g, alongRow, fixed);
    var l := PairCandidate(line, alongRow, fixed, p, q);
    LineOffersMeaning(line, alongRow, fixed, l);
    PassOffersAt(g, alongRow, fixed);
    FlattenHas(PassOffers(g, alongRow), fixed, Some(l));
    SomesElems(GridOffers(g), l);
  }

  /** The builder offers exactly the candidates of the grid: the row pass
      those of the rows, the column pass those of the columns. */
  lemma LinksMeaning(g: Grid, l: Link)
    requires Rectangular(g)
    ensures l in Links(g) <==> IsCandidate(g, l)
  {
    if l in Links(g) {
      LinksSound(g, l);
    }
    if IsCandidate(g, l) {
      var alongRow: bool, fixed: nat, p: nat, q: nat :|
        && (if alongRow then fixed < |g| else fixed < Width(g))
        && PairKept(LineOf(g, alongRow, fixed), alongRow, p, q)
        && l == PairCandidate(LineOf(g, alongRow, fixed), alongRow, fixed, p, q);
      LinksComplete(g, alongRow, fixed, p, q);
    }
  }

  /** A candidate joins two islands of one row, left to right, or of one
      column, top to bottom; its capacity is at most `MAX_BRIDGE_SIZE` and
      at most either demand. */
  lemma CandidateShape(g: Grid, l: Link)
    requires Rectangular(g) && IsCandidate(g, l)
    ensures IslandAt(g, l.a) && IslandAt(g, l.b)
    ensures (l.a.row == l.b.row && l.a.col < l.b.col) || (l.a.col == l.b.col && l.a.row < l.b.row)
    ensures l.edge.start == CoordToId(l.a) && l.edge.end == CoordToId(l.b)
    ensures l.edge.maxWeight <= MAX_BRIDGE_SIZE
    ensures l.edge.maxWeight <= g[l.a.row][l.a.col].requestBridgeCount && l.edge.maxWeight <= g[l.b.row][l.b.col].requestBridgeCount
  {
    var alongRow: bool, fixed: nat, p: nat, q: nat :|
      && (if alongRow then fixed < |g| else fixed < Width(g))
      && PairKept(LineOf(g, alongRow, fixed), alongRow, p, q)
      && l == PairCandidate(LineOf(g, alongRow, fixed), alongRow, fixed, p, q);
    var line := LineOf(g, alongRow, fixed);
    LineCell(g, alongRow, fixed, p);
    LineCell(g, alongRow, fixed, q);
    RoomBounds(line, p + 1, q);
  }

  /** No island lies on a candidate strictly between its ends, and no
      cell there blocks it. */
  lemma CandidateClear(g: Grid, alongRow: bool, fixed: nat, p: nat, q: nat, k: nat)
    requires Rectangular(g) && (if alongRow then fixed < |g| else fixed < Width(g))
    requires PairKept(LineOf(g, alongRow, fixed), alongRow, p, q) && p < k < q
    ensures !IslandAt(g, At(alongRow, fixed, k))
    ensures var c := At(alongRow, fixed, k); !Blocks(g[c.row][c.col], alongRow)
  {
    var line := LineOf(g, alongRow, fixed);
    LineCell(g, alongRow, fixed, k);
    assert !line[k].Island?;
    assert !(p + 1 <= k < q && k < |line| && Blocks(line[k], alongRow));
  }

  // ---------------------------------------------------------------------
  // The adjacency lists

  /** Offering is adding the kept candidates. */
  lemma {:induction false} OffersLinks(adj: IdMap<seq<Edge>>, os: seq<Option<Link>>)
    ensures Offers(adj, os) == AddLinks(adj, Somes(os))
  {
    if os != [] {
      var prev, last := os[..|os| - 1], os[|os| - 1];
      OffersLinks(adj, prev);
      var s1, ls := Offers(adj, prev), Somes(prev);
      assert s1 == AddLinks(adj, ls);
      assert os == prev + [last];
      OffersSnoc(adj, prev, last);
      if last.Some? {
        assert Somes(os) == ls + [last.value];
        AddLinksSnoc(adj, ls, last.value);
      } else {
        assert Somes(os) == ls;
      }
    }
  }

  /** The builder adds every candidate of the grid, row pass first, to the
      empty lists of the nodes. */
  lemma BuiltAdjacency(g: Grid)
    requires Rectangular(g)
    ensures BuiltGraph(g).adjacencyList == AddLinks(EmptyLists(GridNodes(g, |g|)), Links(g))
  {
    OffersLinks(EmptyLists(GridNodes(g, |g|)), GridOffers(g));
  }

  /** `e` is how candidate `l` is stored under `x`: the edge itself under
      its start, the reversed copy under its end. */
  predicate StoredCopy(l: Link, x: NodeId, e: Edge) {
    (x == l.edge.start && e == l.edge) || (x == l.edge.end && e == Reversed(l.edge))
  }

  /** `l` is stored as `e` under `x`, and both its ends are registered. */
  ghost predicate StoredUnder(adj: IdMap<seq<Edge>>, l: Link, x: NodeId, e: Edge) {
    && l.edge.start in adj.values && l.edge.end in adj.values
    && StoredCopy(l, x, e)
  }

  /** Adding candidates only appends their stored copies to the lists. */
  lemma {:induction false} AddLinksEntries(adj: IdMap<seq<Edge>>, ls: seq<Link>, x: NodeId, e: Edge)
    requires x in adj.values
    ensures x in AddLinks(adj, ls).values
    ensures e in AddLinks(adj, ls).values[x] <==> e in adj.values[x] || exists l :: l in ls && StoredUnder(adj, l, x, e)
  {
    AddLinksDomain(adj, ls);
    if ls != [] {
      var prev, last := ls[..|ls| - 1], ls[|ls| - 1];
      AddLinksEntries(adj, prev, x, e);
      AddLinksDomain(adj, prev);
      var before, edge := AddLinks(adj, prev), last.edge;
      assert AddLinks(adj, ls) == WithEdge(before, edge);
      assert e in before.values[x] <==> e in adj.values[x] || exists l :: l in prev && StoredUnder(adj, l, x, e);
      WithEdgeLists(before, edge, x);
      assert e in WithEdge(before, edge).values[x] <==> e in before.values[x] || StoredUnder(adj, last, x, e);
      assert ls == prev + [last];
      if StoredUnder(adj, last, x, e) {
        assert last in ls;
      }
      if exists l :: l in prev && StoredUnder(adj, l, x, e) {
        var l :| l in prev && StoredUnder(adj, l, x, e);
        assert l in ls;
      }
      if exists l :: l in ls && StoredUnder(adj, l, x, e) {
        var l :| l in ls && StoredUnder(adj, l, x, e);
        assert l in prev || l == last;
      }
    }
  }

  lemma {:induction false} EmptyListsEmpty(ns: seq<Node>, x: NodeId)
    requires x in EmptyLists(ns).values
    ensures EmptyLists(ns).values[x] == []
  {
    var prev := ns[..|ns| - 1];
    if x in EmptyLists(prev).values && x != ns[|ns| - 1].id {
      EmptyListsEmpty(prev, x);
    }
  }

  /** Every entry of a built list is a stored copy of a candidate. */
  lemma BuiltEdgeSource(g: Grid, x: NodeId, e: Edge) returns (l: Link)
    requires Rectangular(g)
    requires x in BuiltGraph(g).adjacencyList.values && e in BuiltGraph(g).adjacencyList.values[x]
    ensures IsCandidate(g, l) && StoredCopy(l, x, e)
  {
    var ns := GridNodes(g, |g|);
    var empty := EmptyLists(ns);
    BuiltAdjacency(g);
    AddLinksDomain(empty, Links(g));
    AddLinksEntries(empty, Links(g), x, e);
    EmptyListsEmpty(ns, x);
    l :| l in Links(g) && StoredUnder(empty, l, x, e);
    LinksSound(g, l);
  }

  /** Every stored copy of a candidate is in the built list of its node. */
  lemma BuiltEdgeHas(g: Grid, l: Link, x: NodeId, e: Edge)
    requires Rectangular(g) && CoordsMatch(g)
    requires IsCandidate(g, l) && StoredCopy(l, x, e)
    ensures x in BuiltGraph(g).adjacencyList.values && e in BuiltGraph(g).adjacencyList.values[x]
  {
    var empty := EmptyLists(GridNodes(g, |g|));
    BuiltAdjacency(g);
    GridNodesRegistered(g);
    CandidateShape(g, l);
    assert StoredUnder(empty, l, x, e);
    AddLinksEntries(empty, Links(g), x, e);
    LinksMeaning(g, l);
  }

  /** The list of node `x` holds, for every candidate of the grid, its edge
      when `x` is the candidate's first island and the reversed copy when
      `x` is its second, and nothing else. */
  lemma BuiltGraphEdges(g: Grid, x: NodeId, e: Edge)
    requires Rectangular(g) && CoordsMatch(g)
    requires x in BuiltGraph(g).adjacencyList.values
    ensures e in BuiltGraph(g).adjacencyList.values[x] <==> exists l :: IsCandidate(g, l) && StoredCopy(l, x, e)
  {
    if e in BuiltGraph(g).adjacencyList.values[x] {
      var l := BuiltEdgeSource(g, x, e);
    }
    if exists l :: IsCandidate(g, l) && StoredCopy(l, x, e) {
      var l :| IsCandidate(g, l) && StoredCopy(l, x, e);
      BuiltEdgeHas(g, l, x, e);
    }
  }

  /** Adding candidates keeps every list mirrored. */
  lemma {:induction false} AddLinksMirrored(adj: IdMap<seq<Edge>>, ls: seq<Link>)
    requires Mirrored(adj)
    ensures Mirrored(AddLinks(adj, ls))
  {
    if ls != [] {
      AddLinksMirrored(adj, ls[..|ls| - 1]);
      WithEdgeMirrored(AddLinks(adj, ls[..|ls| - 1]), ls[|ls| - 1].edge);
    }
  }

  /** Every entry of a built list starts at the list's node and has its
      reversed copy in the list of its other end. */
  lemma BuiltGraphMirrored(g: Grid)
    requires Rectangular(g)
    ensures Mirrored(BuiltGraph(g).adjacencyList)
  {
    var ns := GridNodes(g, |g|);
    BuiltAdjacency(g);
    EmptyListsKeys(ns);
    forall x | x in EmptyLists(ns).values
      ensures EmptyLists(ns).values[x] == []
    {
      EmptyListsEmpty(ns, x);
    }
    AddLinksMirrored(EmptyLists(ns), Links(g));
  }

  // ---------------------------------------------------------------------
  // The nodes

  /** The node map registered for `ns` holds their ids, each mapped to a
      node of `ns` carrying it. */
  lemma {:induction false} NodeMapEntry(ns: seq<Node>, id: NodeId) returns (k: nat)
    requires id in NodeMap(ns).values
    ensures k < |ns| && ns[k].id == id && NodeMap(ns).values[id] == ns[k]
  {
    var prev := ns[..|ns| - 1];
    if id == ns[|ns| - 1].id {
      k := |ns| - 1;
    } else {
      k := NodeMapEntry(prev, id);
    }
  }

  /** The node map is keyed by the ids of `ns`, in registration order. */
  lemma {:induction false} NodeMapKeys(ns: seq<Node>)
    ensures WellKeyed(NodeMap(ns)) && NodeMap(ns).values.Keys == NodeIds(ns)
  {
    if ns != [] {
      var prev := ns[..|ns| - 1];
      NodeMapKeys(prev);
      PutKeys(NodeMap(prev), ns[|ns| - 1].id, ns[|ns| - 1]);
    }
  }

  /** Every node of a row is the node of one of its islands. */
  lemma {:induction false} RowNodesSource(row: seq<Cell>, n: nat, k: nat) returns (c: nat)
    requires n <= |row| && k < |RowNodes(row, n)|
    ensures c < n && row[c].Island? && RowNodes(row, n)[k] == IslandNode(row[c])
  {
    var prev := RowNodes(row, n - 1);
    if k < |prev| {
      c := RowNodesSource(row, n - 1, k);
    } else {
      c := n - 1;
    }
  }

  /** Every node of the grid is the node of one of its islands. */
  lemma {:induction false} GridNodesSource(g: Grid, n: nat, k: nat) returns (r: nat, c: nat)
    requires n <= |g| && k < |GridNodes(g, n)|
    ensures r < n && c < |g[r]| && g[r][c].Island? && GridNodes(g, n)[k] == IslandNode(g[r][c])
  {
    var prev := GridNodes(g, n - 1);
    if k < |prev| {
      r, c := GridNodesSource(g, n - 1, k);
    } else {
      r := n - 1;
      c := RowNodesSource(g[r], |g[r]|, k - |prev|);
    }
  }

  /** A registered node is the node of the island its id names. */
  lemma BuiltNodeSource(g: Grid, id: NodeId)
    requires Rectangular(g) && CoordsMatch(g)
    requires id in BuiltGraph(g).nodes.values
    ensures IslandAt(g, Coord(id.row, id.col))
    ensures BuiltGraph(g).nodes.values[id] == Node(id, g[id.row][id.col].requestBridgeCount)
  {
    var k := NodeMapEntry(GridNodes(g, |g|), id);
    var r, c := GridNodesSource(g, |g|, k);
    assert g[r][c].coord == Coord(r, c);
  }

  /** Every island's id is registered. */
  lemma BuiltNodeHas(g: Grid, c: Coord)
    requires Rectangular(g) && CoordsMatch(g) && IslandAt(g, c)
    ensures CoordToId(c) in BuiltGraph(g).nodes.values
  {
    GridNodesIds(g, |g|, c.row, c.col);
    NodeMapKeys(GridNodes(g, |g|));
  }

  /** There is one node per island: its id is the island's coordinate and
      its weight the island's demand; no other id is registered. */
  lemma BuiltGraphNodes(g: Grid, id: NodeId)
    requires Rectangular(g) && CoordsMatch(g)
    ensures id in BuiltGraph(g).nodes.values <==> IslandAt(g, Coord(id.row, id.col))
    ensures id in BuiltGraph(g).nodes.values ==> BuiltGraph(g).nodes.values[id] == Node(id, g[id.row][id.col].requestBridgeCount)
  {
    if id in BuiltGraph(g).nodes.values {
      BuiltNodeSource(g, id);
    }
    if IslandAt(g, Coord(id.row, id.col)) {
      BuiltNodeHas(g, Coord(id.row, id.col));
    }
  }

  // ---------------------------------------------------------------------
  // One candidate per pair of islands

  /** `x` comes before `y` in the order a pass visits positions: by line,
      then along the line. */
  predicate Before(x: Coord, y: Coord, alongRow: bool) {
    || Along(x, !alongRow) < Along(y, !alongRow)
    || (Along(x, !alongRow) == Along(y, !alongRow) && Along(x, alongRow) < Along(y, alongRow))
  }

  /** A candidate of the pass: both ends on one line, the first one
      earlier along it. */
  predicate InLine(l: Link, alongRow: bool) {
    Along(l.a, !alongRow) == Along(l.b, !alongRow) && Along(l.a, alongRow) < Along(l.b, alongRow)
  }

  /** Candidates whose first ends strictly ascend in pass order. */
  ghost predicate Ascending(ls: seq<Link>, alongRow: bool) {
    forall i, j :: 0 <= i < j < |ls| ==> Before(ls[i].a, ls[j].a, alongRow)
  }

  lemma {:induction false} SomesAppend<T>(xs: seq<Option<T>>, ys: seq<Option<T>>)
    ensures Somes(xs + ys) == Somes(xs) + Somes(ys)
  {
    if ys == [] {
      assert xs + ys == xs;
    } else {
      SomesAppend(xs, ys[..|ys| - 1]);
      assert (xs + ys)[..|xs + ys| - 1] == xs + ys[..|ys| - 1];
    }
  }

  /** Candidates of line `fixed`, ascending, all starting before position
      `bound` of it. */
  ghost predicate LineRun(ls: seq<Link>, alongRow: bool, fixed: int, bound: int) {
    && Ascending(ls, alongRow)
    && forall i :: 0 <= i < |ls| ==>
      InLine(ls[i], alongRow) && Along(ls[i].a, !alongRow) == fixed && Along(ls[i].a, alongRow) < bound
  }

  /** Candidates of the lines before line `n`, ascending. */
  ghost predicate PassRun(ls: seq<Link>, alongRow: bool, n: int) {
    && Ascending(ls, alongRow)
    && forall i :: 0 <= i < |ls| ==> InLine(ls[i], alongRow) && Along(ls[i].a, !alongRow) < n
  }

  /** A candidate starting at `bound` extends a run of its line. */
  lemma LineRunSnoc(ls: seq<Link>, l: Link, alongRow: bool, fixed: int, bound: int)
    requires LineRun(ls, alongRow, fixed, bound)
    requires InLine(l, alongRow) && Along(l.a, !alongRow) == fixed && Along(l.a, alongRow) == bound
    ensures LineRun(ls + [l], alongRow, fixed, Along(l.b, alongRow))
  {
    var zs := ls + [l];
    forall i, j | 0 <= i < j < |zs|
      ensures Before(zs[i].a, zs[j].a, alongRow)
    {
      assert zs[i] == ls[i];
      if j < |ls| {
        assert zs[j] == ls[j];
      }
    }
    forall i | 0 <= i < |zs|
      ensures InLine(zs[i], alongRow) && Along(zs[i].a, !alongRow) == fixed && Along(zs[i].a, alongRow) < Along(l.b, alongRow)
    {
      if i < |ls| {
        assert zs[i] == ls[i];
      }
    }
  }

  /** The run of line `n` follows the runs of the lines before it. */
  lemma PassRunJoin(xs: seq<Link>, ys: seq<Link>, alongRow: bool, n: int, bound: int)
    requires PassRun(xs, alongRow, n) && LineRun(ys, alongRow, n, bound)
    ensures PassRun(xs + ys, alongRow, n + 1)
  {
    var zs := xs + ys;
    forall i, j | 0 <= i < j < |zs|
      ensures Before(zs[i].a, zs[j].a, alongRow)
    {
      if j < |xs| {
        assert zs[i] == xs[i] && zs[j] == xs[j];
      } else if i < |xs| {
        assert zs[i] == xs[i] && zs[j] == ys[j - |xs|];
      } else {
        assert zs[i] == ys[i - |xs|] && zs[j] == ys[j - |xs|];
      }
    }
    forall i | 0 <= i < |zs|
      ensures InLine(zs[i], alongRow) && Along(zs[i].a, !alongRow) < n + 1
    {
      if i < |xs| {
        assert zs[i] == xs[i];
      } else {
        assert zs[i] == ys[i - |xs|];
      }
    }
  }

  /** The first `k` offers of a line yield an ascending run of candidates
      on that line, all starting before its `k`-th island. */
  lemma {:induction false} LinePrefixRun(line: seq<Cell>, alongRow: bool, fixed: int, k: nat)
    requires k <= PairCount(line) && k < |IslandPositions(line, |line|)|
    ensures LineRun(Somes(LineOffers(line, alongRow, fixed)[..k]), alongRow, fixed, IslandPositions(line, |line|)[k])
  {
    var os := LineOffers(line, alongRow, fixed);
    var ps := IslandPositions(line, |line|);
    if k > 0 {
      LinePrefixRun(line, alongRow, fixed, k - 1);
      var prev := Somes(os[..k - 1]);
      assert os[..k][..k - 1] == os[..k - 1];
      var ls := Somes(os[..k]);
      assert ls == prev + OptionList(os[k - 1]);
      PairLinkScan(line, alongRow, fixed, k - 1);
      if os[k - 1].Some? {
        var l := os[k - 1].value;
        assert l.a == At(alongRow, fixed, ps[k - 1]) && l.b == At(alongRow, fixed, ps[k]);
        LineRunSnoc(prev, l, alongRow, fixed, ps[k - 1]);
      } else {
        assert ls == prev;
      }
    } else {
      assert os[..k] == [];
    }
  }

  /** A line offers an ascending run of candidates on that line. */
  lemma LineRunAll(line: seq<Cell>, alongRow: bool, fixed: int) returns (bound: int)
    ensures LineRun(Somes(LineOffers(line, alongRow, fixed)), alongRow, fixed, bound)
  {
    var os := LineOffers(line, alongRow, fixed);
    var ps := IslandPositions(line, |line|);
    if |ps| == 0 {
      assert os == [];
      bound := 0;
    } else {
      LinePrefixRun(line, alongRow, fixed, PairCount(line));
      assert os[..PairCount(line)] == os;
      bound := ps[PairCount(line)];
    }
  }

  /** The first `n` lines of a pass yield an ascending run of candidates,
      each on one line before line `n`. */
  lemma {:induction false} PassPrefixRun(g: Grid, alongRow: bool, n: nat)
    requires Rectangular(g) && n <= |PassOffers(g, alongRow)|
    ensures PassRun(Somes(Flatten(PassOffers(g, alongRow)[..n])), alongRow, n)
  {
    var lines := PassOffers(g, alongRow);
    if n > 0 {
      PassPrefixRun(g, alongRow, n - 1);
      var before, last := Flatten(lines[..n - 1]), lines[n - 1];
      assert lines[..n] == lines[..n - 1] + [last];
      FlattenSnoc(lines[..n - 1], last);
      SomesAppend(before, last);
      PassOffersAt(g, alongRow, n - 1);
      var bound := LineRunAll(LineOf(g, alongRow, n - 1), alongRow, n - 1);
      PassRunJoin(Somes(before), Somes(last), alongRow, n - 1, bound);
    } else {
      assert lines[..n] == [];
    }
  }

  /** A whole pass yields an ascending run of candidates, each on one
      line. */
  lemma PassRunAll(g: Grid, alongRow: bool)
    requires Rectangular(g)
    ensures PassRun(Somes(Flatten(PassOffers(g, alongRow))), alongRow, |PassOffers(g, alongRow)|)
  {
    var lines := PassOffers(g, alongRow);
    PassPrefixRun(g, alongRow, |lines|);
    assert lines[..|lines|] == lines;
  }

  /** `l` and `m` join the same two islands, in either order. */
  predicate SameIslands(l: Link, m: Link) {
    (l.a == m.a && l.b == m.b) || (l.a == m.b && l.b == m.a)
  }

  /** No two candidates the builder offers join the same two islands: the
      row pass and the column pass each offer a pair of neighbours once,
      and no pair is both on a row and on a column. */
  lemma LinksDistinctPairs(g: Grid, i: nat, j: nat)
    requires Rectangular(g) && i < j < |Links(g)|
    ensures !SameIslands(Links(g)[i], Links(g)[j])
  {
    var rows, cols := PassOffers(g, true), PassOffers(g, false);
    PassRunAll(g, true);
    PassRunAll(g, false);
    SomesAppend(Flatten(rows), Flatten(cols));
    DistinctIn(Somes(Flatten(rows)), Somes(Flatten(cols)), |rows|, |cols|, i, j);
  }

  /** In a row run followed by a column run, no two entries join the same
      two islands. */
  lemma DistinctIn(xs: seq<Link>, ys: seq<Link>, nx: int, ny: int, i: nat, j: nat)
    requires PassRun(xs, true, nx) && PassRun(ys, false, ny)
    requires i < j < |xs + ys|
    ensures !SameIslands((xs + ys)[i], (xs + ys)[j])
  {
    var ls := xs + ys;
    if j < |xs| {
      assert ls[i] == xs[i] && ls[j] == xs[j];
      assert InLine(xs[i], true) && InLine(xs[j], true);
    } else if i < |xs| {
      assert ls[i] == xs[i] && ls[j] == ys[j - |xs|];
      assert InLine(xs[i], true) && InLine(ys[j - |xs|], false);
    } else {
      assert ls[i] == ys[i - |xs|] && ls[j] == ys[j - |xs|];
      assert InLine(ys[i - |xs|], false) && InLine(ys[j - |xs|], false);
    }
  }
}
