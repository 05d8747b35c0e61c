/** The island graph of a grid (sol/common/graph.ts): node ids, the graph's
    two insertion-ordered maps, and the builder that turns a grid into
    island nodes and candidate edges. */
module Graphs {
  import opened Wrappers
  import opened Text
  import opened GameModel
  import opened GameUtil

  /** A node id. The source's ids are the text `r,c` of an island's
      coordinate; an id here is kept as that pair of numbers, and `IdText`
      gives its text. `IdTextInjective` shows that two ids with the same
      text are the same id, so maps keyed by ids are keyed by their text. */
  datatype NodeId = Id(row: int, col: int)

  /** The text of an id: `${r},${c}`. */
  function IdText(id: NodeId): string {
    IntToString(id.row) + "," + IntToString(id.col)
  }

  /** `coordToId`: the id of a coordinate. */
  function CoordToId(c: Coord): NodeId {
    Id(c.row, c.col)
  }

  datatype Node = Node(id: NodeId, weight: int)

  datatype Edge = Edge(start: NodeId, end: NodeId, maxWeight: int)

  /** Different ids have different texts. */
  lemma IdTextInjective(a: NodeId, b: NodeId)
    requires IdText(a) == IdText(b)
    ensures a == b
  {
    var ra, ca := IntToString(a.row), IntToString(a.col);
    var rb, cb := IntToString(b.row), IntToString(b.col);
    IntToStringChars(a.row);
    IntToStringChars(b.row);
    assert ',' !in ra && ',' !in rb;
    assert IdText(a) == ra + [','] + ca && IdText(b) == rb + [','] + cb;
    CutAtFirst(ra, ca, rb, cb, ',');
    IntToStringInjective(a.row, b.row);
    IntToStringInjective(a.col, b.col);
  }

  /** Different coordinates get different ids. */
  lemma CoordToIdInjective(a: Coord, b: Coord)
    requires IdText(CoordToId(a)) == IdText(CoordToId(b))
    ensures a == b
  {
    IdTextInjective(CoordToId(a), CoordToId(b));
  }

  // ---------------------------------------------------------------------
  // Insertion-ordered maps

  /** A JavaScript `Map` keyed by node id: its keys in insertion order and
      its contents. */
  datatype IdMap<V> = IdMap(keys: seq<NodeId>, values: map<NodeId, V>)

  /** The keys are distinct and are exactly the keys the map holds. */
  ghost predicate WellKeyed<V>(m: IdMap<V>) {
    && (forall i, j :: 0 <= i < j < |m.keys| ==> m.keys[i] != m.keys[j])
    && (forall k :: k in m.values <==> k in m.keys)
  }

  function EmptyIdMap<V>(): (m: IdMap<V>)
    ensures WellKeyed(m) && m.values.Keys == {}
  {
    IdMap([], map[])
  }

  /** `Map.prototype.set`: a new key goes last, a key already present keeps
      its place. */
  function Put<V>(m: IdMap<V>, k: NodeId, v: V): IdMap<V> {
    IdMap(m.keys + (if k in m.values then [] else [k]), m.values[k := v])
  }

  /** `set` keeps the keys distinct and in step with the contents, and
      leaves the order alone when the key is already present. */
  lemma PutKeys<V>(m: IdMap<V>, k: NodeId, v: V)
    ensures WellKeyed(m) ==> WellKeyed(Put(m, k, v))
    ensures Put(m, k, v).values.Keys == m.values.Keys + {k}
    ensures k in m.values && WellKeyed(m) ==> Put(m, k, v).keys == m.keys
  {
  }

  // ---------------------------------------------------------------------
  // The graph object

  /** The copy of `e` stored under its other end. */
  function Reversed(e: Edge): (r: Edge)
    ensures r.start == e.end && r.end == e.start && r.maxWeight == e.maxWeight
  {
    Edge(e.end, e.start, e.maxWeight)
  }

  /** The adjacency lists after `addEdge(e)` succeeds: `e` is appended to
      its start's list and its reversed copy to its end's. Nothing changes
      when an endpoint is not registered. */
  function WithEdge(adj: IdMap<seq<Edge>>, e: Edge): IdMap<seq<Edge>> {
    if e.start in adj.values && e.end in adj.values then
      var a1 := Put(adj, e.start, adj.values[e.start] + [e]);
      Put(a1, e.end, a1.values[e.end] + [Reversed(e)])
    else adj
  }

  /** Every entry of a list starts at the list's node, ends at a registered
      node, and has its mirror in that node's list. */
  ghost predicate Mirrored(adj: IdMap<seq<Edge>>) {
    forall x, e :: x in adj.values && e in adj.values[x] ==>
      e.start == x && e.end in adj.values && Reversed(e) in adj.values[e.end]
  }

  /** `Graph`: the nodes and their adjacency lists, both keyed by node id in
      insertion order. */
  class Graph {
    var nodes: IdMap<Node>
    var adjacencyList: IdMap<seq<Edge>>

    constructor ()
      ensures nodes == EmptyIdMap() && adjacencyList == EmptyIdMap()
    {
      nodes := EmptyIdMap();
      adjacencyList := EmptyIdMap();
    }

    /** `addNode`: registers the node and resets its adjacency list. */
    method AddNode(node: Node)
      modifies this
      ensures nodes == Put(old(nodes), node.id, node)
      ensures adjacencyList == Put(old(adjacencyList), node.id, [])
    {
      nodes := Put(nodes, node.id, node);
      adjacencyList := Put(adjacencyList, node.id, []);
    }

    /** `addEdge`: fails unless both endpoints are registered; otherwise
        stores the edge under its start and the reversed copy under its end. */
    method AddEdge(edge: Edge) returns (r: Result<(), string>)
      modifies this
      ensures nodes == old(nodes)
      ensures edge.start !in old(adjacencyList.values) ==>
        r == Err("No node found with id " + IdText(edge.start)) && adjacencyList == old(adjacencyList)
      ensures edge.start in old(adjacencyList.values) && edge.end !in old(adjacencyList.values) ==>
        r == Err("No node found with id " + IdText(edge.end)) && adjacencyList == old(adjacencyList)
      ensures edge.start in old(adjacencyList.values) && edge.end in old(adjacencyList.values) ==>
        r == Ok(()) && adjacencyList == WithEdge(old(adjacencyList), edge)
    {
      if edge.start !in adjacencyList.values {
        return Err("No node found with id " + IdText(edge.start));
      }
      if edge.end !in adjacencyList.values {
        return Err("No node found with id " + IdText(edge.end));
      }
      adjacencyList := Put(adjacencyList, edge.start, adjacencyList.values[edge.start] + [edge]);
      adjacencyList := Put(adjacencyList, edge.end, adjacencyList.values[edge.end] + [Reversed(edge)]);
      return Ok(());
    }
  }

  /** `WithEdge` keeps the keys distinct, in the same order. */
  lemma WithEdgeKeys(adj: IdMap<seq<Edge>>, e: Edge)
    requires WellKeyed(adj)
    ensures WellKeyed(WithEdge(adj, e)) && WithEdge(adj, e).keys == adj.keys
  {
  }

  /** A registered node keeps its list under `WithEdge`, apart from the
      new entries; the key set does not change. */
  lemma WithEdgeLists(adj: IdMap<seq<Edge>>, e: Edge, x: NodeId)
    ensures WithEdge(adj, e).values.Keys == adj.values.Keys
    ensures x in adj.values && e.start in adj.values && e.end in adj.values ==>
      WithEdge(adj, e).values[x] ==
        adj.values[x] + (if x == e.start then [e] else []) + (if x == e.end then [Reversed(e)] else [])
    ensures x in adj.values && !(e.start in adj.values && e.end in adj.values) ==>
      WithEdge(adj, e).values[x] == adj.values[x]
  {
  }

  /** `addEdge` keeps every list mirrored. */
  lemma WithEdgeMirrored(adj: IdMap<seq<Edge>>, e: Edge)
    requires Mirrored(adj)
    ensures Mirrored(WithEdge(adj, e))
  {
    var r := WithEdge(adj, e);
    if e.start in adj.values && e.end in adj.values {
      forall x, f | x in r.values && f in r.values[x]
        ensures f.start == x && f.end in r.values && Reversed(f) in r.values[f.end]
      {
        WithEdgeLists(adj, e, x);
        WithEdgeLists(adj, e, f.end);
        if f in adj.values[x] {
          WithEdgeLists(adj, e, f.end);
        }
      }
    }
  }

  /** `addNode` of a new id keeps every list mirrored. */
  lemma PutNewNodeMirrored(adj: IdMap<seq<Edge>>, id: NodeId)
    requires Mirrored(adj) && id !in adj.values
    ensures Mirrored(Put(adj, id, []))
  {
  }

  // ---------------------------------------------------------------------
  // What the builder computes

  /** `Math.min`. */
  function Min(a: int, b: int): (m: int)
    ensures m <= a && m <= b && (m == a || m == b)
  {
    if a < b then a else b
  }

  /** Row `fixed` for the row pass (`alongRow`), column `fixed` for the
      column pass. */
  function LineOf(g: Grid, alongRow: bool, fixed: nat): (line: seq<Cell>)
    requires Rectangular(g) && (if alongRow then fixed < |g| else fixed < Width(g))
    ensures |line| == if alongRow then Width(g) else |g|
  {
    if alongRow then g[fixed] else seq(|g|, r requires 0 <= r < |g| => g[r][fixed])
  }

  /** Position `p` of the line is the cell at `At(alongRow, fixed, p)`. */
  lemma LineCell(g: Grid, alongRow: bool, fixed: nat, p: nat)
    requires Rectangular(g) && (if alongRow then fixed < |g| else fixed < Width(g))
    requires p < |LineOf(g, alongRow, fixed)|
    ensures LineOf(g, alongRow, fixed)[p] == if alongRow then g[fixed][p] else g[p][fixed]
  {
  }

  /** The coordinate of position `p` on line `fixed`. */
  function At(alongRow: bool, fixed: int, p: int): Coord {
    if alongRow then Coord(fixed, p) else Coord(p, fixed)
  }

  /** The coordinate a line pass reads its positions from. */
  function Along(c: Coord, alongRow: bool): int {
    if alongRow then c.col else c.row
  }

  /** A cell between two islands that makes the pass drop the pair: on a
      row, a vertical bridge or a full one; on a column, a horizontal
      bridge. */
  predicate Blocks(cell: Cell, alongRow: bool) {
    cell.Bridge? && (if alongRow then cell.direction == Vertical || cell.bridgeCount >= MAX_BRIDGE_SIZE else cell.direction == Horizontal)
  }

  /** The scan of positions `lo` up to `k` (exclusive) of a line, the
      cells strictly between two islands: `None` when the pair is dropped,
      otherwise the capacity the crossed bridges leave, starting from
      `MAX_BRIDGE_SIZE`. */
  function ScanUpTo(line: seq<Cell>, alongRow: bool, lo: nat, k: nat): Option<int>
    requires lo <= k <= |line|
    decreases k
  {
    if k == lo then Some(MAX_BRIDGE_SIZE)
    else
      var prev := ScanUpTo(line, alongRow, lo, k - 1);
      var c := line[k - 1];
      if prev.None? || Blocks(c, alongRow) then None
      else if c.Bridge? then Some(Min(prev.value, MAX_BRIDGE_SIZE - c.bridgeCount))
      else prev
  }

  /** The pair is dropped exactly when some cell between blocks it; a kept
      pair's capacity is the least of `MAX_BRIDGE_SIZE` and what each
      crossed bridge leaves. */
  lemma {:induction false} ScanMeaning(line: seq<Cell>, alongRow: bool, lo: nat, hi: nat)
    requires lo <= hi <= |line|
    ensures var r := ScanUpTo(line, alongRow, lo, hi);
      && (r.None? <==> exists k :: lo <= k < hi && Blocks(line[k], alongRow))
      && (r.Some? ==> r.value <= MAX_BRIDGE_SIZE)
      && (r.Some? ==> forall k :: lo <= k < hi && line[k].Bridge? ==> r.value <= MAX_BRIDGE_SIZE - line[k].bridgeCount)
      && (r.Some? ==> r.value == MAX_BRIDGE_SIZE || exists k :: lo <= k < hi && line[k].Bridge? && r.value == MAX_BRIDGE_SIZE - line[k].bridgeCount)
  {
    if lo < hi {
      ScanMeaning(line, alongRow, lo, hi - 1);
    }
  }

  /** The positions of the islands among the first `n` cells of a line, in
      order. */
  function IslandPositions(line: seq<Cell>, n: nat): seq<nat>
    requires n <= |line|
  {
    if n == 0 then [] else IslandPositions(line, n - 1) + (if line[n - 1].Island? then [n - 1] else [])
  }

  /** The positions are islands, below `n`, strictly increasing. */
  lemma {:induction false} IslandPositionsFacts(line: seq<Cell>, n: nat)
    requires n <= |line|
    ensures forall k :: 0 <= k < |IslandPositions(line, n)| ==> IslandPositions(line, n)[k] < n && line[IslandPositions(line, n)[k]].Island?
    ensures forall a, b :: 0 <= a < b < |IslandPositions(line, n)| ==> IslandPositions(line, n)[a] < IslandPositions(line, n)[b]
  {
    if n > 0 {
      IslandPositionsFacts(line, n - 1);
      var prev, ps := IslandPositions(line, n - 1), IslandPositions(line, n);
      assert forall k :: 0 <= k < |prev| ==> ps[k] == prev[k];
    }
  }

  /** Every island below `n` is among the positions. */
  lemma {:induction false} IslandPositionsComplete(line: seq<Cell>, n: nat, p: nat)
    requires p < n <= |line| && line[p].Island?
    ensures p in IslandPositions(line, n)
  {
    if p < n - 1 {
      IslandPositionsComplete(line, n - 1, p);
    }
  }

  /** A position below `n` is among the positions exactly when it holds an
      island. */
  lemma IslandPositionsExact(line: seq<Cell>, n: nat, p: nat)
    requires p < n <= |line|
    ensures p in IslandPositions(line, n) <==> line[p].Island?
  {
    IslandPositionsFacts(line, n);
    if line[p].Island? {
      IslandPositionsComplete(line, n, p);
    }
  }

  /** The queue a line pass fills from the first `n` cells: the island
      cells, in order. */
  function IslandCells(line: seq<Cell>, n: nat): seq<Cell>
    requires n <= |line|
  {
    if n == 0 then [] else IslandCells(line, n - 1) + (if line[n - 1].Island? then [line[n - 1]] else [])
  }

  /** The queue holds the cells at the island positions. */
  lemma {:induction false} IslandCellsAt(line: seq<Cell>, n: nat)
    requires n <= |line|
    ensures |IslandCells(line, n)| == |IslandPositions(line, n)|
    ensures forall k :: 0 <= k < |IslandCells(line, n)| ==> IslandPositions(line, n)[k] < |line| && IslandCells(line, n)[k] == line[IslandPositions(line, n)[k]]
  {
    if n > 0 {
      IslandCellsAt(line, n - 1);
    }
  }

  /** The number of consecutive island pairs of a line. */
  function PairCount(line: seq<Cell>): nat {
    var m := |IslandPositions(line, |line|)|;
    if m == 0 then 0 else m - 1
  }

  /** A candidate edge between the islands at `a` and `b`, before the ids
      are formed; the coordinates are what the uniqueness argument needs. */
  datatype Link = Link(a: Coord, b: Coord, edge: Edge)

  function OptionList<T>(o: Option<T>): seq<T> {
    if o.Some? then [o.value] else []
  }

  /** The candidate between the islands at positions `p` and `q` of a line
      when the scan between them left room for `w` bridges: its capacity is
      also capped by both demands. */
  function PairAt(line: seq<Cell>, alongRow: bool, fixed: int, p: nat, q: nat, w: int): Link
    requires p < q < |line| && line[p].Island? && line[q].Island?
  {
    var a, b := At(alongRow, fixed, p), At(alongRow, fixed, q);
    Link(a, b, Edge(CoordToId(a), CoordToId(b), Min(w, Min(line[p].requestBridgeCount, line[q].requestBridgeCount))))
  }

  /** The candidate for the `j`-th consecutive island pair of a line: the
      scan between them decides whether it exists, and its capacity is also
      capped by both demands. */
  function PairLink(line: seq<Cell>, alongRow: bool, fixed: int, j: nat): Option<Link>
    requires j < PairCount(line)
  {
    IslandPositionsFacts(line, |line|);
    var ps := IslandPositions(line, |line|);
    var p, q := ps[j], ps[j + 1];
    match ScanUpTo(line, alongRow, p + 1, q)
    case None => None
    case Some(w) =>
      Some(PairAt(line, alongRow, fixed, p, q, w))
  }

  /** What a line pass offers, one entry per consecutive island pair. */
  function LineOffers(line: seq<Cell>, alongRow: bool, fixed: int): seq<Option<Link>> {
    seq(PairCount(line), j requires 0 <= j < PairCount(line) => PairLink(line, alongRow, fixed, j))
  }

  /** What a pass offers, line by line: every row (`alongRow`) or every
      column. */
  function PassOffers(g: Grid, alongRow: bool): seq<seq<Option<Link>>>
    requires Rectangular(g)
  {
    var count := if alongRow then |g| else Width(g);
    seq(count, i requires 0 <= i < count => LineOffers(LineOf(g, alongRow, i), alongRow, i))
  }

  function Flatten<T>(xss: seq<seq<T>>): seq<T> {
    if xss == [] then [] else Flatten(xss[..|xss| - 1]) + xss[|xss| - 1]
  }

  /** The values of the present entries, in order. */
  function Somes<T>(os: seq<Option<T>>): seq<T> {
    if os == [] then [] else Somes(os[..|os| - 1]) + OptionList(os[|os| - 1])
  }

  /** Everything the builder offers: the row pass, then the column pass. */
  function GridOffers(g: Grid): seq<Option<Link>>
    requires Rectangular(g)
  {
    Flatten(PassOffers(g, true)) + Flatten(PassOffers(g, false))
  }

  /** The candidates of the grid: the offered pairs that were kept. */
  function Links(g: Grid): seq<Link>
    requires Rectangular(g)
  {
    Somes(GridOffers(g))
  }

  /** The node of an island: id from its coordinate, weight its demand. */
  function IslandNode(cell: Cell): Node
    requires cell.Island?
  {
    Node(CoordToId(cell.coord), cell.requestBridgeCount)
  }

  /** The nodes of the islands among the first `n` cells of a row. */
  function RowNodes(row: seq<Cell>, n: nat): seq<Node>
    requires n <= |row|
  {
    if n == 0 then [] else RowNodes(row, n - 1) + (if row[n - 1].Island? then [IslandNode(row[n - 1])] else [])
  }

  /** The nodes of the first `n` rows, in row-major order. */
  function GridNodes(g: Grid, n: nat): seq<Node>
    requires n <= |g|
  {
    if n == 0 then [] else GridNodes(g, n - 1) + RowNodes(g[n - 1], |g[n - 1]|)
  }

  /** The node map after registering `ns` in order. */
  function NodeMap(ns: seq<Node>): IdMap<Node> {
    if ns == [] then EmptyIdMap() else Put(NodeMap(ns[..|ns| - 1]), ns[|ns| - 1].id, ns[|ns| - 1])
  }

  /** The adjacency lists after registering `ns` in order: all empty. */
  function EmptyLists(ns: seq<Node>): IdMap<seq<Edge>> {
    if ns == [] then EmptyIdMap() else Put(EmptyLists(ns[..|ns| - 1]), ns[|ns| - 1].id, [])
  }

  /** The adjacency lists after adding the candidates `ls` in order. */
  function AddLinks(adj: IdMap<seq<Edge>>, ls: seq<Link>): IdMap<seq<Edge>> {
    if ls == [] then adj else WithEdge(AddLinks(adj, ls[..|ls| - 1]), ls[|ls| - 1].edge)
  }

  /** Offering a candidate to the adjacency lists: its edge is added when
      the pair was kept. */
  function Offer(adj: IdMap<seq<Edge>>, o: Option<Link>): IdMap<seq<Edge>> {
    if o.Some? then WithEdge(adj, o.value.edge) else adj
  }

  /** The adjacency lists after the offers `os`, in order. */
  function Offers(adj: IdMap<seq<Edge>>, os: seq<Option<Link>>): IdMap<seq<Edge>> {
    if os == [] then adj else Offer(Offers(adj, os[..|os| - 1]), os[|os| - 1])
  }

  /** The two maps of a graph, as values. */
  datatype GraphView = GraphView(nodes: IdMap<Node>, adjacencyList: IdMap<seq<Edge>>)

  /** The graph `parseGameStateToGraph` builds from a grid with rows. */
  function BuiltGraph(g: Grid): GraphView
    requires Rectangular(g)
  {
    var ns := GridNodes(g, |g|);
    GraphView(NodeMap(ns), Offers(EmptyLists(ns), GridOffers(g)))
  }

  // ---------------------------------------------------------------------
  // The builder

  /** Every island of `g` has its id registered in `adj`. */
  ghost predicate IslandsRegistered(g: Grid, adj: IdMap<seq<Edge>>) {
    forall c :: IslandAt(g, c) ==> CoordToId(c) in adj.values
  }

  /** The message of the failure on a grid without rows. */
  const NoRowError := "Cannot read properties of undefined (reading 'length')"

  /** `parseGameStateToGraph`. A grid without rows makes the column pass
      read the width of a missing row 0, which fails. */
  method ParseGameStateToGraph(g: Grid) returns (r: Result<Graph, string>)
    requires Rectangular(g) && CoordsMatch(g)
    ensures |g| == 0 <==> r.Err?
    ensures r.Err? ==> r.error == NoRowError
    ensures r.Ok? ==> fresh(r.value)
    ensures r.Ok? ==> r.value.nodes == BuiltGraph(g).nodes && r.value.adjacencyList == BuiltGraph(g).adjacencyList
  {
    var graph := new Graph();
    AddIslandNodes(graph, g);
    ghost var ns := GridNodes(g, |g|);
    GridNodesRegistered(g);
    AddPass(graph, g, true);
    if |g| == 0 {
      return Err(NoRowError);
    }
    AddPass(graph, g, false);
    OffersAppend(EmptyLists(ns), Flatten(PassOffers(g, true)), Flatten(PassOffers(g, false)));
    return Ok(graph);
  }

  /** The row pass (`alongRow`) or the column pass of the builder: every
      row, or every column, in order. The column pass reads the width off
      row 0. */
  method AddPass(graph: Graph, g: Grid, alongRow: bool)
    requires Rectangular(g) && CoordsMatch(g) && (alongRow || |g| > 0)
    requires WellKeyed(graph.adjacencyList) && IslandsRegistered(g, graph.adjacencyList)
    modifies graph
    ensures graph.nodes == old(graph.nodes)
    ensures graph.adjacencyList == Offers(old(graph.adjacencyList), Flatten(PassOffers(g, alongRow)))
    ensures WellKeyed(graph.adjacencyList) && IslandsRegistered(g, graph.adjacencyList)
  {
    ghost var adj0 := graph.adjacencyList;
    ghost var lines := PassOffers(g, alongRow);
    var count := if alongRow then |g| else |g[0]|;
    for fixed := 0 to count
      invariant graph.nodes == old(graph.nodes)
      invariant graph.adjacencyList == Offers(adj0, Flatten(lines[..fixed]))
      invariant WellKeyed(graph.adjacencyList) && IslandsRegistered(g, graph.adjacencyList)
    {
      AddLineEdges(graph, g, alongRow, fixed);
      assert lines[..fixed + 1] == lines[..fixed] + [lines[fixed]];
      FlattenSnoc(lines[..fixed], lines[fixed]);
      OffersAppend(adj0, Flatten(lines[..fixed]), lines[fixed]);
    }
    assert lines[..count] == lines;
  }

  /** The node pass of the builder: one node per island, in row-major
      order, each with an empty adjacency list. */
  method AddIslandNodes(graph: Graph, g: Grid)
    requires graph.nodes == EmptyIdMap() && graph.adjacencyList == EmptyIdMap()
    modifies graph
    ensures graph.nodes == NodeMap(GridNodes(g, |g|)) && graph.adjacencyList == EmptyLists(GridNodes(g, |g|))
  {
    for i := 0 to |g|
      invariant graph.nodes == NodeMap(GridNodes(g, i)) && graph.adjacencyList == EmptyLists(GridNodes(g, i))
    {
      AddRowNodes(graph, g[i], GridNodes(g, i));
    }
  }

  /** One row of the node pass. */
  method AddRowNodes(graph: Graph, row: seq<Cell>, ghost pre: seq<Node>)
    requires graph.nodes == NodeMap(pre) && graph.adjacencyList == EmptyLists(pre)
    modifies graph
    ensures graph.nodes == NodeMap(pre + RowNodes(row, |row|))
    ensures graph.adjacencyList == EmptyLists(pre + RowNodes(row, |row|))
  {
    ghost var ns := pre;
    assert pre + RowNodes(row, 0) == pre;
    for j := 0 to |row|
      invariant ns == pre + RowNodes(row, j)
      invariant graph.nodes == NodeMap(ns) && graph.adjacencyList == EmptyLists(ns)
    {
      var cell := row[j];
      if cell.Island? {
        graph.AddNode(Node(CoordToId(cell.coord), cell.requestBridgeCount));
        RegisterSnoc(ns, IslandNode(cell));
        ns := ns + [IslandNode(cell)];
      }
    }
  }

  /** Registering one more node. */
  lemma RegisterSnoc(ns: seq<Node>, n: Node)
    ensures NodeMap(ns + [n]) == Put(NodeMap(ns), n.id, n)
    ensures EmptyLists(ns + [n]) == Put(EmptyLists(ns), n.id, [])
  {
    assert (ns + [n])[..|ns|] == ns;
  }

  /** `addEdgeBetweenIslands`: the edge between two islands, identified by
      their coordinates. Both are registered, so `addEdge` succeeds. */
  method AddEdgeBetweenIslands(graph: Graph, start: Cell, end: Cell, edgeWeight: int)
    requires WellKeyed(graph.adjacencyList)
    requires CoordToId(start.coord) in graph.adjacencyList.values && CoordToId(end.coord) in graph.adjacencyList.values
    modifies graph
    ensures graph.nodes == old(graph.nodes)
    ensures graph.adjacencyList == WithEdge(old(graph.adjacencyList), Edge(CoordToId(start.coord), CoordToId(end.coord), edgeWeight))
    ensures WellKeyed(graph.adjacencyList) && graph.adjacencyList.values.Keys == old(graph.adjacencyList.values.Keys)
  {
    var startId := CoordToId(start.coord);
    var endId := CoordToId(end.coord);
    var added := graph.AddEdge(Edge(startId, endId, edgeWeight));
    WithEdgeKeys(old(graph.adjacencyList), Edge(startId, endId, edgeWeight));
    WithEdgeLists(old(graph.adjacencyList), Edge(startId, endId, edgeWeight), startId);
  }

  /** The queue of a line pass: its islands, in order. */
  method CollectIslands(g: Grid, alongRow: bool, fixed: nat) returns (queue: seq<Cell>)
    requires Rectangular(g) && (if alongRow then fixed < |g| else fixed < Width(g))
    ensures queue == IslandCells(LineOf(g, alongRow, fixed), |LineOf(g, alongRow, fixed)|)
  {
    ghost var line := LineOf(g, alongRow, fixed);
    queue := [];
    var length := if alongRow then |g[0]| else |g|;
    for j := 0 to length
      invariant queue == IslandCells(line, j)
    {
      var inspectCell := if alongRow then g[fixed][j] else g[j][fixed];
      LineCell(g, alongRow, fixed, j);
      if inspectCell.Island? {
        queue := queue + [inspectCell];
      }
    }
  }

  /** One row (or column) of the builder: collect the islands of the line
      into a queue, then offer an edge for each consecutive pair the scan
      between them keeps. */
  method AddLineEdges(graph: Graph, g: Grid, alongRow: bool, fixed: nat)
    requires Rectangular(g) && CoordsMatch(g) && (if alongRow then fixed < |g| else fixed < Width(g))
    requires WellKeyed(graph.adjacencyList) && IslandsRegistered(g, graph.adjacencyList)
    modifies graph
    ensures graph.nodes == old(graph.nodes)
    ensures graph.adjacencyList == Offers(old(graph.adjacencyList), LineOffers(LineOf(g, alongRow, fixed), alongRow, fixed))
    ensures WellKeyed(graph.adjacencyList) && IslandsRegistered(g, graph.adjacencyList)
  {
    ghost var line := LineOf(g, alongRow, fixed);
    ghost var adj0 := graph.adjacencyList;
    ghost var offers := LineOffers(line, alongRow, fixed);
    var queue := CollectIslands(g, alongRow, fixed);
    IslandCellsAt(line, |line|);
    var j := 0;
    while j < |queue| - 1
      invariant 0 <= j <= PairCount(line)
      invariant graph.nodes == old(graph.nodes)
      invariant graph.adjacencyList == Offers(adj0, offers[..j])
      invariant WellKeyed(graph.adjacencyList) && IslandsRegistered(g, graph.adjacencyList)
    {
      OfferPair(graph, g, alongRow, fixed, queue, j);
      OffersSnoc(adj0, offers[..j], offers[j]);
      assert offers[..j + 1] == offers[..j] + [offers[j]];
      j := j + 1;
    }
    assert offers[..j] == offers;
  }

  /** The body of the pair loop of a line pass: scan between the `j`-th and
      next island of the queue and, when the scan keeps the pair, add its
      edge. */
  method OfferPair(graph: Graph, g: Grid, alongRow: bool, fixed: nat, queue: seq<Cell>, j: nat)
    requires Rectangular(g) && CoordsMatch(g) && (if alongRow then fixed < |g| else fixed < Width(g))
    requires queue == IslandCells(LineOf(g, alongRow, fixed), |LineOf(g, alongRow, fixed)|) && j < PairCount(LineOf(g, alongRow, fixed))
    requires WellKeyed(graph.adjacencyList) && IslandsRegistered(g, graph.adjacencyList)
    modifies graph
    ensures graph.nodes == old(graph.nodes)
    ensures graph.adjacencyList == Offer(old(graph.adjacencyList), PairLink(LineOf(g, alongRow, fixed), alongRow, fixed, j))
    ensures WellKeyed(graph.adjacencyList) && IslandsRegistered(g, graph.adjacencyList)
  {
    ghost var line := LineOf(g, alongRow, fixed);
    IslandCellsAt(line, |line|);
    var start, end := queue[j], queue[j + 1];
    PairFromQueue(g, alongRow, fixed, j, start, end, graph.adjacencyList);
    var flag, edgeWeight := ScanBetween(g, alongRow, fixed, Along(start.coord, alongRow) + 1, Along(end.coord, alongRow));
    ghost var ps := IslandPositions(line, |line|);
    ghost var p, q := ps[j], ps[j + 1];
    ghost var scan := ScanUpTo(line, alongRow, p + 1, q);
    assert flag == scan.Some?;
    ghost var link := PairLink(line, alongRow, fixed, j);
    PairLinkScan(line, alongRow, fixed, j);
    if flag {
      assert edgeWeight == scan.value;
      assert link.value == PairAt(line, alongRow, fixed, p, q, edgeWeight);
      AddEdgeBetweenIslands(graph, start, end, Min(edgeWeight, Min(start.requestBridgeCount, end.requestBridgeCount)));
    } else {
      assert link == None;
    }
  }

  lemma AddLinksSnoc(adj: IdMap<seq<Edge>>, ls: seq<Link>, l: Link)
    ensures AddLinks(adj, ls + [l]) == WithEdge(AddLinks(adj, ls), l.edge)
  {
    assert (ls + [l])[..|ls|] == ls;
  }

  /** What the loop body of a line pass needs about pair `j`: the queue
      entries are the islands at the pair's positions, both registered. */
  lemma PairFromQueue(g: Grid, alongRow: bool, fixed: nat, j: nat, start: Cell, end: Cell, adj: IdMap<seq<Edge>>)
    requires Rectangular(g) && CoordsMatch(g) && (if alongRow then fixed < |g| else fixed < Width(g))
    requires j < PairCount(LineOf(g, alongRow, fixed))
    requires var line := LineOf(g, alongRow, fixed);
      |IslandCells(line, |line|)| == |IslandPositions(line, |line|)|
      && start == IslandCells(line, |line|)[j] && end == IslandCells(line, |line|)[j + 1]
    requires IslandsRegistered(g, adj)
    ensures start.Island? && end.Island?
    ensures CoordToId(start.coord) in adj.values && CoordToId(end.coord) in adj.values
    ensures var line := LineOf(g, alongRow, fixed);
      var ps := IslandPositions(line, |line|);
      && j + 1 < |ps| && ps[j] < ps[j + 1] < |line|
      && start == line[ps[j]] && end == line[ps[j + 1]]
      && start.coord == At(alongRow, fixed, ps[j]) && end.coord == At(alongRow, fixed, ps[j + 1])
      && Along(start.coord, alongRow) == ps[j] && Along(end.coord, alongRow) == ps[j + 1]
  {
    var line := LineOf(g, alongRow, fixed);
    IslandPositionsFacts(line, |line|);
    IslandCellsAt(line, |line|);
    var ps := IslandPositions(line, |line|);
    var p, r := ps[j], ps[j + 1];
    LineCell(g, alongRow, fixed, p);
    LineCell(g, alongRow, fixed, r);
    assert start == line[p] && end == line[r];
    assert IslandAt(g, start.coord) && IslandAt(g, end.coord);
  }

  /** The candidate of pair `j` in terms of the scan between its
      positions. */
  lemma PairLinkScan(line: seq<Cell>, alongRow: bool, fixed: int, j: nat)
    requires j < PairCount(line)
    ensures var ps := IslandPositions(line, |line|);
      && j + 1 < |ps| && ps[j] < ps[j + 1] < |line| && line[ps[j]].Island? && line[ps[j + 1]].Island?
      && var scan := ScanUpTo(line, alongRow, ps[j] + 1, ps[j + 1]);
      && var link := PairLink(line, alongRow, fixed, j);
      && (link.Some? <==> scan.Some?)
      && (scan.Some? ==> link.value == PairAt(line, alongRow, fixed, ps[j], ps[j + 1], scan.value))
  {
    IslandPositionsFacts(line, |line|);
  }

  /** `c` is inside the grid and holds an island. */
  predicate IslandAt(g: Grid, c: Coord) {
    0 <= c.row < |g| && 0 <= c.col < |g[c.row]| && g[c.row][c.col].Island?
  }

  lemma OffersSnoc(adj: IdMap<seq<Edge>>, os: seq<Option<Link>>, o: Option<Link>)
    ensures Offers(adj, os + [o]) == Offer(Offers(adj, os), o)
  {
    assert (os + [o])[..|os|] == os;
  }

  /** Offering `xs + ys` is offering `xs`, then `ys`. */
  lemma {:induction false} OffersAppend(adj: IdMap<seq<Edge>>, xs: seq<Option<Link>>, ys: seq<Option<Link>>)
    ensures Offers(adj, xs + ys) == Offers(Offers(adj, xs), ys)
  {
    if ys == [] {
      assert xs + ys == xs;
    } else {
      var pre, last := ys[..|ys| - 1], ys[|ys| - 1];
      assert ys == pre + [last];
      assert xs + ys == (xs + pre) + [last];
      OffersAppend(adj, xs, pre);
      OffersSnoc(adj, xs + pre, last);
      OffersSnoc(Offers(adj, xs), pre, last);
    }
  }

  lemma FlattenSnoc<T>(xss: seq<seq<T>>, xs: seq<T>)
    ensures Flatten(xss + [xs]) == Flatten(xss) + xs
  {
    assert (xss + [xs])[..|xss|] == xss;
  }

  /** Adding `ls + ms` is adding `ls`, then `ms`. */
  lemma {:induction false} AddLinksAppend(adj: IdMap<seq<Edge>>, ls: seq<Link>, ms: seq<Link>)
    ensures AddLinks(adj, ls + ms) == AddLinks(AddLinks(adj, ls), ms)
  {
    if ms == [] {
      assert ls + ms == ls;
    } else {
      var pre, last := ms[..|ms| - 1], ms[|ms| - 1];
      assert ms == pre + [last];
      assert ls + ms == (ls + pre) + [last];
      AddLinksAppend(adj, ls, pre);
      AddLinksSnoc(adj, ls + pre, last);
      AddLinksSnoc(AddLinks(adj, ls), pre, last);
    }
  }

  /** Adding candidates changes neither the keys nor their order. */
  lemma {:induction false} AddLinksKeys(adj: IdMap<seq<Edge>>, ls: seq<Link>)
    requires WellKeyed(adj)
    ensures WellKeyed(AddLinks(adj, ls))
    ensures AddLinks(adj, ls).keys == adj.keys && AddLinks(adj, ls).values.Keys == adj.values.Keys
  {
    if ls != [] {
      AddLinksKeys(adj, ls[..|ls| - 1]);
      WithEdgeKeys(AddLinks(adj, ls[..|ls| - 1]), ls[|ls| - 1].edge);
      WithEdgeLists(AddLinks(adj, ls[..|ls| - 1]), ls[|ls| - 1].edge, Id(0, 0));
    }
  }

  /** Adding candidates does not change which ids have lists. */
  lemma {:induction false} AddLinksDomain(adj: IdMap<seq<Edge>>, ls: seq<Link>)
    ensures AddLinks(adj, ls).values.Keys == adj.values.Keys
  {
    if ls != [] {
      AddLinksDomain(adj, ls[..|ls| - 1]);
      WithEdgeLists(AddLinks(adj, ls[..|ls| - 1]), ls[|ls| - 1].edge, Id(0, 0));
    }
  }

  /** The ids of `ns`. */
  function NodeIds(ns: seq<Node>): set<NodeId> {
    if ns == [] then {} else NodeIds(ns[..|ns| - 1]) + {ns[|ns| - 1].id}
  }

  lemma {:induction false} NodeIdsAppend(a: seq<Node>, b: seq<Node>)
    ensures NodeIds(a + b) == NodeIds(a) + NodeIds(b)
  {
    if b == [] {
      assert a + b == a;
    } else {
      NodeIdsAppend(a, b[..|b| - 1]);
      assert (a + b)[..|a + b| - 1] == a + b[..|b| - 1];
    }
  }

  /** The lists registered for `ns` are keyed by their ids. */
  lemma {:induction false} EmptyListsKeys(ns: seq<Node>)
    ensures WellKeyed(EmptyLists(ns)) && EmptyLists(ns).values.Keys == NodeIds(ns)
  {
    if ns != [] {
      EmptyListsKeys(ns[..|ns| - 1]);
    }
  }

  lemma {:induction false} RowNodesIds(row: seq<Cell>, n: nat, c: nat)
    requires c < n <= |row| && row[c].Island?
    ensures CoordToId(row[c].coord) in NodeIds(RowNodes(row, n))
  {
    var last := if row[n - 1].Island? then [IslandNode(row[n - 1])] else [];
    NodeIdsAppend(RowNodes(row, n - 1), last);
    if c < n - 1 {
      RowNodesIds(row, n - 1, c);
    }
  }

  lemma {:induction false} GridNodesIds(g: Grid, n: nat, r: nat, c: nat)
    requires r < n <= |g| && c < |g[r]| && g[r][c].Island?
    ensures CoordToId(g[r][c].coord) in NodeIds(GridNodes(g, n))
  {
    NodeIdsAppend(GridNodes(g, n - 1), RowNodes(g[n - 1], |g[n - 1]|));
    if r < n - 1 {
      GridNodesIds(g, n - 1, r, c);
    } else {
      RowNodesIds(g[r], |g[r]|, c);
    }
  }

  /** After the node pass every island's id has an (empty) list. */
  lemma GridNodesRegistered(g: Grid)
    requires CoordsMatch(g)
    ensures WellKeyed(EmptyLists(GridNodes(g, |g|))) && IslandsRegistered(g, EmptyLists(GridNodes(g, |g|)))
  {
    var ns := GridNodes(g, |g|);
    EmptyListsKeys(ns);
    forall c | IslandAt(g, c)
      ensures CoordToId(c) in EmptyLists(ns).values
    {
      GridNodesIds(g, |g|, c.row, c.col);
    }
  }

  /** The scan loop between two islands of a line: stops at the first
      blocking bridge, otherwise lowers the capacity at every bridge. */
  method ScanBetween(g: Grid, alongRow: bool, fixed: nat, lo: int, hi: int) returns (flag: bool, edgeWeight: int)
    requires Rectangular(g) && (if alongRow then fixed < |g| else fixed < Width(g))
    requires 0 <= lo <= hi <= |LineOf(g, alongRow, fixed)|
    ensures flag == ScanUpTo(LineOf(g, alongRow, fixed), alongRow, lo, hi).Some?
    ensures flag ==> edgeWeight == ScanUpTo(LineOf(g, alongRow, fixed), alongRow, lo, hi).value
  {
    ghost var line := LineOf(g, alongRow, fixed);
    flag, edgeWeight := true, MAX_BRIDGE_SIZE;
    var k := lo;
    while k < hi
      invariant lo <= k <= hi
      invariant ScanUpTo(line, alongRow, lo, k) == Some(edgeWeight)
    {
      var inspectCell := if alongRow then g[fixed][k] else g[k][fixed];
      LineCell(g, alongRow, fixed, k);
      if alongRow && inspectCell.Bridge? && inspectCell.direction == Vertical {
        flag := false;
        break;
      }
      if alongRow && inspectCell.Bridge? && inspectCell.bridgeCount >= MAX_BRIDGE_SIZE {
        flag := false;
        break;
      }
      if !alongRow && inspectCell.Bridge? && inspectCell.direction == Horizontal {
        flag := false;
        break;
      }
      if inspectCell.Bridge? {
        edgeWeight := Min(edgeWeight, MAX_BRIDGE_SIZE - inspectCell.bridgeCount);
      }
      k := k + 1;
    }
    if !flag {
      ScanMeaning(line, alongRow, lo, hi);
    }
  }
}
