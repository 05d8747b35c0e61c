/** The scans `RecursiveChoiceAgent` makes over a graph
    (sol/agent/recursiveChoiceAgent.ts): collecting every adjacency entry
    (`getAllEdges`), the incident capacity of a node, and the forced-move
    and unsatisfiability test `isValidGameState`. */
module AgentScan {
  import opened Wrappers
  import opened GameModel
  import opened GameUtil
  import opened Graphs
  import opened GraphFacts

  // ---------------------------------------------------------------------
  // Every adjacency entry

  /** The list stored under `k`; none when `k` has no list. */
  function ListAt(adj: IdMap<seq<Edge>>, k: NodeId): seq<Edge> {
    if k in adj.values then adj.values[k] else []
  }

  /** The lists of the first `n` keys, concatenated in key order. */
  function ListsUpTo(adj: IdMap<seq<Edge>>, n: nat): seq<Edge>
    requires n <= |adj.keys|
  {
    if n == 0 then [] else ListsUpTo(adj, n - 1) + ListAt(adj, adj.keys[n - 1])
  }

  /** Every adjacency entry, list by list in key order. */
  function AllEdges(adj: IdMap<seq<Edge>>): seq<Edge> {
    ListsUpTo(adj, |adj.keys|)
  }

  /** `getAllEdges`: the lists concatenated in the map's iteration order. */
  method GetAllEdges(graph: Graph) returns (edges: seq<Edge>)
    ensures edges == AllEdges(graph.adjacencyList)
  {
    var adj := graph.adjacencyList;
    edges := [];
    for i := 0 to |adj.keys|
      invariant edges == ListsUpTo(adj, i)
    {
      edges := edges + ListAt(adj, adj.keys[i]);
    }
  }

  /** An entry is collected exactly when one of the first `n` lists holds
      it. */
  lemma {:induction false} ListsUpToMembers(adj: IdMap<seq<Edge>>, n: nat, e: Edge)
    requires n <= |adj.keys|
    ensures e in ListsUpTo(adj, n) <==> exists i :: 0 <= i < n && e in ListAt(adj, adj.keys[i])
  {
    if n > 0 {
      ListsUpToMembers(adj, n - 1, e);
      if e in ListAt(adj, adj.keys[n - 1]) {
        assert 0 <= n - 1 < n && e in ListAt(adj, adj.keys[n - 1]);
      }
      if exists i :: 0 <= i < n && e in ListAt(adj, adj.keys[i]) {
        var i :| 0 <= i < n && e in ListAt(adj, adj.keys[i]);
        if i < n - 1 {
          assert 0 <= i < n - 1 && e in ListAt(adj, adj.keys[i]);
        }
      }
    }
  }

  /** `getAllEdges` collects exactly the entries of the lists. */
  lemma AllEdgesMembers(adj: IdMap<seq<Edge>>, e: Edge)
    requires WellKeyed(adj)
    ensures e in AllEdges(adj) <==> exists x :: x in adj.values && e in adj.values[x]
  {
    ListsUpToMembers(adj, |adj.keys|, e);
    if e in AllEdges(adj) {
      var i :| 0 <= i < |adj.keys| && e in ListAt(adj, adj.keys[i]);
      assert adj.keys[i] in adj.values;
    }
    if exists x :: x in adj.values && e in adj.values[x] {
      var x :| x in adj.values && e in adj.values[x];
      assert x in adj.keys;
      var i :| 0 <= i < |adj.keys| && adj.keys[i] == x;
      assert e in ListAt(adj, adj.keys[i]);
    }
  }

  /** The built lists are keyed by the islands, in registration order. */
  lemma BuiltListsKeyed(g: Grid)
    requires Rectangular(g)
    ensures WellKeyed(BuiltGraph(g).adjacencyList)
  {
    var empty := EmptyLists(GridNodes(g, |g|));
    EmptyListsKeys(GridNodes(g, |g|));
    BuiltAdjacency(g);
    AddLinksKeys(empty, Links(g));
  }

  /** On a built graph `getAllEdges` yields, for every candidate, its edge
      and its reversed copy, and nothing else. */
  lemma BuiltEdgesMembers(g: Grid, e: Edge)
    requires Rectangular(g) && CoordsMatch(g)
    ensures e in AllEdges(BuiltGraph(g).adjacencyList) <==>
      exists l :: IsCandidate(g, l) && (e == l.edge || e == Reversed(l.edge))
  {
    var adj := BuiltGraph(g).adjacencyList;
    BuiltListsKeyed(g);
    AllEdgesMembers(adj, e);
    if e in AllEdges(adj) {
      var x :| x in adj.values && e in adj.values[x];
      var l := BuiltEdgeSource(g, x, e);
    }
    if exists l :: IsCandidate(g, l) && (e == l.edge || e == Reversed(l.edge)) {
      var l :| IsCandidate(g, l) && (e == l.edge || e == Reversed(l.edge));
      var x := if e == l.edge then l.edge.start else l.edge.end;
      assert StoredCopy(l, x, e);
      BuiltEdgeHas(g, l, x, e);
    }
  }

  /** No built entry joins a node to itself. */
  lemma BuiltEntryEnds(g: Grid, e: Edge)
    requires Rectangular(g) && CoordsMatch(g) && e in AllEdges(BuiltGraph(g).adjacencyList)
    ensures e.start != e.end
  {
    BuiltEdgesMembers(g, e);
    var l :| IsCandidate(g, l) && (e == l.edge || e == Reversed(l.edge));
    CandidateShape(g, l);
  }

  // ---------------------------------------------------------------------
  // Incident capacity

  predicate Touches(e: Edge, id: NodeId) {
    e.start == id || e.end == id
  }

  /** The entries of `es` touching `id`, in order. */
  function Touching(es: seq<Edge>, id: NodeId): seq<Edge> {
    if es == [] then []
    else Touching(es[..|es| - 1], id) + (if Touches(es[|es| - 1], id) then [es[|es| - 1]] else [])
  }

  /** The sum of the capacities of `es`. */
  function Total(es: seq<Edge>): int {
    if es == [] then 0 else Total(es[..|es| - 1]) + es[|es| - 1].maxWeight
  }

  lemma TouchingSnoc(es: seq<Edge>, e: Edge, id: NodeId)
    ensures Touching(es + [e], id) == Touching(es, id) + (if Touches(e, id) then [e] else [])
  {
    assert (es + [e])[..|es|] == es;
  }

  lemma TotalSnoc(es: seq<Edge>, e: Edge)
    ensures Total(es + [e]) == Total(es) + e.maxWeight
  {
    assert (es + [e])[..|es|] == es;
  }

  lemma {:induction false} TouchingAppend(xs: seq<Edge>, ys: seq<Edge>, id: NodeId)
    ensures Touching(xs + ys, id) == Touching(xs, id) + Touching(ys, id)
  {
    if ys == [] {
      assert xs + ys == xs;
    } else {
      var prev, last := ys[..|ys| - 1], ys[|ys| - 1];
      TouchingAppend(xs, prev, id);
      assert xs + ys == (xs + prev) + [last];
      TouchingSnoc(xs + prev, last, id);
    }
  }

  lemma {:induction false} TotalAppend(xs: seq<Edge>, ys: seq<Edge>)
    ensures Total(xs + ys) == Total(xs) + Total(ys)
  {
    if ys == [] {
      assert xs + ys == xs;
    } else {
      var prev, last := ys[..|ys| - 1], ys[|ys| - 1];
      TotalAppend(xs, prev);
      assert xs + ys == (xs + prev) + [last];
      TotalSnoc(xs + prev, last);
    }
  }

  /** The filter keeps exactly the entries touching `id`. */
  lemma {:induction false} TouchingMembers(es: seq<Edge>, id: NodeId, e: Edge)
    ensures e in Touching(es, id) <==> e in es && Touches(e, id)
  {
    if es != [] {
      var prev, last := es[..|es| - 1], es[|es| - 1];
      TouchingMembers(prev, id, e);
      assert es == prev + [last];
    }
  }

  lemma ScanStep(done: seq<Edge>, list: seq<Edge>, j: nat, id: NodeId)
    requires j < |list|
    ensures Touching(done + list[..j + 1], id) == Touching(done + list[..j], id) + (if Touches(list[j], id) then [list[j]] else [])
  {
    assert done + list[..j + 1] == (done + list[..j]) + [list[j]];
    TouchingSnoc(done + list[..j], list[j], id);
  }

  /** The entries of all lists touching `id`. */
  function Incident(adj: IdMap<seq<Edge>>, id: NodeId): seq<Edge> {
    Touching(AllEdges(adj), id)
  }

  /** The inner loops of `isValidGameState` for node `id`: every entry of
      every list touching `id`, in list order, and their capacity sum. */
  method IncidentEntries(graph: Graph, id: NodeId) returns (total: int, edges: seq<Edge>)
    ensures edges == Incident(graph.adjacencyList, id) && total == Total(edges)
  {
    var adj := graph.adjacencyList;
    total, edges := 0, [];
    for i := 0 to |adj.keys|
      invariant edges == Touching(ListsUpTo(adj, i), id) && total == Total(edges)
    {
      var list := ListAt(adj, adj.keys[i]);
      ghost var done := ListsUpTo(adj, i);
      assert done + list[..0] == done;
      for j := 0 to |list|
        invariant edges == Touching(done + list[..j], id) && total == Total(edges)
      {
        var edge := list[j];
        ScanStep(done, list, j, id);
        if edge.start == id || edge.end == id {
          TotalSnoc(edges, edge);
          total := total + edge.maxWeight;
          edges := edges + [edge];
        }
      }
      assert list[..|list|] == list;
    }
  }

  // ---------------------------------------------------------------------
  // The forced-move and unsatisfiability test

  /** What `isValidGameState` returns: `false` (no solution), the entries
      of a node whose demand its capacity exactly meets, or `true`. */
  datatype Verdict = Unsatisfiable | Forced(edges: seq<Edge>) | Open

  /** The verdict a node decides, if any: one with a positive weight and
      no more incident capacity than weight. */
  function NodeVerdict(adj: IdMap<seq<Edge>>, id: NodeId, weight: int): Option<Verdict> {
    var es := Incident(adj, id);
    if weight > 0 && Total(es) < weight then Some(Unsatisfiable)
    else if weight > 0 && Total(es) == weight then Some(Forced(es))
    else None
  }

  /** The scan of the nodes from position `i` on, in registration order:
      the first node that decides gives the verdict. */
  function VerdictFrom(nodes: IdMap<Node>, adj: IdMap<seq<Edge>>, i: nat): Verdict
    requires WellKeyed(nodes) && i <= |nodes.keys|
    decreases |nodes.keys| - i
  {
    if i == |nodes.keys| then Open
    else
      var id := nodes.keys[i];
      match NodeVerdict(adj, id, nodes.values[id].weight)
      case Some(v) => v
      case None => VerdictFrom(nodes, adj, i + 1)
  }

  /** `isValidGameState`. */
  method IsValidGameState(graph: Graph) returns (v: Verdict)
    requires WellKeyed(graph.nodes)
    ensures v == VerdictFrom(graph.nodes, graph.adjacencyList, 0)
  {
    var nodes := graph.nodes;
    var i := 0;
    while i < |nodes.keys|
      invariant 0 <= i <= |nodes.keys|
      invariant VerdictFrom(nodes, graph.adjacencyList, 0) == VerdictFrom(nodes, graph.adjacencyList, i)
    {
      var id := nodes.keys[i];
      var node := nodes.values[id];
      if node.weight > 0 {
        var total, edges := IncidentEntries(graph, id);
        if total < node.weight {
          return Unsatisfiable;
        } else if total == node.weight {
          return Forced(edges);
        }
      }
      i := i + 1;
    }
    return Open;
  }

  /** The node at position `i` lets the scan go on: it has no demand, or
      more incident capacity than demand. */
  ghost predicate Passes(nodes: IdMap<Node>, adj: IdMap<seq<Edge>>, i: nat)
    requires WellKeyed(nodes) && i < |nodes.keys|
  {
    var id := nodes.keys[i];
    nodes.values[id].weight <= 0 || Total(Incident(adj, id)) > nodes.values[id].weight
  }

  /** The verdict of the node at position `i` once it does not pass: no
      solution when its capacity falls short, otherwise its entries. */
  ghost function Failing(nodes: IdMap<Node>, adj: IdMap<seq<Edge>>, i: nat): Verdict
    requires WellKeyed(nodes) && i < |nodes.keys|
  {
    var id := nodes.keys[i];
    if Total(Incident(adj, id)) < nodes.values[id].weight then Unsatisfiable else Forced(Incident(adj, id))
  }

  lemma {:induction false} VerdictFromOpen(nodes: IdMap<Node>, adj: IdMap<seq<Edge>>, i: nat)
    requires WellKeyed(nodes) && i <= |nodes.keys|
    decreases |nodes.keys| - i
    ensures VerdictFrom(nodes, adj, i) == Open <==> forall j :: i <= j < |nodes.keys| ==> Passes(nodes, adj, j)
  {
    if i < |nodes.keys| {
      VerdictFromOpen(nodes, adj, i + 1);
      if !Passes(nodes, adj, i) {
        assert VerdictFrom(nodes, adj, i) == Failing(nodes, adj, i);
      }
    }
  }

  lemma {:induction false} VerdictFromDecided(nodes: IdMap<Node>, adj: IdMap<seq<Edge>>, i: nat)
    requires WellKeyed(nodes) && i <= |nodes.keys|
    decreases |nodes.keys| - i
    ensures VerdictFrom(nodes, adj, i) != Open ==>
      exists j :: i <= j < |nodes.keys| && !Passes(nodes, adj, j)
        && (forall k :: i <= k < j ==> Passes(nodes, adj, k))
        && VerdictFrom(nodes, adj, i) == Failing(nodes, adj, j)
  {
    if i < |nodes.keys| {
      if !Passes(nodes, adj, i) {
        assert VerdictFrom(nodes, adj, i) == Failing(nodes, adj, i);
      } else {
        assert VerdictFrom(nodes, adj, i) == VerdictFrom(nodes, adj, i + 1);
        VerdictFromDecided(nodes, adj, i + 1);
        if VerdictFrom(nodes, adj, i) != Open {
          var j :| i + 1 <= j < |nodes.keys| && !Passes(nodes, adj, j)
            && (forall k :: i + 1 <= k < j ==> Passes(nodes, adj, k))
            && VerdictFrom(nodes, adj, i + 1) == Failing(nodes, adj, j);
          assert forall k :: i <= k < j ==> Passes(nodes, adj, k);
        }
      }
    }
  }

  /** `isValidGameState` is `true` exactly when every node passes;
      otherwise the first node in registration order that does not pass
      decides: `false` when its capacity falls short of its weight, its
      incident entries when the capacity meets it exactly. */
  lemma VerdictMeaning(nodes: IdMap<Node>, adj: IdMap<seq<Edge>>)
    requires WellKeyed(nodes)
    ensures VerdictFrom(nodes, adj, 0) == Open <==> forall j :: 0 <= j < |nodes.keys| ==> Passes(nodes, adj, j)
    ensures VerdictFrom(nodes, adj, 0) != Open ==>
      exists j :: 0 <= j < |nodes.keys| && !Passes(nodes, adj, j)
        && (forall k :: 0 <= k < j ==> Passes(nodes, adj, k))
        && VerdictFrom(nodes, adj, 0) == Failing(nodes, adj, j)
  {
    VerdictFromOpen(nodes, adj, 0);
    VerdictFromDecided(nodes, adj, 0);
  }

  // ---------------------------------------------------------------------
  // The incident capacity of a built graph counts every candidate twice

  /** The capacity touching `id` in the first `n` lists, list by list. */
  function TouchSum(adj: IdMap<seq<Edge>>, id: NodeId, n: nat): int
    requires n <= |adj.keys|
  {
    if n == 0 then 0 else TouchSum(adj, id, n - 1) + Total(Touching(ListAt(adj, adj.keys[n - 1]), id))
  }

  /** The capacity touching `id` of two lists one after the other. */
  lemma TouchTotalAppend(xs: seq<Edge>, ys: seq<Edge>, id: NodeId)
    ensures Total(Touching(xs + ys, id)) == Total(Touching(xs, id)) + Total(Touching(ys, id))
  {
    TouchingAppend(xs, ys, id);
    TotalAppend(Touching(xs, id), Touching(ys, id));
  }

  /** The first `n` lists, one by one. */
  function ListsOf(adj: IdMap<seq<Edge>>, n: nat): (ls: seq<seq<Edge>>)
    requires n <= |adj.keys|
    ensures |ls| == n
  {
    if n == 0 then [] else ListsOf(adj, n - 1) + [ListAt(adj, adj.keys[n - 1])]
  }

  /** The capacities touching `id` of some lists, summed list by list. */
  function TouchTotals(ls: seq<seq<Edge>>, id: NodeId): int {
    if ls == [] then 0 else TouchTotals(ls[..|ls| - 1], id) + Total(Touching(ls[|ls| - 1], id))
  }

  lemma {:induction false} FlattenTouchTotals(ls: seq<seq<Edge>>, id: NodeId)
    ensures Total(Touching(Flatten(ls), id)) == TouchTotals(ls, id)
  {
    if ls != [] {
      var prev, last := ls[..|ls| - 1], ls[|ls| - 1];
      FlattenTouchTotals(prev, id);
      assert Flatten(ls) == Flatten(prev) + last;
      TouchTotalAppend(Flatten(prev), last, id);
    }
  }

  lemma {:induction false} ListsOfFlatten(adj: IdMap<seq<Edge>>, n: nat)
    requires n <= |adj.keys|
    ensures Flatten(ListsOf(adj, n)) == ListsUpTo(adj, n)
  {
    if n > 0 {
      ListsOfFlatten(adj, n - 1);
      FlattenSnoc(ListsOf(adj, n - 1), ListAt(adj, adj.keys[n - 1]));
    }
  }

  lemma {:induction false} TouchSumOf(adj: IdMap<seq<Edge>>, id: NodeId, n: nat)
    requires n <= |adj.keys|
    ensures TouchSum(adj, id, n) == TouchTotals(ListsOf(adj, n), id)
  {
    if n > 0 {
      TouchSumOf(adj, id, n - 1);
      assert ListsOf(adj, n)[..n - 1] == ListsOf(adj, n - 1);
    }
  }

  /** Summing list by list is summing the concatenated lists. */
  lemma TouchSumLists(adj: IdMap<seq<Edge>>, id: NodeId, n: nat)
    requires n <= |adj.keys|
    ensures TouchSum(adj, id, n) == Total(Touching(ListsUpTo(adj, n), id))
  {
    TouchSumOf(adj, id, n);
    ListsOfFlatten(adj, n);
    FlattenTouchTotals(ListsOf(adj, n), id);
  }

  /** Over all the lists, the sum is the incident capacity. */
  lemma TouchSumIncident(adj: IdMap<seq<Edge>>, id: NodeId)
    ensures TouchSum(adj, id, |adj.keys|) == Total(Incident(adj, id))
  {
    TouchSumLists(adj, id, |adj.keys|);
  }

  /** Two maps with the same keys whose first `n` lists agree have the same
      capacity touching `id` in those lists. */
  lemma {:induction false} AgreeingTouchSum(adj: IdMap<seq<Edge>>, adj': IdMap<seq<Edge>>, id: NodeId, n: nat)
    requires adj'.keys == adj.keys && n <= |adj.keys|
    requires forall i :: 0 <= i < n ==> ListAt(adj', adj.keys[i]) == ListAt(adj, adj.keys[i])
    ensures TouchSum(adj', id, n) == TouchSum(adj, id, n)
  {
    if n > 0 {
      AgreeingTouchSum(adj, adj', id, n - 1);
    }
  }

  /** Two maps with the same keys whose lists differ only at key position
      `p`: past `p`, the capacity touching `id` differs by the difference of
      those lists. */
  lemma {:induction false} ReplacedTouchSumAfter(adj: IdMap<seq<Edge>>, adj': IdMap<seq<Edge>>, id: NodeId, p: nat, list: seq<Edge>, n: nat)
    requires adj'.keys == adj.keys && p < n <= |adj.keys|
    requires ListAt(adj', adj.keys[p]) == list
    requires forall i :: 0 <= i < |adj.keys| && i != p ==> ListAt(adj', adj.keys[i]) == ListAt(adj, adj.keys[i])
    ensures TouchSum(adj', id, n) == TouchSum(adj, id, n) + Total(Touching(list, id)) - Total(Touching(ListAt(adj, adj.keys[p]), id))
  {
    if n == p + 1 {
      AgreeingTouchSum(adj, adj', id, p);
    } else {
      ReplacedTouchSumAfter(adj, adj', id, p, list, n - 1);
    }
  }

  /** Replacing the list at key position `p` changes the capacity touching
      `id` by the difference between the lists, once `p` is counted. */
  lemma PutTouchSum(adj: IdMap<seq<Edge>>, id: NodeId, p: nat, list: seq<Edge>, n: nat)
    requires WellKeyed(adj) && p < |adj.keys| && n <= |adj.keys|
    ensures Put(adj, adj.keys[p], list).keys == adj.keys
    ensures TouchSum(Put(adj, adj.keys[p], list), id, n) == TouchSum(adj, id, n)
      + (if p < n then Total(Touching(list, id)) - Total(Touching(adj.values[adj.keys[p]], id)) else 0)
  {
    var k := adj.keys[p];
    var adj' := Put(adj, k, list);
    assert k in adj.values;
    PutKeys(adj, k, list);
    forall i | 0 <= i < |adj.keys| && i != p
      ensures ListAt(adj', adj.keys[i]) == ListAt(adj, adj.keys[i])
    {
      assert adj.keys[i] != k;
    }
    if p < n {
      ReplacedTouchSumAfter(adj, adj', id, p, list, n);
    } else {
      AgreeingTouchSum(adj, adj', id, n);
    }
  }

  /** The position of a key of a well-keyed map. */
  lemma KeyPosition<V>(m: IdMap<V>, k: NodeId) returns (p: nat)
    requires WellKeyed(m) && k in m.values
    ensures p < |m.keys| && m.keys[p] == k
  {
    assert k in m.keys;
    var i :| 0 <= i < |m.keys| && m.keys[i] == k;
    p := i;
  }

  /** The capacity an entry adds to what touches `id`. */
  function Share(e: Edge, id: NodeId): int {
    if Touches(e, id) then e.maxWeight else 0
  }

  /** The capacity touching `id` grows by the share of an appended entry. */
  lemma ShareSnoc(es: seq<Edge>, e: Edge, id: NodeId)
    ensures Total(Touching(es + [e], id)) == Total(Touching(es, id)) + Share(e, id)
  {
    TouchingSnoc(es, e, id);
    if Touches(e, id) {
      TotalSnoc(Touching(es, id), e);
    } else {
      assert Touching(es, id) + [] == Touching(es, id);
    }
  }

  /** Appending `e` to the list at `k` raises the capacity touching `id`
      by the share of `e`. */
  lemma AppendTouchSum(adj: IdMap<seq<Edge>>, id: NodeId, k: NodeId, e: Edge)
    requires WellKeyed(adj) && k in adj.values
    ensures WellKeyed(Put(adj, k, adj.values[k] + [e])) && Put(adj, k, adj.values[k] + [e]).keys == adj.keys
    ensures Total(Incident(Put(adj, k, adj.values[k] + [e]), id)) == Total(Incident(adj, id)) + Share(e, id)
  {
    var p := KeyPosition(adj, k);
    PutKeys(adj, k, adj.values[k] + [e]);
    PutTouchSum(adj, id, p, adj.values[k] + [e], |adj.keys|);
    TouchSumIncident(adj, id);
    TouchSumIncident(Put(adj, k, adj.values[k] + [e]), id);
    ShareSnoc(adj.values[k], e, id);
  }

  /** `addEdge` of an edge between registered nodes raises the capacity
      touching `id` by twice the edge's share: once for the edge, once for
      its reversed copy. */
  lemma WithEdgeTouchSum(adj: IdMap<seq<Edge>>, id: NodeId, e: Edge)
    requires WellKeyed(adj) && e.start in adj.values && e.end in adj.values
    ensures WellKeyed(WithEdge(adj, e)) && WithEdge(adj, e).keys == adj.keys
    ensures Total(Incident(WithEdge(adj, e), id)) == Total(Incident(adj, id)) + 2 * Share(e, id)
  {
    var a1 := Put(adj, e.start, adj.values[e.start] + [e]);
    AppendTouchSum(adj, id, e.start, e);
    AppendTouchSum(a1, id, e.end, Reversed(e));
  }

  /** The edges of some candidates, in order. */
  function LinkEdges(ls: seq<Link>): seq<Edge> {
    if ls == [] then [] else LinkEdges(ls[..|ls| - 1]) + [ls[|ls| - 1].edge]
  }

  /** Both ends of every candidate in `ls` are among `ids`. */
  ghost predicate EndsAmong(ls: seq<Link>, ids: set<NodeId>) {
    forall l :: l in ls ==> l.edge.start in ids && l.edge.end in ids
  }

  lemma EndsAmongPrefix(ls: seq<Link>, ids: set<NodeId>)
    requires ls != [] && EndsAmong(ls, ids)
    ensures EndsAmong(ls[..|ls| - 1], ids)
    ensures ls[|ls| - 1].edge.start in ids && ls[|ls| - 1].edge.end in ids
  {
    assert forall l :: l in ls[..|ls| - 1] ==> l in ls;
    assert ls[|ls| - 1] in ls;
  }

  /** Adding candidates whose ends are registered raises the capacity
      touching `id` by twice their capacity touching `id`. */
  lemma {:induction false} AddLinksTouchSum(adj: IdMap<seq<Edge>>, id: NodeId, ls: seq<Link>)
    requires WellKeyed(adj) && EndsAmong(ls, adj.values.Keys)
    ensures Total(Incident(AddLinks(adj, ls), id)) == Total(Incident(adj, id)) + 2 * Total(Touching(LinkEdges(ls), id))
  {
    AddLinksKeys(adj, ls);
    if ls != [] {
      var prev, last := ls[..|ls| - 1], ls[|ls| - 1];
      EndsAmongPrefix(ls, adj.values.Keys);
      AddLinksTouchSum(adj, id, prev);
      AddLinksKeys(adj, prev);
      WithEdgeTouchSum(AddLinks(adj, prev), id, last.edge);
      ShareSnoc(LinkEdges(prev), last.edge, id);
    }
  }

  /** Freshly registered lists touch nothing. */
  lemma {:induction false} EmptyTouchSum(ns: seq<Node>, id: NodeId, n: nat)
    requires n <= |EmptyLists(ns).keys|
    ensures TouchSum(EmptyLists(ns), id, n) == 0
  {
    if n > 0 {
      EmptyTouchSum(ns, id, n - 1);
      var k := EmptyLists(ns).keys[n - 1];
      if k in EmptyLists(ns).values {
        EmptyListsEmpty(ns, k);
      }
    }
  }

  /** Both ends of every candidate are registered nodes. */
  lemma LinksEndsRegistered(g: Grid)
    requires Rectangular(g) && CoordsMatch(g)
    ensures EndsAmong(Links(g), EmptyLists(GridNodes(g, |g|)).values.Keys)
  {
    var empty := EmptyLists(GridNodes(g, |g|));
    EmptyListsKeys(GridNodes(g, |g|));
    GridNodesRegistered(g);
    forall l | l in Links(g)
      ensures l.edge.start in empty.values.Keys && l.edge.end in empty.values.Keys
    {
      LinksSound(g, l);
      CandidateShape(g, l);
    }
  }

  /** The incident total `isValidGameState` computes for a node of a built
      graph is twice the capacity of the candidates touching it, since
      every candidate sits in both its ends' lists. */
  lemma BuiltIncidentDoubled(g: Grid, id: NodeId)
    requires Rectangular(g) && CoordsMatch(g)
    ensures Total(Incident(BuiltGraph(g).adjacencyList, id)) == 2 * Total(Touching(LinkEdges(Links(g)), id))
  {
    var empty := EmptyLists(GridNodes(g, |g|));
    EmptyListsKeys(GridNodes(g, |g|));
    LinksEndsRegistered(g);
    BuiltAdjacency(g);
    AddLinksTouchSum(empty, id, Links(g));
    EmptyTouchSum(GridNodes(g, |g|), id, |empty.keys|);
    TouchSumIncident(empty, id);
  }
}
