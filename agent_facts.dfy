/** What the recursive-choice agent promises over a run of moves on one
    state, and what it proposes on a board. */
module AgentFacts {
  import opened Wrappers
  import opened GameModel
  import opened GameUtil
  import opened Graphs
  import opened GraphFacts
  import opened AgentScan
  import opened AgentSubgraphs
  import opened AgentOrder
  import opened Agent

  // ---------------------------------------------------------------------
  // Repeated moves on one state

  /** What successive moves on one state share: its graph, its hash and
      the two abstract graph functions. */
  datatype Scene = Scene(view: GraphView, key: string, cross: (Edge, Edge, GraphView) -> bool,
                         subgraphsOf: GraphView -> seq<seq<nat>>)

  ghost predicate Ready(sc: Scene) {
    && WellKeyed(sc.view.nodes)
    && Positions(sc.subgraphsOf(sc.view), |AllEdges(sc.view.adjacencyList)|)
  }

  /** `step` is a move on the scene. */
  ghost predicate MovesOn(step: Memory -> Move, sc: Scene)
    requires Ready(sc)
  {
    forall mm :: step(mm) == GraphMove(mm, sc.view, sc.key, sc.cross, sc.subgraphsOf)
  }

  /** The replies of `n` successive moves, and the memory they leave. */
  datatype Trace = Trace(replies: seq<Result<seq<Operation>, string>>, memory: Memory)

  function Run(m: Memory, step: Memory -> Move, n: nat): (t: Trace)
    ensures |t.replies| == n
  {
    if n == 0 then Trace([], m)
    else
      var t := Run(m, step, n - 1);
      Trace(t.replies + [step(t.memory).result], step(t.memory).after)
  }

  /** Later moves do not change an earlier reply. */
  lemma {:induction false} RunPrefix(m: Memory, step: Memory -> Move, n: nat, k: nat)
    requires k < n
    ensures Run(m, step, n).replies[k] == Run(m, step, k + 1).replies[k]
  {
    if k < n - 1 {
      RunPrefix(m, step, n - 1, k);
    }
  }

  /** A forced state's batch comes once: the first move returns one
      single-bridge operation per incident entry and stores the hash as
      -1; every later move on it returns nothing and changes nothing. */
  lemma {:induction false} ForcedOnce(m: Memory, sc: Scene, step: Memory -> Move, n: nat, es: seq<Edge>)
    requires Ready(sc) && MovesOn(step, sc)
    requires VerdictFrom(sc.view.nodes, sc.view.adjacencyList, 0) == Forced(es) && sc.key !in m.choiceHistory
    requires n >= 1
    ensures Run(m, step, n).replies[0] == Ok(Operations(es))
    ensures forall k :: 1 <= k < n ==> Run(m, step, n).replies[k] == Ok([])
    ensures Run(m, step, n).memory == Memory(m.choiceHistory[sc.key := -1], m.currentChoiceIndex)
  {
    var t := Run(m, step, n - 1);
    if n > 1 {
      ForcedOnce(m, sc, step, n - 1, es);
    }
    assert step(t.memory) == GraphMove(t.memory, sc.view, sc.key, sc.cross, sc.subgraphsOf);
  }

  /** A state that no move can act on: no solution, or no entries. */
  ghost predicate Idle(view: GraphView)
    requires WellKeyed(view.nodes)
  {
    || VerdictFrom(view.nodes, view.adjacencyList, 0) == Unsatisfiable
    || (VerdictFrom(view.nodes, view.adjacencyList, 0) == Open && AllEdges(view.adjacencyList) == [])
  }

  /** On such a state every move returns nothing and leaves the memory as
      it was. */
  lemma {:induction false} IdleQuiet(m: Memory, sc: Scene, step: Memory -> Move, n: nat)
    requires Ready(sc) && MovesOn(step, sc) && Idle(sc.view)
    ensures forall k :: 0 <= k < n ==> Run(m, step, n).replies[k] == Ok([])
    ensures Run(m, step, n).memory == m
  {
    if n > 0 {
      IdleQuiet(m, sc, step, n - 1);
      assert step(m) == GraphMove(m, sc.view, sc.key, sc.cross, sc.subgraphsOf);
    }
  }

  /** The reply for the candidate at `index`: one single bridge, or nothing
      once the candidates are used up. */
  function Proposal(ranked: seq<Edge>, index: nat): Result<seq<Operation>, string> {
    if index < |ranked| then Ok([EdgeToOperation(ranked[index])]) else Ok([])
  }

  /** The state moves pass through: every node passes, every subgraph
      passes and there is an entry. */
  ghost predicate Choosing(sc: Scene)
    requires Ready(sc)
  {
    var groups := SubgraphEdges(AllEdges(sc.view.adjacencyList), sc.subgraphsOf(sc.view));
    && VerdictFrom(sc.view.nodes, sc.view.adjacencyList, 0) == Open
    && (forall k :: 0 <= k < |groups| ==> SubgraphPasses(groups[k]))
    && AllEdges(sc.view.adjacencyList) != []
  }

  /** A move on such a state tries the index `Advance` gives. */
  lemma ChoosingMove(m: Memory, sc: Scene)
    requires Ready(sc) && Choosing(sc) && Advance(m, sc.key).currentChoiceIndex >= 0
    ensures GraphMove(m, sc.view, sc.key, sc.cross, sc.subgraphsOf)
      == Move(Proposal(Ranked(sc.view, sc.cross, sc.subgraphsOf), Advance(m, sc.key).currentChoiceIndex), Advance(m, sc.key))
  {
  }

  /** `step` tries, for the hash `key`, the candidate of `ranked` at the
      index `Advance` gives. */
  ghost predicate Advances(step: Memory -> Move, key: string, ranked: seq<Edge>) {
    forall mm :: Advance(mm, key).currentChoiceIndex >= 0 ==>
      step(mm) == Move(Proposal(ranked, Advance(mm, key).currentChoiceIndex), Advance(mm, key))
  }

  lemma ChoosingAdvances(sc: Scene, step: Memory -> Move)
    requires Ready(sc) && MovesOn(step, sc) && Choosing(sc)
    ensures Advances(step, sc.key, Ranked(sc.view, sc.cross, sc.subgraphsOf))
  {
    forall mm | Advance(mm, sc.key).currentChoiceIndex >= 0
      ensures step(mm) == Move(Proposal(Ranked(sc.view, sc.cross, sc.subgraphsOf), Advance(mm, sc.key).currentChoiceIndex), Advance(mm, sc.key))
    {
      ChoosingMove(mm, sc);
    }
  }

  /** After `n` moves on a new hash, it holds `n - 1` and the last move
      tried index `n - 2`, or 0 for the first. Other hashes are kept. */
  lemma {:induction false} ChoiceMemory(m: Memory, key: string, ranked: seq<Edge>, step: Memory -> Move, n: nat)
    requires Advances(step, key, ranked) && key !in m.choiceHistory
    requires n >= 1
    ensures Run(m, step, n).memory == Memory(m.choiceHistory[key := n - 1], if n == 1 then 0 else n - 2)
  {
    var before := Run(m, step, n - 1).memory;
    if n > 1 {
      ChoiceMemory(m, key, ranked, step, n - 1);
      assert Advance(before, key) == Memory(m.choiceHistory[key := n - 1], n - 2);
    }
  }

  /** Move `k` (from 0) on a new hash tries index `k - 1`, or 0 for the
      first. */
  lemma ChoiceReplies(m: Memory, key: string, ranked: seq<Edge>, step: Memory -> Move, n: nat, k: nat)
    requires Advances(step, key, ranked) && key !in m.choiceHistory
    requires k < n
    ensures Run(m, step, n).replies[k] == Proposal(ranked, if k == 0 then 0 else k - 1)
  {
    RunPrefix(m, step, n, k);
    var before := Run(m, step, k).memory;
    if k > 0 {
      ChoiceMemory(m, key, ranked, step, k);
      assert Advance(before, key).currentChoiceIndex == k - 1;
    }
  }

  /** Successive moves on a new open state try the ranked candidates at
      indices 0, 0, 1, 2, …, one single bridge each, and nothing once the
      candidates are used up; after `n` of them the hash holds `n - 1`. */
  lemma ChoiceSequence(m: Memory, sc: Scene, step: Memory -> Move, n: nat)
    requires Ready(sc) && MovesOn(step, sc) && Choosing(sc) && sc.key !in m.choiceHistory
    requires n >= 1
    ensures forall k :: 0 <= k < n ==>
      Run(m, step, n).replies[k] == Proposal(Ranked(sc.view, sc.cross, sc.subgraphsOf), if k == 0 then 0 else k - 1)
    ensures Run(m, step, n).memory == Memory(m.choiceHistory[sc.key := n - 1], if n == 1 then 0 else n - 2)
  {
    var ranked := Ranked(sc.view, sc.cross, sc.subgraphsOf);
    ChoosingAdvances(sc, step);
    ChoiceMemory(m, sc.key, ranked, step, n);
    forall k | 0 <= k < n
      ensures Run(m, step, n).replies[k] == Proposal(ranked, if k == 0 then 0 else k - 1)
    {
      ChoiceReplies(m, sc.key, ranked, step, n, k);
    }
  }

  // ---------------------------------------------------------------------
  // Moves on a board

  /** The entries a forced verdict carries are entries of the graph. */
  lemma {:induction false} ForcedEntries(nodes: IdMap<Node>, adj: IdMap<seq<Edge>>, i: nat, e: Edge)
    requires WellKeyed(nodes) && i <= |nodes.keys|
    requires VerdictFrom(nodes, adj, i).Forced? && e in VerdictFrom(nodes, adj, i).edges
    ensures e in AllEdges(adj)
    decreases |nodes.keys| - i
  {
    var id := nodes.keys[i];
    if NodeVerdict(adj, id, nodes.values[id].weight).None? {
      ForcedEntries(nodes, adj, i + 1, e);
    } else {
      TouchingMembers(AllEdges(adj), id, e);
    }
  }

  /** The operation made from an entry of a built graph is a single bridge
      between the two islands of one of the builder's candidates. */
  lemma EntryOperation(g: Grid, e: Edge)
    requires Rectangular(g) && CoordsMatch(g) && e in AllEdges(BuiltGraph(g).adjacencyList)
    ensures exists l :: (IsCandidate(g, l) &&
      (EdgeToOperation(e) == Operation(l.a, l.b, 1) || EdgeToOperation(e) == Operation(l.b, l.a, 1)))
  {
    BuiltEdgesMembers(g, e);
    var l :| IsCandidate(g, l) && (e == l.edge || e == Reversed(l.edge));
    CandidateShape(g, l);
  }

  /** On a built graph the subgraph test never stops a move. */
  lemma SubgraphTestIdle(g: Grid, subgraphsOf: GraphView -> seq<seq<nat>>)
    requires Rectangular(g) && CoordsMatch(g) && Fits(g, subgraphsOf)
    ensures var groups := SubgraphEdges(AllEdges(BuiltGraph(g).adjacencyList), subgraphsOf(BuiltGraph(g)));
      forall k :: 0 <= k < |groups| ==> SubgraphPasses(groups[k])
  {
    var edges := AllEdges(BuiltGraph(g).adjacencyList);
    var groups := SubgraphEdges(edges, subgraphsOf(BuiltGraph(g)));
    forall k, e | 0 <= k < |groups| && e in groups[k]
      ensures e in edges
    {
      var t :| 0 <= t < |groups[k]| && groups[k][t] == e;
    }
    BuiltAlwaysPasses(g, groups);
  }

  /** Every operation a move on a graph proposes is the operation of one
      of its entries. */
  lemma GraphMoveEntries(m: Memory, view: GraphView, key: string, cross: (Edge, Edge, GraphView) -> bool,
                         subgraphsOf: GraphView -> seq<seq<nat>>, op: Operation)
    requires WellKeyed(view.nodes)
    requires Positions(subgraphsOf(view), |AllEdges(view.adjacencyList)|)
    requires GraphMove(m, view, key, cross, subgraphsOf).result.Ok?
    requires op in GraphMove(m, view, key, cross, subgraphsOf).result.value
    ensures exists e :: e in AllEdges(view.adjacencyList) && op == EdgeToOperation(e)
  {
    var edges := AllEdges(view.adjacencyList);
    var v := VerdictFrom(view.nodes, view.adjacencyList, 0);
    var ops := GraphMove(m, view, key, cross, subgraphsOf).result.value;
    if v.Forced? {
      assert ops == Operations(v.edges);
      var i :| 0 <= i < |v.edges| && ops[i] == op;
      ForcedEntries(view.nodes, view.adjacencyList, 0, v.edges[i]);
    } else {
      assert v.Open?;
      var ranked := Ranked(view, cross, subgraphsOf);
      var index := Advance(m, key).currentChoiceIndex;
      assert OpenMove(m, view, key, cross, subgraphsOf).result.value == ops;
      assert 0 <= index < |ranked| && op == EdgeToOperation(ranked[index]);
      OrderedGroupsBelow(subgraphsOf(view), CrossCounts(edges, cross, view), |edges|);
      assert ranked[index] in edges;
    }
  }

  /** Every operation a move proposes on a board is a single bridge between
      two islands that one of the builder's candidates joins. */
  lemma ProposalsAreCandidates(m: Memory, g: Grid, hash: Grid -> string, cross: (Edge, Edge, GraphView) -> bool,
                               subgraphsOf: GraphView -> seq<seq<nat>>, op: Operation)
    requires Rectangular(g) && CoordsMatch(g) && Fits(g, subgraphsOf)
    requires Decide(m, g, hash, cross, subgraphsOf).result.Ok? && op in Decide(m, g, hash, cross, subgraphsOf).result.value
    ensures op.bridge == 1
    ensures exists l :: IsCandidate(g, l) && (op == Operation(l.a, l.b, 1) || op == Operation(l.b, l.a, 1))
  {
    NodeMapKeys(GridNodes(g, |g|));
    assert Decide(m, g, hash, cross, subgraphsOf) == GraphMove(m, BuiltGraph(g), hash(g), cross, subgraphsOf);
    GraphMoveEntries(m, BuiltGraph(g), hash(g), cross, subgraphsOf, op);
    var e :| e in AllEdges(BuiltGraph(g).adjacencyList) && op == EdgeToOperation(e);
    EntryOperation(g, e);
  }
}
