/** `checkSubgraphsForEarlyReturn` (sol/agent/recursiveChoiceAgent.ts):
    for each subgraph, the capacities of its entries credited to both ends,
    the two-node balance test and the weight-sum test. */
module AgentSubgraphs {
  import opened Wrappers
  import opened GameModel
  import opened GameUtil
  import opened Graphs
  import opened GraphFacts
  import opened AgentScan

  /** `nodeWeights.get(k) || 0`. */
  function Get(m: IdMap<int>, k: NodeId): int {
    if k in m.values then m.values[k] else 0
  }

  /** `nodeWeights.set(k, (nodeWeights.get(k) || 0) + w)`. */
  function Credit(m: IdMap<int>, k: NodeId, w: int): IdMap<int> {
    Put(m, k, Get(m, k) + w)
  }

  /** `nodeWeights` after the first `n` entries of `es`: each entry's
      capacity credited to its start and then to its end. */
  function Credits(es: seq<Edge>, n: nat): IdMap<int>
    requires n <= |es|
  {
    if n == 0 then EmptyIdMap() else CreditEdge(Credits(es, n - 1), es[n - 1])
  }

  /** The `forEach` callback's two `set` calls for entry `e`. */
  function CreditEdge(m: IdMap<int>, e: Edge): IdMap<int> {
    Credit(Credit(m, e.start, e.maxWeight), e.end, e.maxWeight)
  }

  /** The sum of the values under the first `n` keys. */
  function ValueSum(m: IdMap<int>, n: nat): int
    requires n <= |m.keys|
  {
    if n == 0 then 0 else ValueSum(m, n - 1) + Get(m, m.keys[n - 1])
  }

  /** A subgraph passes when, with exactly two credited nodes, both carry
      the same credit, and the credits sum to at most twice its capacity. */
  predicate SubgraphPasses(es: seq<Edge>) {
    var m := Credits(es, |es|);
    (|m.keys| == 2 ==> Get(m, m.keys[0]) == Get(m, m.keys[1]))
    && ValueSum(m, |m.keys|) <= 2 * Total(es)
  }

  lemma TotalPrefixStep(es: seq<Edge>, j: nat)
    requires j < |es|
    ensures Total(es[..j + 1]) == Total(es[..j]) + es[j].maxWeight
  {
    assert es[..j + 1] == es[..j] + [es[j]];
    TotalSnoc(es[..j], es[j]);
  }

  /** The `forEach` callback over one subgraph's entries: their capacity
      sum and their credits. */
  method CreditSubgraph(es: seq<Edge>) returns (total: int, nodeWeights: IdMap<int>)
    ensures total == Total(es) && nodeWeights == Credits(es, |es|)
  {
    total := 0;
    nodeWeights := EmptyIdMap();
    for j := 0 to |es|
      invariant total == Total(es[..j]) && nodeWeights == Credits(es, j)
    {
      var edge := es[j];
      TotalPrefixStep(es, j);
      total := total + edge.maxWeight;
      nodeWeights := Credit(nodeWeights, edge.start, edge.maxWeight);
      nodeWeights := Credit(nodeWeights, edge.end, edge.maxWeight);
    }
    assert es[..|es|] == es;
  }

  /** `checkSubgraphsForEarlyReturn` over the subgraph entry lists. */
  method CheckSubgraphs(subgraphs: seq<seq<Edge>>) returns (ok: bool)
    ensures ok <==> forall k :: 0 <= k < |subgraphs| ==> SubgraphPasses(subgraphs[k])
  {
    for i := 0 to |subgraphs|
      invariant forall k :: 0 <= k < i ==> SubgraphPasses(subgraphs[k])
    {
      var total, nodeWeights := CreditSubgraph(subgraphs[i]);
      if |nodeWeights.keys| == 2 {
        if Get(nodeWeights, nodeWeights.keys[0]) != Get(nodeWeights, nodeWeights.keys[1]) {
          return false;
        }
      }
      var weightCount := 0;
      for t := 0 to |nodeWeights.keys|
        invariant weightCount == ValueSum(nodeWeights, t)
      {
        weightCount := weightCount + Get(nodeWeights, nodeWeights.keys[t]);
      }
      if weightCount > 2 * total {
        return false;
      }
    }
    return true;
  }

  // ---------------------------------------------------------------------
  // Why the check never fails on a graph without self-loops

  /** The ends of the first `n` entries of `es`. */
  function Ends(es: seq<Edge>, n: nat): set<NodeId>
    requires n <= |es|
  {
    if n == 0 then {} else Ends(es, n - 1) + {es[n - 1].start, es[n - 1].end}
  }

  lemma CreditKeys(m: IdMap<int>, k: NodeId, w: int)
    requires WellKeyed(m)
    ensures WellKeyed(Credit(m, k, w)) && Credit(m, k, w).values.Keys == m.values.Keys + {k}
  {
    PutKeys(m, k, Get(m, k) + w);
  }

  lemma GetCredit(m: IdMap<int>, k: NodeId, w: int, x: NodeId)
    ensures Get(Credit(m, k, w), x) == Get(m, x) + (if x == k then w else 0)
  {
  }

  /** A node is credited exactly when it is an end of some entry. */
  lemma {:induction false} CreditsDomain(es: seq<Edge>, n: nat, k: NodeId)
    requires n <= |es|
    ensures k in Credits(es, n).values <==> k in Ends(es, n)
  {
    if n > 0 {
      CreditsDomain(es, n - 1, k);
    }
  }

  /** Each credited node is listed once. */
  lemma {:induction false} CreditsKeyed(es: seq<Edge>, n: nat)
    requires n <= |es|
    ensures WellKeyed(Credits(es, n))
  {
    if n > 0 {
      var e := es[n - 1];
      var m := Credits(es, n - 1);
      CreditsKeyed(es, n - 1);
      CreditKeys(m, e.start, e.maxWeight);
      CreditKeys(Credit(m, e.start, e.maxWeight), e.end, e.maxWeight);
    }
  }

  /** Raising the value of a present key at position `p` raises the sum of
      every prefix that includes `p`. */
  lemma {:induction false} ValueSumRaise(m: IdMap<int>, p: nat, w: int, n: nat)
    requires WellKeyed(m) && p < |m.keys| && n <= |m.keys|
    ensures Credit(m, m.keys[p], w).keys == m.keys
    ensures ValueSum(Credit(m, m.keys[p], w), n) == ValueSum(m, n) + (if p < n then w else 0)
  {
    assert m.keys[p] in m.values;
    if n > 0 {
      ValueSumRaise(m, p, w, n - 1);
      if n - 1 != p {
        assert m.keys[n - 1] != m.keys[p];
      }
    }
  }

  /** Adding a new key leaves the sums over the old keys alone. */
  lemma {:induction false} ValueSumAdd(m: IdMap<int>, k: NodeId, w: int, n: nat)
    requires WellKeyed(m) && k !in m.values && n <= |m.keys|
    ensures Credit(m, k, w).keys == m.keys + [k]
    ensures ValueSum(Credit(m, k, w), n) == ValueSum(m, n)
  {
    if n > 0 {
      ValueSumAdd(m, k, w, n - 1);
      assert m.keys[n - 1] in m.values;
      assert Credit(m, k, w).keys[n - 1] == m.keys[n - 1];
    }
  }

  /** A credit of `w` raises the total of the credits by `w`. */
  lemma ValueSumCredit(m: IdMap<int>, k: NodeId, w: int)
    requires WellKeyed(m)
    ensures WellKeyed(Credit(m, k, w))
    ensures ValueSum(Credit(m, k, w), |Credit(m, k, w).keys|) == ValueSum(m, |m.keys|) + w
  {
    PutKeys(m, k, Get(m, k) + w);
    if k in m.values {
      var p := KeyPosition(m, k);
      ValueSumRaise(m, p, w, |m.keys|);
    } else {
      ValueSumAdd(m, k, w, |m.keys|);
      var m' := Credit(m, k, w);
      assert ValueSum(m', |m.keys| + 1) == ValueSum(m', |m.keys|) + Get(m', k);
    }
  }

  /** The credits always sum to exactly twice the capacity credited, so the
      weight-sum test never fails. */
  lemma CreditEdgeSum(m: IdMap<int>, e: Edge)
    requires WellKeyed(m)
    ensures WellKeyed(CreditEdge(m, e))
    ensures ValueSum(CreditEdge(m, e), |CreditEdge(m, e).keys|) == ValueSum(m, |m.keys|) + 2 * e.maxWeight
  {
    ValueSumCredit(m, e.start, e.maxWeight);
    ValueSumCredit(Credit(m, e.start, e.maxWeight), e.end, e.maxWeight);
  }

  lemma {:induction false} CreditsSum(es: seq<Edge>, n: nat)
    requires n <= |es|
    ensures WellKeyed(Credits(es, n))
    ensures ValueSum(Credits(es, n), |Credits(es, n).keys|) == 2 * Total(es[..n])
  {
    if n > 0 {
      CreditsSum(es, n - 1);
      CreditEdgeSum(Credits(es, n - 1), es[n - 1]);
      TotalPrefixStep(es, n - 1);
    }
  }

  /** Every entry joins `a` and `b`, in one direction or the other. */
  ghost predicate Joins(es: seq<Edge>, a: NodeId, b: NodeId) {
    forall i :: 0 <= i < |es| ==>
      (es[i].start == a && es[i].end == b) || (es[i].start == b && es[i].end == a)
  }

  /** Entries that all join `a` and `b` credit both equally. */
  lemma {:induction false} CreditsBalanced(es: seq<Edge>, n: nat, a: NodeId, b: NodeId)
    requires n <= |es| && Joins(es, a, b)
    ensures Get(Credits(es, n), a) == Get(Credits(es, n), b)
  {
    if n > 0 {
      var e := es[n - 1];
      CreditsBalanced(es, n - 1, a, b);
      var m := Credits(es, n - 1);
      var m1 := Credit(m, e.start, e.maxWeight);
      GetCredit(m, e.start, e.maxWeight, a);
      GetCredit(m, e.start, e.maxWeight, b);
      GetCredit(m1, e.end, e.maxWeight, a);
      GetCredit(m1, e.end, e.maxWeight, b);
    }
  }

  lemma {:induction false} EndsSource(es: seq<Edge>, n: nat, i: nat)
    requires i < n <= |es|
    ensures es[i].start in Ends(es, n) && es[i].end in Ends(es, n)
  {
    if i < n - 1 {
      EndsSource(es, n - 1, i);
    }
  }

  /** No entry of `es` joins a node to itself. */
  ghost predicate NoSelfLoops(es: seq<Edge>) {
    forall e :: e in es ==> e.start != e.end
  }

  /** Without self-loops, two credited nodes are the two ends of every
      entry. */
  lemma TwoNodesJoined(es: seq<Edge>)
    requires NoSelfLoops(es)
    requires WellKeyed(Credits(es, |es|)) && |Credits(es, |es|).keys| == 2
    ensures Joins(es, Credits(es, |es|).keys[0], Credits(es, |es|).keys[1])
  {
    var m := Credits(es, |es|);
    var a, b := m.keys[0], m.keys[1];
    forall i | 0 <= i < |es|
      ensures (es[i].start == a && es[i].end == b) || (es[i].start == b && es[i].end == a)
    {
      EndsSource(es, |es|, i);
      CreditsDomain(es, |es|, es[i].start);
      CreditsDomain(es, |es|, es[i].end);
      assert es[i] in es;
      assert es[i].start in m.keys && es[i].end in m.keys;
    }
  }

  /** A subgraph without self-loops always passes: with two nodes every
      entry joins them and credits both. */
  lemma AlwaysPasses(es: seq<Edge>)
    requires NoSelfLoops(es)
    ensures SubgraphPasses(es)
  {
    var m := Credits(es, |es|);
    CreditsSum(es, |es|);
    assert es[..|es|] == es;
    CreditsKeyed(es, |es|);
    if |m.keys| == 2 {
      TwoNodesJoined(es);
      CreditsBalanced(es, |es|, m.keys[0], m.keys[1]);
    }
  }

  /** The balance test can fail only through a self-loop: one credited
      twice to its single node tips the balance. */
  lemma SelfLoopTips()
    ensures !SubgraphPasses([Edge(Id(0, 0), Id(0, 0), 1), Edge(Id(0, 0), Id(0, 1), 1)])
  {
    var a, b := Id(0, 0), Id(0, 1);
    var es := [Edge(a, a, 1), Edge(a, b, 1)];
    var m1 := Credits(es, 1);
    assert m1 == Credit(Credit(Credits(es, 0), a, 1), a, 1);
    assert m1.keys == [a] && Get(m1, a) == 2;
    var m2 := Credits(es, 2);
    assert m2 == Credit(Credit(m1, a, 1), b, 1);
    assert m2.keys == [a, b] && Get(m2, a) == 3 && Get(m2, b) == 1;
  }

  /** On a built graph the check always returns `true`, whatever entries of
      the graph its subgraphs hold. */
  lemma BuiltAlwaysPasses(g: Grid, subgraphs: seq<seq<Edge>>)
    requires Rectangular(g) && CoordsMatch(g)
    requires forall k, e :: 0 <= k < |subgraphs| && e in subgraphs[k] ==> e in AllEdges(BuiltGraph(g).adjacencyList)
    ensures forall k :: 0 <= k < |subgraphs| ==> SubgraphPasses(subgraphs[k])
  {
    forall k | 0 <= k < |subgraphs|
      ensures SubgraphPasses(subgraphs[k])
    {
      forall e | e in subgraphs[k]
        ensures e.start != e.end
      {
        BuiltEntryEnds(g, e);
      }
      AlwaysPasses(subgraphs[k]);
    }
  }
}
