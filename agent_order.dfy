/** `sortEdges` (sol/agent/recursiveChoiceAgent.ts): the order in which
    `RecursiveChoiceAgent` tries the adjacency entries. Entries are
    identified by their position in the list `getAllEdges` returns, which
    stands for the object identity the source keys its count map by; the
    subgraphs `identifyAndSortSubgraphs` yields are lists of such
    positions. */
module AgentOrder {
  import opened Graphs
  import opened Sorting

  /** Every position of every subgraph names one of `n` entries. */
  ghost predicate Positions(subgraphs: seq<seq<nat>>, n: nat) {
    forall k, t :: 0 <= k < |subgraphs| && 0 <= t < |subgraphs[k]| ==> subgraphs[k][t] < n
  }

  ghost predicate Below(ps: seq<nat>, n: nat) {
    forall t :: 0 <= t < |ps| ==> ps[t] < n
  }

  /** The entries at positions `ps`. */
  function Pick(edges: seq<Edge>, ps: seq<nat>): seq<Edge>
    requires Below(ps, |edges|)
  {
    seq(|ps|, t requires 0 <= t < |ps| => edges[ps[t]])
  }

  // ---------------------------------------------------------------------
  // Crossing counts

  /** How many entries other than entry `i`, among the first `n`, entry `i`
      crosses. */
  function CrossCount(edges: seq<Edge>, i: nat, n: nat, cross: (Edge, Edge, GraphView) -> bool, view: GraphView): nat
    requires i < |edges| && n <= |edges|
  {
    if n == 0 then 0
    else CrossCount(edges, i, n - 1, cross, view) + (if n - 1 != i && cross(edges[i], edges[n - 1], view) then 1 else 0)
  }

  /** The positions among the first `n` that entry `i` crosses. */
  ghost function Crossed(edges: seq<Edge>, i: nat, n: nat, cross: (Edge, Edge, GraphView) -> bool, view: GraphView): set<nat>
    requires i < |edges| && n <= |edges|
  {
    set j: nat | j < n && j != i && cross(edges[i], edges[j], view)
  }

  /** The count is the number of other entries crossed. */
  lemma {:induction false} CrossCountMeaning(edges: seq<Edge>, i: nat, n: nat, cross: (Edge, Edge, GraphView) -> bool, view: GraphView)
    requires i < |edges| && n <= |edges|
    ensures CrossCount(edges, i, n, cross, view) == |Crossed(edges, i, n, cross, view)|
  {
    if n > 0 {
      CrossCountMeaning(edges, i, n - 1, cross, view);
      var before := Crossed(edges, i, n - 1, cross, view);
      if n - 1 != i && cross(edges[i], edges[n - 1], view) {
        assert Crossed(edges, i, n, cross, view) == before + {n - 1};
        assert n - 1 !in before;
      } else {
        assert Crossed(edges, i, n, cross, view) == before;
      }
    }
  }

  /** The count of every entry, in list order. */
  function CrossCounts(edges: seq<Edge>, cross: (Edge, Edge, GraphView) -> bool, view: GraphView): seq<nat> {
    seq(|edges|, i requires 0 <= i < |edges| => CrossCount(edges, i, |edges|, cross, view))
  }

  /** The nested `forEach` filling `edgeBlockCount`. */
  method BlockCounts(edges: seq<Edge>, cross: (Edge, Edge, GraphView) -> bool, view: GraphView) returns (counts: seq<nat>)
    ensures counts == CrossCounts(edges, cross, view)
  {
    counts := [];
    for i := 0 to |edges|
      invariant |counts| == i
      invariant forall i' :: 0 <= i' < i ==> counts[i'] == CrossCount(edges, i', |edges|, cross, view)
    {
      var count := 0;
      for j := 0 to |edges|
        invariant count == CrossCount(edges, i, j, cross, view)
      {
        if i != j && cross(edges[i], edges[j], view) {
          count := count + 1;
        }
      }
      counts := counts + [count];
    }
  }

  // ---------------------------------------------------------------------
  // Grouping by subgraph

  /** The non-empty subgraphs among the first `n`, in order: `groupedEdges`
      gets an entry for a subgraph only once it pushes its first edge. */
  function NonEmpty(subgraphs: seq<seq<nat>>, n: nat): seq<seq<nat>>
    requires n <= |subgraphs|
  {
    if n == 0 then []
    else NonEmpty(subgraphs, n - 1) + (if subgraphs[n - 1] != [] then [subgraphs[n - 1]] else [])
  }

  /** Grouping loses no entry and adds none: the groups hold the subgraphs'
      positions in their order. */
  lemma {:induction false} NonEmptyFlatten(subgraphs: seq<seq<nat>>, n: nat)
    requires n <= |subgraphs|
    ensures Flatten(NonEmpty(subgraphs, n)) == Flatten(subgraphs[..n])
  {
    if n > 0 {
      NonEmptyFlatten(subgraphs, n - 1);
      assert subgraphs[..n] == subgraphs[..n - 1] + [subgraphs[n - 1]];
      FlattenSnoc(subgraphs[..n - 1], subgraphs[n - 1]);
      if subgraphs[n - 1] != [] {
        FlattenSnoc(NonEmpty(subgraphs, n - 1), subgraphs[n - 1]);
      } else {
        assert NonEmpty(subgraphs, n) == NonEmpty(subgraphs, n - 1) + [] == NonEmpty(subgraphs, n - 1);
        assert Flatten(subgraphs[..n]) == Flatten(subgraphs[..n - 1]) + subgraphs[n - 1];
        assert Flatten(subgraphs[..n - 1]) + [] == Flatten(subgraphs[..n - 1]);
      }
    }
  }

  /** Every group is a non-empty subgraph. */
  lemma {:induction false} NonEmptySome(subgraphs: seq<seq<nat>>, n: nat, g: seq<nat>)
    requires n <= |subgraphs|
    requires g in NonEmpty(subgraphs, n)
    ensures g != [] && exists k :: 0 <= k < n && subgraphs[k] == g
  {
    if g != subgraphs[n - 1] || g == [] {
      NonEmptySome(subgraphs, n - 1, g);
      var k :| 0 <= k < n - 1 && subgraphs[k] == g;
      assert 0 <= k < n;
    } else {
      assert 0 <= n - 1 < n && subgraphs[n - 1] == g;
    }
  }

  /** Every non-empty subgraph is a group. */
  lemma {:induction false} NonEmptyAll(subgraphs: seq<seq<nat>>, n: nat, k: nat)
    requires k < n <= |subgraphs| && subgraphs[k] != []
    ensures subgraphs[k] in NonEmpty(subgraphs, n)
  {
    if k < n - 1 {
      NonEmptyAll(subgraphs, n - 1, k);
    }
  }

  /** The subgraph loop of `sortEdges`: `groupedEdges` keyed by subgraph
      index (the text of distinct indices is distinct), its keys in
      insertion order, then `Array.from(groupedEdges.values())`. */
  method GroupBySubgraph(subgraphs: seq<seq<nat>>) returns (groups: seq<seq<nat>>)
    ensures groups == NonEmpty(subgraphs, |subgraphs|)
  {
    var grouped: map<nat, seq<nat>> := map[];
    var order: seq<nat> := [];
    for i := 0 to |subgraphs|
      invariant |order| == |NonEmpty(subgraphs, i)|
      invariant forall t :: 0 <= t < |order| ==> order[t] < i && order[t] in grouped
      invariant forall t :: 0 <= t < |order| ==> grouped[order[t]] == NonEmpty(subgraphs, i)[t]
      invariant forall k :: k in grouped ==> k < i
    {
      var edges := subgraphs[i];
      ghost var order0, grouped0 := order, grouped;
      assert i !in grouped0;
      for j := 0 to |edges|
        invariant j == 0 ==> order == order0 && grouped == grouped0
        invariant j > 0 ==> order == order0 + [i] && grouped == grouped0[i := edges[..j]]
      {
        if i in grouped {
          assert j > 0 && grouped[i] == edges[..j];
          assert edges[..j + 1] == edges[..j] + [edges[j]];
          grouped := grouped[i := grouped[i] + [edges[j]]];
          assert grouped == grouped0[i := edges[..j + 1]];
        } else {
          assert j == 0 && [edges[j]] == edges[..j + 1];
          grouped := grouped[i := [edges[j]]];
          order := order + [i];
        }
      }
      assert edges[..|edges|] == edges;
    }
    groups := seq(|order|, t requires 0 <= t < |order| => grouped[order[t]]);
  }

  // ---------------------------------------------------------------------
  // The order

  /** `a.length` in the group comparator. */
  function Size(group: seq<nat>): int {
    |group|
  }

  /** `edgeBlockCount.get(edge)` for the entry at position `p`. */
  function ByCount(counts: seq<nat>): nat -> int {
    (p: nat) => if p < |counts| then counts[p] else 0
  }

  /** The groups by ascending size, each by ascending crossing count. */
  function OrderedGroups(subgraphs: seq<seq<nat>>, counts: seq<nat>): seq<seq<nat>> {
    var groups := SortBy(NonEmpty(subgraphs, |subgraphs|), Size);
    seq(|groups|, t requires 0 <= t < |groups| => SortBy(groups[t], ByCount(counts)))
  }

  lemma BelowPermutation(xs: seq<nat>, ys: seq<nat>, n: nat)
    requires Below(xs, n) && multiset(xs) == multiset(ys)
    ensures Below(ys, n)
  {
    forall t | 0 <= t < |ys|
      ensures ys[t] < n
    {
      assert ys[t] in multiset(ys);
      var s :| 0 <= s < |xs| && xs[s] == ys[t];
    }
  }

  lemma {:induction false} BelowFlatten(xss: seq<seq<nat>>, n: nat)
    requires forall t :: 0 <= t < |xss| ==> Below(xss[t], n)
    ensures Below(Flatten(xss), n)
  {
    if xss != [] {
      BelowFlatten(xss[..|xss| - 1], n);
    }
  }

  /** Every ordered group names entries of the list. */
  lemma OrderedGroupsBelow(subgraphs: seq<seq<nat>>, counts: seq<nat>, n: nat)
    requires Positions(subgraphs, n)
    ensures forall t :: 0 <= t < |OrderedGroups(subgraphs, counts)| ==> Below(OrderedGroups(subgraphs, counts)[t], n)
    ensures Below(Flatten(OrderedGroups(subgraphs, counts)), n)
  {
    var ne := NonEmpty(subgraphs, |subgraphs|);
    var groups := SortBy(ne, Size);
    var ordered := OrderedGroups(subgraphs, counts);
    SortByElems(ne, Size);
    forall t | 0 <= t < |ordered|
      ensures Below(ordered[t], n)
    {
      assert groups[t] in multiset(ne);
      NonEmptySome(subgraphs, |subgraphs|, groups[t]);
      var k :| 0 <= k < |subgraphs| && subgraphs[k] == groups[t];
      SortByElems(groups[t], ByCount(counts));
      BelowPermutation(groups[t], ordered[t], n);
    }
    BelowFlatten(ordered, n);
  }

  lemma PickAppend(edges: seq<Edge>, xs: seq<nat>, ys: seq<nat>)
    requires Below(xs, |edges|) && Below(ys, |edges|)
    ensures Below(xs + ys, |edges|)
    ensures Pick(edges, xs + ys) == Pick(edges, xs) + Pick(edges, ys)
  {
  }

  /** `sortEdges`: the entries of the subgraphs, group after group. */
  method SortEdges(edges: seq<Edge>, view: GraphView, cross: (Edge, Edge, GraphView) -> bool,
                   subgraphsOf: GraphView -> seq<seq<nat>>) returns (sortedEdges: seq<Edge>)
    requires Positions(subgraphsOf(view), |edges|)
    ensures Below(Flatten(OrderedGroups(subgraphsOf(view), CrossCounts(edges, cross, view))), |edges|)
    ensures sortedEdges == Pick(edges, Flatten(OrderedGroups(subgraphsOf(view), CrossCounts(edges, cross, view))))
  {
    var subgraphs := subgraphsOf(view);
    var counts := BlockCounts(edges, cross, view);
    var groups := GroupBySubgraph(subgraphs);
    ghost var ordered := OrderedGroups(subgraphs, counts);
    OrderedGroupsBelow(subgraphs, counts, |edges|);
    var bySize := SortBy(groups, Size);
    sortedEdges := [];
    for t := 0 to |bySize|
      invariant Below(Flatten(ordered[..t]), |edges|)
      invariant sortedEdges == Pick(edges, Flatten(ordered[..t]))
    {
      var group := SortBy(bySize[t], ByCount(counts));
      assert group == ordered[t];
      assert ordered[..t + 1] == ordered[..t] + [group];
      FlattenSnoc(ordered[..t], group);
      PickAppend(edges, Flatten(ordered[..t]), group);
      sortedEdges := sortedEdges + Pick(edges, group);
    }
    assert ordered[..|bySize|] == ordered;
  }

  // ---------------------------------------------------------------------
  // What the order promises

  lemma {:induction false} FlattenInsertBy<T>(x: seq<T>, s: seq<seq<T>>, key: seq<T> -> int)
    ensures multiset(Flatten(InsertBy(x, s, key))) == multiset(Flatten(s)) + multiset(x)
  {
    if s != [] && key(s[|s| - 1]) > key(x) {
      var prev, last := s[..|s| - 1], s[|s| - 1];
      var a := InsertBy(x, prev, key);
      assert InsertBy(x, s, key) == a + [last];
      FlattenInsertBy(x, prev, key);
      FlattenSnoc(a, last);
      assert s == prev + [last];
      FlattenSnoc(prev, last);
      calc {
        multiset(Flatten(InsertBy(x, s, key)));
        multiset(Flatten(a) + last);
        multiset(Flatten(prev)) + multiset(x) + multiset(last);
        multiset(Flatten(prev) + last) + multiset(x);
      }
    } else {
      FlattenSnoc(s, x);
    }
  }

  lemma {:induction false} FlattenSortBy<T>(xss: seq<seq<T>>, key: seq<T> -> int)
    ensures multiset(Flatten(SortBy(xss, key))) == multiset(Flatten(xss))
  {
    if xss != [] {
      var prev, last := xss[..|xss| - 1], xss[|xss| - 1];
      FlattenSortBy(prev, key);
      FlattenInsertBy(last, SortBy(prev, key), key);
      FlattenSnoc(prev, last);
      assert xss == prev + [last];
    }
  }

  /** Rearranging each of several lists rearranges their concatenation. */
  lemma {:induction false} FlattenEach<T>(xss: seq<seq<T>>, yss: seq<seq<T>>)
    requires |xss| == |yss|
    requires forall t :: 0 <= t < |xss| ==> multiset(xss[t]) == multiset(yss[t])
    ensures multiset(Flatten(xss)) == multiset(Flatten(yss))
  {
    if xss != [] {
      FlattenEach(xss[..|xss| - 1], yss[..|yss| - 1]);
    }
  }

  /** `sortEdges` lists every position of every subgraph exactly as often
      as the subgraphs do. */
  lemma OrderedGroupsPermutation(subgraphs: seq<seq<nat>>, counts: seq<nat>)
    ensures multiset(Flatten(OrderedGroups(subgraphs, counts))) == multiset(Flatten(subgraphs))
  {
    var ne := NonEmpty(subgraphs, |subgraphs|);
    var groups := SortBy(ne, Size);
    var ordered := OrderedGroups(subgraphs, counts);
    forall t | 0 <= t < |groups|
      ensures multiset(ordered[t]) == multiset(groups[t])
    {
      SortByElems(groups[t], ByCount(counts));
    }
    FlattenEach(ordered, groups);
    FlattenSortBy(ne, Size);
    NonEmptyFlatten(subgraphs, |subgraphs|);
    assert subgraphs[..|subgraphs|] == subgraphs;
  }

  /** The groups come by ascending size, and entries within a group by
      ascending crossing count. */
  lemma OrderedGroupsSorted(subgraphs: seq<seq<nat>>, counts: seq<nat>)
    ensures forall t, u :: 0 <= t < u < |OrderedGroups(subgraphs, counts)| ==>
      |OrderedGroups(subgraphs, counts)[t]| <= |OrderedGroups(subgraphs, counts)[u]|
    ensures forall t :: 0 <= t < |OrderedGroups(subgraphs, counts)| ==>
      SortedBy(OrderedGroups(subgraphs, counts)[t], ByCount(counts))
  {
    var ne := NonEmpty(subgraphs, |subgraphs|);
    var groups := SortBy(ne, Size);
    var ordered := OrderedGroups(subgraphs, counts);
    SortBySorted(ne, Size);
    forall t | 0 <= t < |ordered|
      ensures |ordered[t]| == |groups[t]| && SortedBy(ordered[t], ByCount(counts))
    {
      SortByElems(groups[t], ByCount(counts));
      assert |multiset(ordered[t])| == |multiset(groups[t])|;
      SortBySorted(groups[t], ByCount(counts));
    }
  }

  /** The sorts are stable: groups of one size keep their subgraph order,
      and entries with one count keep their order within the subgraph. */
  lemma OrderedGroupsStable(subgraphs: seq<seq<nat>>, counts: seq<nat>, size: int, count: int)
    ensures WithKey(SortBy(NonEmpty(subgraphs, |subgraphs|), Size), Size, size)
      == WithKey(NonEmpty(subgraphs, |subgraphs|), Size, size)
    ensures forall t :: 0 <= t < |OrderedGroups(subgraphs, counts)| ==>
      WithKey(OrderedGroups(subgraphs, counts)[t], ByCount(counts), count)
        == WithKey(SortBy(NonEmpty(subgraphs, |subgraphs|), Size)[t], ByCount(counts), count)
  {
    var groups := SortBy(NonEmpty(subgraphs, |subgraphs|), Size);
    SortByStable(NonEmpty(subgraphs, |subgraphs|), Size, size);
    forall t | 0 <= t < |groups|
      ensures WithKey(OrderedGroups(subgraphs, counts)[t], ByCount(counts), count)
        == WithKey(groups[t], ByCount(counts), count)
    {
      SortByStable(groups[t], ByCount(counts), count);
    }
  }
}
