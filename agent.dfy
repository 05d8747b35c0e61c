/** `RecursiveChoiceAgent` (sol/agent/recursiveChoiceAgent.ts): the search
    agent that, for the board's current state, proposes the next operations
    to try, remembering per state hash which ranked candidate comes next. */
module Agent {
  import opened Wrappers
  import opened Text
  import opened GameModel
  import opened GameUtil
  import opened Graphs
  import opened GraphFacts
  import opened AgentScan
  import opened AgentSubgraphs
  import opened AgentOrder
  import opened Game

  // ---------------------------------------------------------------------
  // Operations from entries

  /** `id.split(",").map(Number)` read as a coordinate: two pieces, each a
      decimal number. */
  function IdCoord(text: string): Option<Coord> {
    var parts := Split(text, ',');
    if |parts| == 2 && NumberValue(parts[0]).Some? && NumberValue(parts[1]).Some? then
      Some(Coord(NumberValue(parts[0]).value, NumberValue(parts[1]).value))
    else None
  }

  /** Reading an id's text back gives the coordinate it was made from. */
  lemma IdCoordRoundTrip(id: NodeId)
    ensures IdCoord(IdText(id)) == Some(Coord(id.row, id.col))
  {
    var r, c := IntToString(id.row), IntToString(id.col);
    IntToStringChars(id.row);
    IntToStringChars(id.col);
    assert ',' !in r && ',' !in c;
    SplitAfterPiece(r, ',', c);
    SplitWithoutSeparator(c, ',');
    assert IdText(id) == r + [','] + c;
    NumberOfIntToString(id.row);
    NumberOfIntToString(id.col);
  }

  /** `edgeToOperation`: a single bridge between the entry's two ends. */
  function EdgeToOperation(e: Edge): (op: Operation)
    ensures op == Operation(Coord(e.start.row, e.start.col), Coord(e.end.row, e.end.col), 1)
  {
    IdCoordRoundTrip(e.start);
    IdCoordRoundTrip(e.end);
    Operation(IdCoord(IdText(e.start)).value, IdCoord(IdText(e.end)).value, 1)
  }

  /** `edges.map(edge => this.edgeToOperation(edge))`. */
  function Operations(es: seq<Edge>): seq<Operation> {
    seq(|es|, i requires 0 <= i < |es| => EdgeToOperation(es[i]))
  }

  // ---------------------------------------------------------------------
  // One move, as a function of the agent's memory

  /** The agent's two fields, as a value. */
  datatype Memory = Memory(choiceHistory: map<string, int>, currentChoiceIndex: int)

  /** What one `makeMove` returns (a throw is `Err` with its message) and
      the memory it leaves. */
  datatype Move = Move(result: Result<seq<Operation>, string>, after: Memory)

  /** The subgraphs as lists of entries, from lists of positions. */
  function SubgraphEdges(edges: seq<Edge>, subgraphs: seq<seq<nat>>): seq<seq<Edge>>
    requires Positions(subgraphs, |edges|)
  {
    seq(|subgraphs|, k requires 0 <= k < |subgraphs| => Pick(edges, subgraphs[k]))
  }

  /** The ranked candidates `sortEdges` returns for a graph. */
  function Ranked(view: GraphView, cross: (Edge, Edge, GraphView) -> bool, subgraphsOf: GraphView -> seq<seq<nat>>): seq<Edge>
    requires Positions(subgraphsOf(view), |AllEdges(view.adjacencyList)|)
  {
    var edges := AllEdges(view.adjacencyList);
    OrderedGroupsBelow(subgraphsOf(view), CrossCounts(edges, cross, view), |edges|);
    Pick(edges, Flatten(OrderedGroups(subgraphsOf(view), CrossCounts(edges, cross, view))))
  }

  /** What the subgraph functions must give: positions into the entry list
      of the graph built from `g`. */
  ghost predicate Fits(g: Grid, subgraphsOf: GraphView -> seq<seq<nat>>)
    requires Rectangular(g)
  {
    Positions(subgraphsOf(BuiltGraph(g)), |AllEdges(BuiltGraph(g).adjacencyList)|)
  }

  /** The index a non-forced visit of `key` tries, and the memory after it:
      a new key is stored as 0 and tries 0; a known key tries its stored
      value and stores one more. */
  function Advance(m: Memory, key: string): Memory {
    if key in m.choiceHistory then
      Memory(m.choiceHistory[key := m.choiceHistory[key] + 1], m.choiceHistory[key])
    else
      Memory(m.choiceHistory[key := 0], 0)
  }

  const MissingEdgeError := "Cannot read properties of undefined (reading 'start')"

  /** `makeMove` on a board whose current grid is `g`. */
  function Decide(m: Memory, g: Grid, hash: Grid -> string, cross: (Edge, Edge, GraphView) -> bool,
                  subgraphsOf: GraphView -> seq<seq<nat>>): Move
    requires Rectangular(g) && CoordsMatch(g) && Fits(g, subgraphsOf)
  {
    NodeMapKeys(GridNodes(g, |g|));
    if |g| == 0 then Move(Err(NoRowError), m)
    else GraphMove(m, BuiltGraph(g), hash(g), cross, subgraphsOf)
  }

  /** `makeMove` once the graph is built: the early returns, then the
      ranked choice. */
  function GraphMove(m: Memory, view: GraphView, key: string, cross: (Edge, Edge, GraphView) -> bool,
                     subgraphsOf: GraphView -> seq<seq<nat>>): Move
    requires WellKeyed(view.nodes)
    requires Positions(subgraphsOf(view), |AllEdges(view.adjacencyList)|)
  {
    match VerdictFrom(view.nodes, view.adjacencyList, 0)
    case Unsatisfiable => Move(Ok([]), m)
    case Forced(es) =>
      if key in m.choiceHistory then Move(Ok([]), m)
      else Move(Ok(Operations(es)), Memory(m.choiceHistory[key := -1], m.currentChoiceIndex))
    case Open => OpenMove(m, view, key, cross, subgraphsOf)
  }

  /** The rest of `makeMove` once no node decides the state. */
  function OpenMove(m: Memory, view: GraphView, key: string, cross: (Edge, Edge, GraphView) -> bool,
                    subgraphsOf: GraphView -> seq<seq<nat>>): Move
    requires Positions(subgraphsOf(view), |AllEdges(view.adjacencyList)|)
  {
    var edges := AllEdges(view.adjacencyList);
    var groups := SubgraphEdges(edges, subgraphsOf(view));
    if !(forall k :: 0 <= k < |groups| ==> SubgraphPasses(groups[k])) then Move(Ok([]), m)
    else if edges == [] then Move(Ok([]), m)
    else
      var ranked := Ranked(view, cross, subgraphsOf);
      var after := Advance(m, key);
      var index := after.currentChoiceIndex;
      if index >= |ranked| then Move(Ok([]), after)
      else if index < 0 then Move(Err(MissingEdgeError), after)
      else Move(Ok([EdgeToOperation(ranked[index])]), after)
  }

  // ---------------------------------------------------------------------
  // The agent

  /** A valid board's current grid has coordinates equal to positions. */
  lemma BoardCoords(board: GameBoard)
    requires board.Valid()
    ensures Rectangular(board.currentState.grid) && CoordsMatch(board.currentState.grid)
  {
    LayoutsAt(board.history[0].grid, board.history, |board.history| - 1);
  }

  class RecursiveChoiceAgent {
    var choiceHistory: map<string, int>
    var currentChoiceIndex: int

    function Memo(): Memory
      reads this
    {
      Memory(choiceHistory, currentChoiceIndex)
    }

    constructor ()
      ensures choiceHistory == map[] && currentChoiceIndex == 0
    {
      choiceHistory := map[];
      currentChoiceIndex := 0;
    }

    /** `makeMove`. `hash`, `cross` and `subgraphsOf` stand for
        `hashGameState`, `doEdgesCross` and `identifyAndSortSubgraphs`. */
    method MakeMove(board: GameBoard, hash: Grid -> string, cross: (Edge, Edge, GraphView) -> bool,
                    subgraphsOf: GraphView -> seq<seq<nat>>) returns (r: Result<seq<Operation>, string>)
      requires board.Valid()
      requires Fits(board.currentState.grid, subgraphsOf)
      modifies this
      ensures Rectangular(board.currentState.grid) && CoordsMatch(board.currentState.grid)
      ensures Move(r, Memo()) == Decide(old(Memo()), board.currentState.grid, hash, cross, subgraphsOf)
    {
      var gameState := board.currentState;
      BoardCoords(board);
      var gameStateString := hash(gameState.grid);
      var parsed := ParseGameStateToGraph(gameState.grid);
      if parsed.Err? {
        return Err(parsed.error);
      }
      var graph := parsed.value;
      assert GraphView(graph.nodes, graph.adjacencyList) == BuiltGraph(gameState.grid);
      NodeMapKeys(GridNodes(gameState.grid, |gameState.grid|));
      r := Respond(graph, gameStateString, cross, subgraphsOf);
    }

    /** `makeMove` from the built graph on. */
    method Respond(graph: Graph, gameStateString: string, cross: (Edge, Edge, GraphView) -> bool,
                   subgraphsOf: GraphView -> seq<seq<nat>>) returns (r: Result<seq<Operation>, string>)
      requires WellKeyed(graph.nodes)
      requires Positions(subgraphsOf(GraphView(graph.nodes, graph.adjacencyList)), |AllEdges(graph.adjacencyList)|)
      modifies this
      ensures Move(r, Memo()) == GraphMove(old(Memo()), GraphView(graph.nodes, graph.adjacencyList), gameStateString, cross, subgraphsOf)
    {
      var earlyReturn := IsValidGameState(graph);
      match earlyReturn {
        case Unsatisfiable =>
          return Ok([]);
        case Forced(es) =>
          if gameStateString in choiceHistory {
            return Ok([]);
          }
          choiceHistory := choiceHistory[gameStateString := -1];
          return Ok(Operations(es));
        case Open =>
          r := Choose(graph, gameStateString, cross, subgraphsOf);
      }
    }

    /** The ranked choice of `makeMove`: the subgraph check, the empty
        test, the sort and the memory update. */
    method Choose(graph: Graph, gameStateString: string, cross: (Edge, Edge, GraphView) -> bool,
                  subgraphsOf: GraphView -> seq<seq<nat>>) returns (r: Result<seq<Operation>, string>)
      requires Positions(subgraphsOf(GraphView(graph.nodes, graph.adjacencyList)), |AllEdges(graph.adjacencyList)|)
      modifies this
      ensures Move(r, Memo()) == OpenMove(old(Memo()), GraphView(graph.nodes, graph.adjacencyList), gameStateString, cross, subgraphsOf)
    {
      var view := GraphView(graph.nodes, graph.adjacencyList);
      var subgraphs := subgraphsOf(view);
      var all := GetAllEdges(graph);
      var ok := CheckSubgraphs(SubgraphEdges(all, subgraphs));
      if !ok {
        return Ok([]);
      }

      var edges := GetAllEdges(graph);
      if |edges| == 0 {
        return Ok([]);
      }

      edges := SortEdges(edges, view, cross, subgraphsOf);
      assert edges == Ranked(view, cross, subgraphsOf);
      ghost var after := Advance(Memo(), gameStateString);
      if gameStateString in choiceHistory {
        currentChoiceIndex := choiceHistory[gameStateString];
        choiceHistory := choiceHistory[gameStateString := currentChoiceIndex + 1];
      } else {
        choiceHistory := choiceHistory[gameStateString := 0];
        currentChoiceIndex := 0;
      }
      assert Memo() == after;

      if currentChoiceIndex >= |edges| {
        return Ok([]);
      }
      if currentChoiceIndex < 0 {
        return Err(MissingEdgeError);
      }
      var selectedEdge := edges[currentChoiceIndex];
      return Ok([EdgeToOperation(selectedEdge)]);
    }
  }
}
