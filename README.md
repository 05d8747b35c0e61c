# Hashiwokakero solver core, modelled in Dafny

This project models the core of a solver for the Hashiwokakero ("build
bridges") puzzle and proves properties of the model. A puzzle is a grid of
water and islands, and each island carries a demand. The solver joins
islands with straight horizontal or vertical bridges of one to three
segments until every island touches as many segments as it demands.

The model has six parts, one Dafny module or a few per source file.

- **Shared data model** (`GameModel`, `Text`, `Wrappers`):
  - the closed `Cell` union (water, island with its demand, bridge with its count and label);
  - coordinates, `Operation`, and `MAX_BRIDGE_SIZE` (3);
  - the operation-list formatter, returning its lines;
  - the JavaScript conversions the code relies on: number to text, `Number` on decimal text, `split`, the blank-line filter, and hexadecimal digits.
- **Board engine** (`GameUtil`, `Game`). `GameBoard` is a class:
  - its current state is a `GameState` object;
  - its history is a sequence of such objects that shares the current one, as the code's does;
  - `parseInput`, `VerifyOperation`, `addBridges`, `applyOperation`, `verifyCompleteState` and `printBoard` are methods with loops, each proved against a specification function on the grid;
  - `saveState` and `revertLastChange` state the new history and current state outright.
- **Graph builder** (`Graphs`, `GraphFacts`). `Graph` is a class with two insertion-ordered maps, as JavaScript `Map`s iterate:
  - each map is an `IdMap`: a key sequence plus a Dafny `map`;
  - `parseGameStateToGraph` is a method with the code's loops, proved equal to a functional description `BuiltGraph`;
  - `GraphFacts` states what that description contains.
- **Recursive choice agent** (`AgentScan`, `AgentSubgraphs`, `Sorting`, `AgentOrder`, `Agent`, `AgentFacts`):
  - `RecursiveChoiceAgent` is a class whose `choiceHistory` and `currentChoiceIndex` fields `makeMove` updates;
  - `makeMove` is proved equal to the function `Decide` of the agent's memory;
  - `AgentFacts` proves what a run of moves on one state proposes.
- **Legacy board** (`Legacy`): the older `GameBoardImpl` of `sol/game.ts`, which has the same parser, a history of copies, and a neighbour-count completion test.

## Modelling decisions

- **Node ids.**
  - The code's node ids are the text `r,c` of an island's coordinate. An id here is the pair itself (`NodeId`), and `IdText` gives its text.
  - `Graphs.IdTextInjective` proves that two ids with the same text are the same pair. So keying the maps by pair is keying them by text.
  - `Agent.IdCoordRoundTrip` proves that `split(",").map(Number)` reads the text back.
- **Exceptions** become `Err` results carrying the message text the runtime would produce:
  - an invalid puzzle character (the character itself; for a character outside the Basic Multilingual Plane see "Left out");
  - `addEdge` on an unknown node;
  - reading `grid[0]` of a grid with no rows;
  - reading `edges[-1]` when a stored choice index is negative.
- **Functions imported from modelled files that do not define them** (sol/agent/recursiveChoiceAgent.ts:1-13) are parameters of the agent's methods:
  - `hashGameState` is `hash: Grid -> string`;
  - `doEdgesCross` is `cross`;
  - `identifyAndSortSubgraphs` is `subgraphsOf`.

  JavaScript compares `Edge` objects by identity. So a subgraph is given as a list of positions into the edge list that `getAllEdges` returns. `Agent.Fits` states that the positions are in range.
- **The direction labels disagree between files, and the model keeps that.**
  - `VerifyOperation` expects an intervening bridge on a same-column operation to be labelled horizontal.
  - `applyOperation` and the graph builder label such a bridge vertical.
  - `Game.ValidOperationEffect` proves that a validated operation never raises the count of a bridge between its ends.
  - `Game.StackingRejected` proves that a second parallel bridge over the same cells fails validation.
- **Only cells strictly between the ends are validated, but `applyOperation` also lays on the start cell.** `Game.EndpointOnBridgeOverfills` shows a concrete two-operation batch that passes validation and leaves a bridge of four segments.
- **Forced moves are made of single bridges.**
  - When a node's incident total equals its demand, `makeMove` returns one operation per incident entry (sol/agent/recursiveChoiceAgent.ts:36-41).
  - A candidate is stored in both orientations, so it yields two operations.
  - `edgeToOperation` gives every operation weight 1, whatever the edge's capacity (sol/agent/recursiveChoiceAgent.ts:182-191).
  - The incident total (sol/agent/recursiveChoiceAgent.ts:84-91) counts every candidate twice (`AgentScan.BuiltIncidentDoubled`). So a node is forced only when its demand is twice the capacity of its candidates.

## Model

| member | source | states |
|---|---|---|
| Text.NumberOfIntToString | sol/agent/recursiveChoiceAgent.ts:183-184 | `Number` applied to the decimal text of any integer gives that integer back |
| Text.IntToStringInjective | sol/common/graph.ts:15-17 | different integers have different decimal texts |
| Text.HexValue | sol/game/game.ts:40-44 | `parseInt(c, 16)` is a number exactly for the 22 hexadecimal digit characters, and it is then below 16 |
| Text.HexDigit | sol/game/game.ts:160-162 | the digit `toString(16)` prints for a value below 16 reads back as that value and is neither blank nor `.` |
| Text.SplitAfterPiece | sol/agent/recursiveChoiceAgent.ts:183-184 | splitting a piece without the separator, the separator and a rest gives that piece followed by the pieces of the rest |
| Text.SplitWithoutSeparator | sol/agent/recursiveChoiceAgent.ts:183-184 | a text without the separator splits into exactly itself |
| Text.NonBlank | sol/game/game.ts:27 | the kept lines are all non-blank and no more numerous than the input lines |
| GameModel.CoordToString | sol/common/gameModel.ts:59-62 | the text of a coordinate is parenthesised |
| GameModel.CoordToStringInjective | sol/common/gameModel.ts:59-62 | two coordinates with the same text are equal |
| GameModel.PrintOperations | sol/common/gameModel.ts:45-57 | no operations give exactly the one line "No operations to perform."; otherwise "Operations:" and then one line per operation |
| GameModel.PrintOperationsLine | sol/common/gameModel.ts:52-56 | line k+1 describes operation k, numbered from 1, with its start, end and bridge count |
| GameModel.GameState.constructor | sol/common/gameModel.ts:24-26 | a state holds the grid it is given |
| GameUtil.DeepCopyState | sol/game/gameUtil.ts:3-7 | the copy is a new state object whose grid has the same dimensions and equal cells |
| GameUtil.VerifyOperation | sol/game/gameUtil.ts:18-68 | the loop accepts exactly the valid operations: weight in 1..3, both ends inside the grid, ends in a line, and every cell strictly between them water or a correctly labelled bridge with room for the weight |
| Game.CellOf | sol/game/game.ts:35-48 | a parsed cell carries its position and is water or an island with a demand below 16 |
| Game.ParseInput | sol/game/game.ts:26-54 | parsing succeeds exactly when every character of every non-blank line is `.` or a hex digit; then cell (i, j) is what that character means at (i, j); otherwise the error is the first bad character in reading order |
| Game.Applied | sol/game/game.ts:70-113 | applying an operation keeps the grid's shape and works cell by cell: each new cell depends only on the old cell and its position |
| Game.ApplyAt | sol/game/game.ts:88-112 | an application never creates or removes an island, and a cell keeps its coordinate |
| Game.ApplyAllStep | sol/game/game.ts:56-68 | a batch applies operation by operation, and fails as soon as one operation fails validation on the grid the earlier ones left |
| Game.AppliedRectangular | sol/game/game.ts:70-113 | applying an operation keeps the grid rectangular and of the same width |
| Game.ValidOperationEffect | sol/game/game.ts:72-112 | for a validated operation: water between the ends becomes a bridge of `bridge` segments labelled by the axis; a bridge between the ends is left unchanged; an island end loses `bridge` from its demand; an end that is not an island is unchanged; a start that is not an island is laid on like a walked cell; every cell off the walk other than the end is unchanged |
| Game.StackingRejected | sol/game/gameUtil.ts:57-60 | after one operation lays a bridge on a water cell, any second operation along the same axis that passes over that cell fails validation |
| Game.EndpointOnBridgeOverfills | sol/game/gameUtil.ts:44-48 | a concrete batch passes validation and leaves a cell with four segments, because the start cell is laid on but never validated |
| Game.AppliedConsistent | sol/game/game.ts:70-113 | applying any operation keeps the shape, the coordinates and the set of island positions of the first grid |
| Game.LayoutsAt | sol/game/game.ts:15-18 | every snapshot in the history has the first snapshot's shape and islands |
| Game.GameBoard.constructor | sol/game/game.ts:20-24 | after construction the history holds one snapshot, which is the current state, holding the given grid |
| Game.GameBoard.SaveState | sol/game/game.ts:15-18 | a new copy of the current grid is pushed and becomes the current state; the earlier snapshots stay |
| Game.GameBoard.AddBridges | sol/game/game.ts:56-68 | all-or-nothing: it returns true exactly when the whole batch applies; then exactly one snapshot holding the result is added; otherwise the history and the current state are as before the call |
| Game.GameBoard.ApplyOperation | sol/game/game.ts:70-113 | the in-place walk and the endpoint updates leave exactly the grid `Applied` describes |
| Game.GameBoard.LayCell | sol/game/game.ts:88-101 | one walk step lays on the one cell at its position and changes nothing else |
| Game.GameBoard.SpendEndpoints | sol/game/game.ts:105-112 | the start and end islands, if they are islands, each lose the weight from their demand |
| Game.WalkDone | sol/game/game.ts:82-102 | after the loop, exactly the cells from the start up to but not including the end have been laid on |
| Game.WalkThenSpend | sol/game/game.ts:82-112 | walking, then updating both ends, gives `Applied` |
| Game.GameBoard.RevertLastChange | sol/game/game.ts:115-122 | with more than one snapshot the last one is dropped and the new last one is current; otherwise nothing changes; validity is kept |
| Game.GameBoard.VerifyCompleteState | sol/game/game.ts:127-143 | true exactly when every island's remaining demand is 0 |
| Game.GameBoard.ValidIslandsKnown | sol/game/game.ts:159 | every island of the current grid is an island in the first snapshot, so the final print's lookup hits an island |
| Game.GameBoard.PrintBoard | sol/game/game.ts:145-186 | the returned text is one newline-terminated row text per grid row, each glyph by cell kind, count and label, with the first snapshot's demands when printing the final board |
| Game.RenderParsesBack | sol/game/game.ts:145-186 | printing a rectangular grid of water and islands with demands below 16, then parsing the text, succeeds and gives back the same grid |
| Game.Load | sol/game/game.ts:20-54 | constructing from text fails exactly when parsing fails, with the first bad character; otherwise the board is valid, has one snapshot, and holds the parsed grid |
| Graphs.IdTextInjective | sol/common/graph.ts:15-17 | two ids with the same `r,c` text are the same pair |
| Graphs.CoordToIdInjective | sol/common/graph.ts:15-17 | distinct coordinates give distinct id texts |
| Graphs.Reversed | sol/common/graph.ts:42 | the reversed copy swaps the two ends and keeps the capacity |
| Graphs.PutKeys | sol/common/graph.ts:28-29 | `Map.set` keeps the map well keyed and adds its key to the key set; setting an existing key keeps the key order |
| Graphs.Graph.constructor | sol/common/graph.ts:22-25 | a new graph has two empty maps |
| Graphs.Graph.AddNode | sol/common/graph.ts:27-30 | the node is stored under its id and its list is reset to empty |
| Graphs.Graph.AddEdge | sol/common/graph.ts:32-43 | an unknown start fails with its id, then an unknown end; otherwise the edge is appended to the start's list and its reversed copy to the end's list; nodes are untouched |
| Graphs.WithEdgeLists | sol/common/graph.ts:39-42 | after `addEdge` each list is the old list, plus the edge if it is the start's list, plus the reversed copy if it is the end's list |
| Graphs.WithEdgeMirrored | sol/common/graph.ts:39-42 | `addEdge` keeps every entry under its start with a mirror under its end |
| Graphs.PutNewNodeMirrored | sol/common/graph.ts:29 | registering a new node keeps the mirror invariant |
| Graphs.Min | sol/common/graph.ts:113-116 | `Math.min` is at most both arguments and equal to one of them |
| Graphs.ScanMeaning | sol/common/graph.ts:94-118 | the scan between two islands fails exactly when some cell blocks; otherwise the room is at most 3, at most 3 minus each bridge's count, and equal to 3 or to one of those |
| Graphs.IslandPositionsExact | sol/common/graph.ts:79-85 | a position is queued exactly when it holds an island |
| Graphs.IslandPositionsFacts | sol/common/graph.ts:79-85 | the queue holds island positions in strictly ascending order |
| Graphs.ParseGameStateToGraph | sol/common/graph.ts:46-183 | a grid with no rows fails with the runtime's message for `grid[0].length`; otherwise the built graph's maps equal `BuiltGraph` |
| Graphs.AddIslandNodes | sol/common/graph.ts:50-59 | the node pass registers exactly the islands in reading order, each with an empty list |
| Graphs.AddPass | sol/common/graph.ts:77-181 | the row pass, or the column pass, offers each line's candidates in order, and the lists stay keyed by registered islands |
| Graphs.AddLineEdges | sol/common/graph.ts:87-130 | one line adds its consecutive-island candidates in queue order |
| Graphs.CollectIslands | sol/common/graph.ts:79-85 | the queue is the line's island cells in order |
| Graphs.OfferPair | sol/common/graph.ts:87-129 | one queue pair adds its candidate edge when the scan found no block, and nothing otherwise |
| Graphs.ScanBetween | sol/common/graph.ts:92-118 | the flag and the weight the inner loop computes are those of the scan function |
| Graphs.AddEdgeBetweenIslands | sol/common/graph.ts:61-73 | the helper adds the edge between the two islands' ids with the given weight |
| Graphs.GridNodesRegistered | sol/common/graph.ts:50-59 | every island of the grid is registered before any edge is added |
| GraphFacts.ScanIsRoom | sol/common/graph.ts:94-118 | the scan gives no room exactly when a cell blocks, and otherwise the minimum room |
| GraphFacts.RoomBounds | sol/common/graph.ts:93 | the room never exceeds 3, nor 3 minus any intervening bridge's count |
| GraphFacts.PairLinkMeaning | sol/common/graph.ts:87-129 | a queue pair yields an edge exactly when the islands are consecutive and nothing between them blocks |
| GraphFacts.LinksMeaning | sol/common/graph.ts:77-181 | an edge is a candidate exactly when it joins two consecutive islands of a row or column with no block between them, with the computed weight; weights of 0 or below and adjacent islands are kept |
| GraphFacts.CandidateShape | sol/common/graph.ts:120-129 | a candidate joins two islands, in ascending order along one line; its weight is at most 3 and at most both demands |
| GraphFacts.CandidateClear | sol/common/graph.ts:94-110 | no cell strictly between a candidate's ends is an island or a blocking bridge |
| GraphFacts.LinksDistinctPairs | sol/common/graph.ts:87-89 | no two candidates join the same pair of islands |
| GraphFacts.BuiltGraphEdges | sol/common/graph.ts:39-42 | an entry is in a node's list exactly when it is a candidate stored under its start, or a candidate's reversed copy stored under its end |
| GraphFacts.BuiltGraphMirrored | sol/common/graph.ts:39-42 | in the built graph every entry sits under its start and has its mirror under its end |
| GraphFacts.BuiltGraphNodes | sol/common/graph.ts:50-59 | there is a node exactly for each island, and its weight is the island's demand |
| AgentScan.GetAllEdges | sol/agent/recursiveChoiceAgent.ts:69-75 | the result is the adjacency lists concatenated in key order |
| AgentScan.AllEdgesMembers | sol/agent/recursiveChoiceAgent.ts:69-75 | an entry is in the result exactly when it is in some node's list |
| AgentScan.BuiltEdgesMembers | sol/agent/recursiveChoiceAgent.ts:69-75 | for a built graph, the entries are exactly the candidates and their reversed copies |
| AgentScan.BuiltEntryEnds | sol/common/graph.ts:87-89 | no entry of a built graph is a self-loop |
| AgentScan.IncidentEntries | sol/agent/recursiveChoiceAgent.ts:84-91 | the inner loops collect every entry touching the node, in list order, with their capacity sum |
| AgentScan.TouchingMembers | sol/agent/recursiveChoiceAgent.ts:86 | an entry is collected exactly when it is in the lists and touches the node |
| AgentScan.IsValidGameState | sol/agent/recursiveChoiceAgent.ts:78-103 | the scan returns the verdict of the first decisive node in node order |
| AgentScan.VerdictMeaning | sol/agent/recursiveChoiceAgent.ts:79-102 | the verdict is open exactly when every node passes (weight 0 or below, or total above weight); otherwise it is the first failing node's unsatisfiable or forced verdict |
| AgentScan.BuiltIncidentDoubled | sol/agent/recursiveChoiceAgent.ts:84-91 | on a built graph the incident total is twice the capacity of the candidates touching the node |
| AgentScan.AddLinksTouchSum | sol/common/graph.ts:39-42 | adding candidates with registered ends raises a node's incident total by twice their capacity at that node |
| AgentSubgraphs.CreditSubgraph | sol/agent/recursiveChoiceAgent.ts:110-117 | the loop computes the edge total and the per-node credit map of a subgraph |
| AgentSubgraphs.CheckSubgraphs | sol/agent/recursiveChoiceAgent.ts:106-139 | the check succeeds exactly when every subgraph passes both the two-node test and the weight test |
| AgentSubgraphs.CreditsSum | sol/agent/recursiveChoiceAgent.ts:113-117 | the node credits always sum to twice the edge total |
| AgentSubgraphs.CreditsBalanced | sol/agent/recursiveChoiceAgent.ts:119-125 | when every edge joins the same two nodes, both nodes get equal credit |
| AgentSubgraphs.TwoNodesJoined | sol/agent/recursiveChoiceAgent.ts:119 | with no self-loops, a subgraph with exactly two credited nodes joins only those two |
| AgentSubgraphs.AlwaysPasses | sol/agent/recursiveChoiceAgent.ts:113-135 | a subgraph without self-loops always passes |
| AgentSubgraphs.SelfLoopTips | sol/agent/recursiveChoiceAgent.ts:119-125 | a concrete subgraph with a self-loop fails the two-node test, so the self-loop condition above is needed |
| AgentSubgraphs.BuiltAlwaysPasses | sol/agent/recursiveChoiceAgent.ts:43-45 | subgraphs made of a built graph's entries always pass, so this early return never fires |
| Sorting.SortByElems | sol/agent/recursiveChoiceAgent.ts:174-175 | sorting is a permutation |
| Sorting.SortBySorted | sol/agent/recursiveChoiceAgent.ts:174-175 | the sorted sequence is in ascending key order |
| Sorting.SortByStable | sol/agent/recursiveChoiceAgent.ts:174-175 | sorting is stable: the elements of each key keep their order |
| AgentOrder.CrossCountMeaning | sol/agent/recursiveChoiceAgent.ts:150-156 | an edge's block count is the number of other positions whose edge it crosses |
| AgentOrder.BlockCounts | sol/agent/recursiveChoiceAgent.ts:149-158 | the nested loops compute every edge's block count |
| AgentOrder.GroupBySubgraph | sol/agent/recursiveChoiceAgent.ts:161-170 | the grouping map holds the non-empty subgraphs, in subgraph order |
| AgentOrder.NonEmptyFlatten | sol/agent/recursiveChoiceAgent.ts:161-170 | grouping loses and adds no edge |
| AgentOrder.NonEmptySome | sol/agent/recursiveChoiceAgent.ts:161-170 | every group is a non-empty subgraph |
| AgentOrder.NonEmptyAll | sol/agent/recursiveChoiceAgent.ts:161-170 | every non-empty subgraph is a group |
| AgentOrder.OrderedGroupsPermutation | sol/agent/recursiveChoiceAgent.ts:173-177 | the ranked positions are a permutation of all the subgraphs' positions |
| AgentOrder.OrderedGroupsSorted | sol/agent/recursiveChoiceAgent.ts:174-175 | groups come in ascending length, and each group in ascending block count |
| AgentOrder.OrderedGroupsStable | sol/agent/recursiveChoiceAgent.ts:174-175 | groups of equal length keep their order, as do edges of equal block count |
| AgentOrder.SortEdges | sol/agent/recursiveChoiceAgent.ts:144-180 | the result picks the edges in the order of the sorted groups |
| Agent.IdCoordRoundTrip | sol/agent/recursiveChoiceAgent.ts:183-184 | reading an id's text back gives its coordinate |
| Agent.EdgeToOperation | sol/agent/recursiveChoiceAgent.ts:182-191 | an entry becomes one bridge of weight 1 from its start's coordinate to its end's |
| Agent.RecursiveChoiceAgent.constructor | sol/agent/recursiveChoiceAgent.ts:21-24 | a new agent has an empty choice map and index 0 |
| Agent.RecursiveChoiceAgent.MakeMove | sol/agent/recursiveChoiceAgent.ts:26-67 | the reply and the new memory are those of `Decide` on the board's current grid |
| Agent.RecursiveChoiceAgent.Respond | sol/agent/recursiveChoiceAgent.ts:32-41 | after the graph is built: unsatisfiable gives no operations; a forced state gives its batch once and stores -1 |
| Agent.RecursiveChoiceAgent.Choose | sol/agent/recursiveChoiceAgent.ts:43-66 | the open case: the subgraph and empty checks, the sort, the index update and the single proposal |
| AgentFacts.ForcedOnce | sol/agent/recursiveChoiceAgent.ts:36-41 | repeated moves on a forced state give its batch the first time and no operations afterwards; the state's memory is -1 |
| AgentFacts.IdleQuiet | sol/agent/recursiveChoiceAgent.ts:32-50 | on an unsatisfiable state, or an open one with no entries, every move proposes nothing and leaves the memory unchanged |
| AgentFacts.ChoosingMove | sol/agent/recursiveChoiceAgent.ts:52-66 | an open state with entries proposes the ranked entry at the index `Advance` gives, or nothing past the end |
| AgentFacts.ChoiceSequence | sol/agent/recursiveChoiceAgent.ts:53-66 | successive moves on a new open state try ranked indices 0, 0, 1, 2, ...; after n moves the stored index is n-1 |
| AgentFacts.ForcedEntries | sol/agent/recursiveChoiceAgent.ts:84-98 | every entry of a forced batch is an entry of the graph |
| AgentFacts.EntryOperation | sol/agent/recursiveChoiceAgent.ts:182-191 | an entry of a built graph becomes a single bridge between the two islands of a candidate, in one direction or the other |
| AgentFacts.SubgraphTestIdle | sol/agent/recursiveChoiceAgent.ts:43-45 | on a built graph the subgraph test always passes |
| AgentFacts.GraphMoveEntries | sol/agent/recursiveChoiceAgent.ts:36-66 | every proposed operation comes from an entry of the graph |
| AgentFacts.ProposalsAreCandidates | sol/agent/recursiveChoiceAgent.ts:26-67 | every operation `makeMove` proposes has weight 1 and joins the two islands of a candidate |
| Legacy.NoBridgesNoSum | sol/game.ts:90-123 | without bridge cells the neighbour count of any cell is 0 |
| Legacy.FreshCompletion | sol/game.ts:67-79 | on a grid without bridges, the legacy completion test agrees with the board engine's |
| Legacy.CrossLabelIgnored | sol/game.ts:110-119 | a concrete island with four vertical bridges around it counts only the two above and below |
| Legacy.LegacyRowAgrees | sol/game.ts:125-147 | for water, islands and horizontal bridges of 1 to 3 segments, the legacy row text is the board engine's |
| Legacy.GlyphsIgnoreLabel | sol/game.ts:140-141 | a bridge's glyph ignores its label, any count other than 1 or 2 is `E`, and a vertical bridge is drawn unlike the board engine draws it |
| Legacy.LegacyBoard.constructor | sol/game.ts:24-28 | the history holds one copy of the given grid, a distinct object from the current state |
| Legacy.LegacyBoard.SaveState | sol/game.ts:20-22 | a new copy is appended, the current state stays the same object, and the board stays valid |
| Legacy.LegacyBoard.VerifyIsland | sol/game.ts:81-123 | true exactly when the count of in-grid neighbouring bridges labelled along the step's axis equals the demand |
| Legacy.LegacyBoard.VerifyCompleteState | sol/game.ts:67-79 | true exactly when every island passes `verifyIsland` |
| Legacy.LegacyBoard.PrintBoard | sol/game.ts:125-147 | one line per row, each the row's legacy glyphs |
| Legacy.Load | sol/game.ts:24-58 | construction fails exactly when parsing fails; otherwise the board is valid and holds the parsed grid with one snapshot |

## Left out

- `console.log` is not modelled as an effect. `printOperations` (sol/common/gameModel.ts:45-57) and the legacy `printBoard` (sol/game.ts:125-147) return nothing. They are modelled by the lines they log, which `GameModel.PrintOperations` and `Legacy.LegacyBoard.PrintBoard` return. The new `printBoard` logs the same text it returns, so only the returned text is modelled. The revert message and the legacy `addBridge` message are dropped.
- `hashGameState`, `doEdgesCross` and `identifyAndSortSubgraphs` are imported from sol/common/gameModel.ts and sol/common/graph.ts, which do not define them. They are function parameters of the agent.
- `Graph.getNode` (sol/agent/recursiveChoiceAgent.ts:129) is not a member of the `Graph` class (sol/common/graph.ts:18-44), so that call is left out. Its result is unused.
- Game.ParseInput, Game.Load, Legacy.Load: a Dafny string holds Unicode scalar values, while the code reads UTF-16 code units (`line[colIndex]` and `line.length`, sol/game/game.ts:34-35 and sol/game.ts:38-39). For a character outside the Basic Multilingual Plane, such as U+1F600, the code reports its lone high surrogate and the model reports the whole character. Whether parsing succeeds, and every parsed cell, are the same for all inputs.
- Agent.RecursiveChoiceAgent.MakeMove: requires that `identifyAndSortSubgraphs` gives positions into the `getAllEdges` list (`Agent.Fits`). `Edge` object identity cannot otherwise be expressed on values.
- Agent.IdCoord: `Number` is modelled only on optionally signed decimal digit text. Ids are always such text; blanks, exponents and `NaN` are not modelled.
- Rows of unequal length are not modelled. The code takes the grid width from row 0, and the grid is assumed rectangular.
- Game.Load, Legacy.Load: require non-blank input lines of equal length, for the same reason.
- GameUtil.VerifyOperation: requires `start != end`, so an operation whose ends are equal is not modelled. The code then takes the same-column branch with step -1 and walks up the start's column from the cell above it (sol/game/gameUtil.ts:37-49). It returns false at the first island, at a bridge not labelled "horizontal", or at a count that would pass 3. If none of those occurs, it reads `grid[-1]` and throws.
- Game.GameBoard.PrintBoard: a final print requires every island of the current grid to be an island in the first snapshot. Otherwise the code reads `requestBridgeCount` of a non-island, gets `undefined`, and throws (sol/game/game.ts:159-160). `Game.GameBoard.ValidIslandsKnown` proves this holds on every valid board.
- Game.GameBoard.AddBridges: requires `start != end` for every operation, for the same reason. The throw described above would come after `saveState` (sol/game/game.ts:57-59), so it would leave an extra snapshot in the history.
- JavaScript numbers are unbounded integers; floating point is not modelled.
- JavaScript's `Map<Edge, number>` with object keys is modelled by edge position.
- The legacy `addBridge` only logs. `Legacy.LegacyBoard.AddBridge` is a method that does nothing, and its `bridgeType` is a string parameter it ignores.
- The legacy `isValidCoord` is `GameUtil.IsValidCoord` on the current grid. It is the same expression.
- Not part of this model:
  - `sol/agent/randomAgent.ts` (random choice);
  - `sol/submit.ts` (an asynchronous driver with timers);
  - `sol/agent/agent.ts` (an interface only);
  - `sol/gameModel.ts` (legacy type declarations without logic).
