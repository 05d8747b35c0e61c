/** The legacy board of sol/game.ts: the same puzzle parser and state copy
    as the board engine, a history that never replaces the current state,
    and a completion test that counts the bridge segments next to each
    island. */
module Legacy {
  import opened Wrappers
  import opened Text
  import opened GameModel
  import opened GameUtil
  import opened Game

  // ---------------------------------------------------------------------
  // The neighbour count of `verifyIsland`

  /** One entry of `directions`: the row and column offsets, and whether
      the step runs along a row (`right`, `left`), where a bridge counts
      when it is labelled "horizontal". */
  datatype Step = Step(dx: int, dy: int, alongRow: bool)

  /** `right`, `down`, `left`, `up`, in the order `for … in` visits them. */
  const Steps: seq<Step> := [Step(0, 1, true), Step(1, 0, false), Step(0, -1, true), Step(-1, 0, false)]

  /** The label a bridge needs to count for a step. */
  function Counted(s: Step): Direction {
    if s.alongRow then Horizontal else Vertical
  }

  /** What the neighbour one step from `c` adds: the segments of a bridge
      inside the grid whose label matches the step's axis, else nothing. */
  function Share(g: Grid, c: Coord, s: Step): int
    requires Rectangular(g)
  {
    var n := Coord(c.row + s.dx, c.col + s.dy);
    if !IsValidCoord(n, g) then 0
    else match g[n.row][n.col]
      case Bridge(_, count, d) => if d == Counted(s) then count else 0
      case _ => 0
  }

  /** The shares of the first `k` steps. */
  function ShareSum(g: Grid, c: Coord, k: nat): int
    requires Rectangular(g) && k <= |Steps|
  {
    if k == 0 then 0 else ShareSum(g, c, k - 1) + Share(g, c, Steps[k - 1])
  }

  /** The bridge segments around `c` that `verifyIsland` counts. */
  function NeighbourSum(g: Grid, c: Coord): int
    requires Rectangular(g)
  {
    ShareSum(g, c, |Steps|)
  }

  /** What `verifyCompleteState` checks: every island's neighbour count is
      its demand. */
  ghost predicate LegacyDone(g: Grid)
    requires Rectangular(g)
  {
    forall i, j :: 0 <= i < |g| && 0 <= j < |g[i]| && g[i][j].Island? ==>
      NeighbourSum(g, g[i][j].coord) == g[i][j].requestBridgeCount
  }

  /** A grid without bridge cells, as the parser makes. */
  predicate NoBridges(g: Grid) {
    forall i, j :: 0 <= i < |g| && 0 <= j < |g[i]| ==> !g[i][j].Bridge?
  }

  /** Without bridges nothing is counted around any cell. */
  lemma {:induction false} NoBridgesNoSum(g: Grid, c: Coord, k: nat)
    requires Rectangular(g) && NoBridges(g) && k <= |Steps|
    ensures ShareSum(g, c, k) == 0
  {
    if k > 0 {
      NoBridgesNoSum(g, c, k - 1);
      var s := Steps[k - 1];
      var n := Coord(c.row + s.dx, c.col + s.dy);
      if IsValidCoord(n, g) {
        assert !g[n.row][n.col].Bridge?;
      }
    }
  }

  /** On a grid without bridges the legacy test and the board engine's
      agree: the puzzle is complete exactly when every demand is 0. */
  lemma FreshCompletion(g: Grid)
    requires Rectangular(g) && NoBridges(g)
    ensures LegacyDone(g) <==> AllIslandsDone(g)
  {
    forall i, j | 0 <= i < |g| && 0 <= j < |g[i]| && g[i][j].Island?
      ensures NeighbourSum(g, g[i][j].coord) == 0
    {
      NoBridgesNoSum(g, g[i][j].coord, |Steps|);
    }
  }

  /** A bridge labelled across its step is never counted: of the four
      vertical one-segment bridges around an island, only the two above
      and below count. */
  lemma CrossLabelIgnored()
    ensures var b, w := Bridge(Coord(0, 0), 1, Vertical), Water(Coord(0, 0));
      NeighbourSum([[w, b, w], [b, Island(Coord(1, 1), 2), b], [w, b, w]], Coord(1, 1)) == 2
  {
    var b, w := Bridge(Coord(0, 0), 1, Vertical), Water(Coord(0, 0));
    var g := [[w, b, w], [b, Island(Coord(1, 1), 2), b], [w, b, w]];
    var c := Coord(1, 1);
    assert Rectangular(g);
    assert g[1][2] == b && g[2][1] == b && g[1][0] == b && g[0][1] == b;
    assert Share(g, c, Steps[0]) == 0;
    assert Share(g, c, Steps[1]) == 1;
    assert Share(g, c, Steps[2]) == 0;
    assert Share(g, c, Steps[3]) == 1;
    assert ShareSum(g, c, 1) == 0;
    assert ShareSum(g, c, 2) == 1;
    assert ShareSum(g, c, 3) == 1;
  }

  // ---------------------------------------------------------------------
  // The printed glyphs

  /** The legacy glyph of a cell: the label of a bridge does not matter. */
  function LegacyCellText(cell: Cell): string {
    match cell
    case Water(_) => "."
    case Island(_, demand) => HexString(demand)
    case Bridge(_, n, _) => if n == 1 then "-" else if n == 2 then "=" else "E"
  }

  function LegacyRowText(row: seq<Cell>): string {
    if row == [] then "" else LegacyRowText(row[..|row| - 1]) + LegacyCellText(row[|row| - 1])
  }

  /** On cells the two boards both draw the same way (water, islands and
      horizontal bridges of one to three segments), the legacy row text is
      the board engine's. */
  lemma {:induction false} LegacyRowAgrees(row: seq<Cell>, begin: Grid)
    requires forall j :: 0 <= j < |row| && row[j].Bridge? ==> row[j].direction == Horizontal && 1 <= row[j].bridgeCount <= 3
    ensures LegacyRowText(row) == RowText(row, begin, false)
  {
    if row != [] {
      LegacyRowAgrees(row[..|row| - 1], begin);
    }
  }

  /** A vertical bridge is drawn like a horizontal one, and a bridge of any
      count other than 1 or 2 as `E`. */
  lemma GlyphsIgnoreLabel(c: Coord, n: int)
    ensures LegacyCellText(Bridge(c, n, Vertical)) == LegacyCellText(Bridge(c, n, Horizontal))
    ensures n != 1 && n != 2 ==> LegacyCellText(Bridge(c, n, Vertical)) == "E"
    ensures LegacyCellText(Bridge(c, 1, Vertical)) != RowText([Bridge(c, 1, Vertical)], [], false)
  {
    assert [Bridge(c, 1, Vertical)][..0] == [];
    assert RowText([Bridge(c, 1, Vertical)], [], false) == "|";
  }

  // ---------------------------------------------------------------------
  // The board

  class LegacyBoard {
    var currentState: GameState
    var history: seq<GameState>

    /** There is a snapshot, the current grid is rectangular, and no
        snapshot is the current state object. */
    ghost predicate Valid()
      reads this, currentState
    {
      |history| >= 1 && Rectangular(currentState.grid) && currentState !in history
    }

    /** The constructor, given the parsed grid: it becomes the current
        state and `saveState` records a copy as the first snapshot. */
    constructor (grid: Grid)
      requires Rectangular(grid)
      ensures Valid() && |history| == 1 && currentState.grid == grid && history[0].grid == grid
      ensures fresh(currentState) && fresh(history[0])
    {
      currentState := new GameState(grid);
      history := [];
      new;
      SaveState();
    }

    /** `saveState`: push a copy of the current state; the current state
        stays the object it was. */
    method SaveState()
      modifies this
      ensures old(Valid()) ==> Valid()
      ensures currentState == old(currentState)
      ensures |history| == |old(history)| + 1 && history[..|old(history)|] == old(history)
      ensures fresh(history[|history| - 1]) && history[|history| - 1].grid == currentState.grid
    {
      var copy := DeepCopyState(currentState);
      history := history + [copy];
    }

    /** `addBridge` only logs. */
    method AddBridge(start: Coord, end: Coord, bridgeType: string)
    {
    }

    /** `verifyIsland`. */
    method VerifyIsland(cell: Cell) returns (ok: bool)
      requires Valid() && cell.Island?
      ensures ok <==> NeighbourSum(currentState.grid, cell.coord) == cell.requestBridgeCount
    {
      var g: Grid := currentState.grid;
      var coord := cell.coord;
      var bridgeCount := 0;
      for k := 0 to |Steps|
        invariant bridgeCount == ShareSum(g, coord, k)
      {
        var step := Steps[k];
        var x, y := coord.row + step.dx, coord.col + step.dy;
        if !IsValidCoord(Coord(x, y), g) {
          continue;
        }
        var nextCell := g[x][y];
        if nextCell.Bridge? && nextCell.direction == Counted(step) {
          bridgeCount := bridgeCount + nextCell.bridgeCount;
        }
      }
      return bridgeCount == cell.requestBridgeCount;
    }

    /** `verifyCompleteState`. */
    method VerifyCompleteState() returns (complete: bool)
      requires Valid()
      ensures complete <==> LegacyDone(currentState.grid)
    {
      var g: Grid := currentState.grid;
      for row := 0 to |g|
        invariant forall i, j :: 0 <= i < row && 0 <= j < |g[i]| && g[i][j].Island? ==>
          NeighbourSum(g, g[i][j].coord) == g[i][j].requestBridgeCount
      {
        for col := 0 to |g[row]|
          invariant forall i, j :: 0 <= i < row && 0 <= j < |g[i]| && g[i][j].Island? ==>
            NeighbourSum(g, g[i][j].coord) == g[i][j].requestBridgeCount
          invariant forall j :: 0 <= j < col && g[row][j].Island? ==>
            NeighbourSum(g, g[row][j].coord) == g[row][j].requestBridgeCount
        {
          var cell := g[row][col];
          if cell.Island? {
            var ok := VerifyIsland(cell);
            if !ok {
              return false;
            }
          }
        }
      }
      return true;
    }

    /** `printBoard`: the line logged for each row. */
    method PrintBoard() returns (lines: seq<string>)
      ensures |lines| == |currentState.grid|
      ensures forall i :: 0 <= i < |lines| ==> lines[i] == LegacyRowText(currentState.grid[i])
    {
      var g: Grid := currentState.grid;
      lines := [];
      for i := 0 to |g|
        invariant |lines| == i
        invariant forall i' :: 0 <= i' < i ==> lines[i'] == LegacyRowText(g[i'])
      {
        var row := g[i];
        var rowStr := "";
        for j := 0 to |row|
          invariant rowStr == LegacyRowText(row[..j])
        {
          assert row[..j + 1][..j] == row[..j];
          rowStr := rowStr + LegacyCellText(row[j]);
        }
        assert row[..|row|] == row;
        lines := lines + [rowStr];
      }
    }
  }

  /** The constructor's whole path: parse the text (a bad character throws,
      here `Err`), then build the board. Rows of unequal length are outside
      the model. */
  method Load(input: string) returns (r: Result<LegacyBoard, char>)
    requires forall i :: 0 <= i < |NonBlankLines(input)| ==> |NonBlankLines(input)[i]| == |NonBlankLines(input)[0]|
    ensures r.Ok? <==> AllCellChars(NonBlankLines(input))
    ensures r.Err? ==> FirstBadChar(NonBlankLines(input), r.error)
    ensures r.Ok? ==> fresh(r.value) && r.value.Valid() && |r.value.history| == 1
    ensures r.Ok? ==> ParsedAs(input, r.value.currentState.grid) && ParsedAs(input, r.value.history[0].grid)
  {
    var parsed := ParseInput(input);
    match parsed {
      case Err(c) =>
        return Err(c);
      case Ok(grid) =>
        var board := new LegacyBoard(grid);
        return Ok(board);
    }
  }
}
