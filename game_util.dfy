/** Grid helpers shared by the board engine (sol/game/gameUtil.ts): copying
    a state, the bounds test, and the validation of a straight-bridge
    operation. */
module GameUtil {
  import opened GameModel

  /** Every row is as long as row 0. */
  predicate Rectangular(g: Grid) {
    forall i :: 0 <= i < |g| ==> |g[i]| == |g[0]|
  }

  /** The width the solver reads off row 0. */
  function Width(g: Grid): nat {
    if |g| == 0 then 0 else |g[0]|
  }

  /** Every cell records its own position as its coordinate. */
  predicate CoordsMatch(g: Grid) {
    forall i, j :: 0 <= i < |g| && 0 <= j < |g[i]| ==> g[i][j].coord == Coord(i, j)
  }

  /** `DeepCopyState`: a new state object holding an equal grid. Rows and
      cells are values here, so the copy shares nothing that a later update
      of either state could reach. */
  method DeepCopyState(state: GameState) returns (copy: GameState)
    ensures fresh(copy) && copy.grid == state.grid
  {
    copy := new GameState(state.grid);
  }

  /** `isValidCoord`: inside the row count and the width of row 0. */
  predicate IsValidCoord(c: Coord, g: Grid) {
    0 <= c.row < |g| && 0 <= c.col < |g[0]|
  }

  /** `isHorizontal` of the operation code: true when start and end share a
      column (the line runs down the rows). */
  predicate SameColumn(op: Operation) {
    op.start.col == op.end.col
  }

  /** The label `VerifyOperation` demands of bridges it crosses. */
  function ExpectedLabel(op: Operation): Direction {
    if SameColumn(op) then Horizontal else Vertical
  }

  predicate Between(a: int, k: int, b: int) {
    a < k < b || b < k < a
  }

  /** `p` lies strictly between the operation's endpoints, on its line. */
  predicate StrictlyBetween(op: Operation, p: Coord) {
    if SameColumn(op) then p.col == op.start.col && Between(op.start.row, p.row, op.end.row)
    else p.row == op.start.row && Between(op.start.col, p.col, op.end.col)
  }

  /** What `VerifyOperation` accepts in a cell strictly between the
      endpoints: water, or a bridge with the expected label and room for
      the new segments. */
  predicate Passable(cell: Cell, op: Operation) {
    match cell
    case Water(_) => true
    case Island(_, _) => false
    case Bridge(_, n, d) => d == ExpectedLabel(op) && n + op.bridge <= MAX_BRIDGE_SIZE
  }

  /** The operations `VerifyOperation` accepts. */
  ghost predicate ValidOperation(op: Operation, g: Grid)
    requires Rectangular(g)
  {
    && 1 <= op.bridge <= MAX_BRIDGE_SIZE
    && IsValidCoord(op.start, g) && IsValidCoord(op.end, g)
    && (op.start.row == op.end.row || op.start.col == op.end.col)
    && forall p :: StrictlyBetween(op, p) && IsValidCoord(p, g) ==> Passable(g[p.row][p.col], op)
  }

  /** `VerifyOperation`: walks the cells strictly between start and end,
      returning early at the first one it refuses. With `start == end` the
      source walks off the grid, so that case is excluded. */
  method VerifyOperation(op: Operation, g: Grid) returns (ok: bool)
    requires Rectangular(g)
    requires op.start != op.end
    ensures ok == ValidOperation(op, g)
  {
    if op.bridge < 1 || op.bridge > MAX_BRIDGE_SIZE {
      return false;
    }
    if !IsValidCoord(op.start, g) || !IsValidCoord(op.end, g) {
      return false;
    }
    if !(op.start.row == op.end.row || op.start.col == op.end.col) {
      return false;
    }
    var isHorizontal := op.start.col == op.end.col;
    var incrementX := if isHorizontal then (if op.start.row < op.end.row then 1 else -1) else 0;
    var incrementY := if isHorizontal then 0 else (if op.start.col < op.end.col then 1 else -1);
    var x, y := op.start.row + incrementX, op.start.col + incrementY;
    while x != op.end.row || y != op.end.col
      invariant isHorizontal ==> y == op.start.col && (if incrementX == 1 then op.start.row < x <= op.end.row else op.end.row <= x < op.start.row)
      invariant !isHorizontal ==> x == op.start.row && (if incrementY == 1 then op.start.col < y <= op.end.col else op.end.col <= y < op.start.col)
      invariant forall p :: StrictlyBetween(Operation(op.start, Coord(x, y), op.bridge), p) && IsValidCoord(p, g) ==> Passable(g[p.row][p.col], op)
      decreases if isHorizontal then (if incrementX == 1 then op.end.row - x else x - op.end.row) else (if incrementY == 1 then op.end.col - y else y - op.end.col)
    {
      var cell := g[x][y];
      assert StrictlyBetween(op, Coord(x, y)) && IsValidCoord(Coord(x, y), g);
      if cell.Island? {
        return false;
      }
      if cell.Bridge? {
        if cell.direction != (if isHorizontal then Horizontal else Vertical) {
          return false;
        }
        if cell.bridgeCount + op.bridge > MAX_BRIDGE_SIZE {
          return false;
        }
      }
      x, y := x + incrementX, y + incrementY;
    }
    return true;
  }
}
