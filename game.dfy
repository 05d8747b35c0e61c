/** The board engine of sol/game/game.ts: the puzzle text parser, the
    snapshot history, the all-or-nothing application of a batch of
    operations, revert, the completion test and the text rendering. */
module Game {
  import opened Wrappers
  import opened Text
  import opened GameModel
  import opened GameUtil

  // ---------------------------------------------------------------------
  // Parsing the puzzle text

  /** The cell `parseInput` makes of one character at (row, col): `.` is
      water, a hexadecimal digit an island with that demand, anything else
      is refused (`None`). */
  function CellOf(c: char, row: int, col: int): (r: Option<Cell>)
    ensures r.Some? ==> r.value.coord == Coord(row, col) && (r.value.Water? || r.value.Island?)
    ensures r.Some? && r.value.Island? ==> 0 <= r.value.requestBridgeCount < 16
  {
    if c == '.' then Some(Water(Coord(row, col)))
    else match HexValue(c)
      case Some(v) => Some(Island(Coord(row, col), v))
      case None => None
  }

  predicate IsCellChar(c: char) {
    c == '.' || HexValue(c).Some?
  }

  predicate AllCellChars(lines: seq<string>) {
    forall i, j :: 0 <= i < |lines| && 0 <= j < |lines[i]| ==> IsCellChar(lines[i][j])
  }

  /** `c` is the first character, in reading order, that is not a cell. */
  predicate FirstBadChar(lines: seq<string>, c: char) {
    exists i, j :: 0 <= i < |lines| && 0 <= j < |lines[i]| && lines[i][j] == c && !IsCellChar(c)
      && (forall i', j' :: 0 <= i' < i && 0 <= j' < |lines[i']| ==> IsCellChar(lines[i'][j']))
      && (forall j' :: 0 <= j' < j ==> IsCellChar(lines[i][j']))
  }

  /** `g` is what the text describes: one row per non-blank line, one cell
      per character, each cell at its own (row, column). */
  predicate ParsedAs(input: string, g: Grid) {
    var lines := NonBlankLines(input);
    && |g| == |lines|
    && forall i :: 0 <= i < |lines| ==>
         |g[i]| == |lines[i]| && forall j :: 0 <= j < |lines[i]| ==> CellOf(lines[i][j], i, j) == Some(g[i][j])
  }

  /** `parseInput`; the thrown error is `Err` with the offending character. */
  method ParseInput(input: string) returns (r: Result<Grid, char>)
    ensures r.Ok? <==> AllCellChars(NonBlankLines(input))
    ensures r.Ok? ==> ParsedAs(input, r.value)
    ensures r.Err? ==> FirstBadChar(NonBlankLines(input), r.error)
  {
    var lines := NonBlankLines(input);
    var grid: Grid := [];
    for rowIndex := 0 to |lines|
      invariant |grid| == rowIndex
      invariant forall i :: 0 <= i < rowIndex ==>
        |grid[i]| == |lines[i]| && forall j :: 0 <= j < |lines[i]| ==> CellOf(lines[i][j], i, j) == Some(grid[i][j])
    {
      var line := lines[rowIndex];
      var row: seq<Cell> := [];
      for colIndex := 0 to |line|
        invariant |row| == colIndex
        invariant forall j :: 0 <= j < colIndex ==> CellOf(line[j], rowIndex, j) == Some(row[j])
      {
        var ch := line[colIndex];
        var coord := Coord(rowIndex, colIndex);
        if ch == '.' {
          row := row + [Water(coord)];
        } else if HexValue(ch).Some? {
          row := row + [Island(coord, HexValue(ch).value)];
        } else {
          assert FirstBadChar(lines, ch) by {
            assert forall i', j' :: 0 <= i' < rowIndex && 0 <= j' < |lines[i']| ==> CellOf(lines[i'][j'], i', j').Some?;
          }
          return Err(ch);
        }
      }
      grid := grid + [row];
    }
    return Ok(grid);
  }

  // ---------------------------------------------------------------------
  // What one operation does to a grid

  /** The label `applyOperation` gives the bridges it lays: a same-column
      operation lays "vertical" ones, the opposite of what
      `VerifyOperation` expects to cross. */
  function LaidLabel(op: Operation): Direction {
    if SameColumn(op) then Vertical else Horizontal
  }

  /** The cells `applyOperation` walks: from start (inclusive) to end
      (exclusive). */
  predicate OnWalk(op: Operation, p: Coord) {
    p == op.start || StrictlyBetween(op, p)
  }

  /** A walked cell: water becomes a bridge, a bridge of the laid label
      gains the new segments, anything else stays. */
  function Lay(op: Operation, cell: Cell, p: Coord): Cell {
    match cell
    case Water(_) => Bridge(p, op.bridge, LaidLabel(op))
    case Bridge(c, n, d) => if d == LaidLabel(op) then Bridge(c, n + op.bridge, d) else cell
    case Island(_, _) => cell
  }

  /** The cell at `p` once the operation is applied: walked cells are laid,
      then an endpoint that is an island loses `bridge` from its demand. */
  function ApplyAt(op: Operation, cell: Cell, p: Coord): (r: Cell)
    ensures r.Island? <==> cell.Island?
    ensures cell.coord == p ==> r.coord == p
  {
    var laid := if OnWalk(op, p) then Lay(op, cell, p) else cell;
    if (p == op.start || p == op.end) && laid.Island? then
      Island(laid.coord, laid.requestBridgeCount - op.bridge)
    else laid
  }

  /** The grid after `applyOperation`. */
  function Applied(op: Operation, g: Grid): (r: Grid)
    ensures |r| == |g| && forall i :: 0 <= i < |g| ==> |r[i]| == |g[i]|
    ensures forall i, j :: 0 <= i < |g| && 0 <= j < |g[i]| ==> r[i][j] == ApplyAt(op, g[i][j], Coord(i, j))
  {
    seq(|g|, i requires 0 <= i < |g| =>
      seq(|g[i]|, j requires 0 <= j < |g[i]| => ApplyAt(op, g[i][j], Coord(i, j))))
  }

  /** The grid after `addBridges(ops)`, or `None` if some operation fails
      validation on the grid its predecessors left. */
  ghost function ApplyAll(ops: seq<Operation>, g: Grid): Option<Grid>
    requires Rectangular(g)
  {
    if ops == [] then Some(g)
    else if !ValidOperation(ops[0], g) then None
    else AppliedRectangular(ops[0], g); ApplyAll(ops[1..], Applied(ops[0], g))
  }

  lemma ApplyAllStep(ops: seq<Operation>, k: nat, g: Grid)
    requires k < |ops| && Rectangular(g)
    ensures Rectangular(Applied(ops[k], g))
    ensures ApplyAll(ops[k..], g) == if ValidOperation(ops[k], g) then ApplyAll(ops[k + 1..], Applied(ops[k], g)) else None
  {
    AppliedRectangular(ops[k], g);
    assert ops[k..][0] == ops[k] && ops[k..][1..] == ops[k + 1..];
  }

  lemma AppliedRectangular(op: Operation, g: Grid)
    requires Rectangular(g)
    ensures Rectangular(Applied(op, g)) && Width(Applied(op, g)) == Width(g)
  {
  }

  /** A valid operation lays a bridge on every walked water cell, labelled
      by `LaidLabel`, and lowers each endpoint island's demand by exactly
      `bridge`; every bridge it crosses is left as it was, because
      `VerifyOperation` only admits bridges with the other label. An end
      that is not an island is left as it was, while a start that is not an
      island is laid on like a walked cell, unvalidated. */
  lemma ValidOperationEffect(op: Operation, g: Grid, p: Coord)
    requires Rectangular(g) && CoordsMatch(g) && ValidOperation(op, g) && op.start != op.end
    requires IsValidCoord(p, g)
    ensures var before, after := g[p.row][p.col], Applied(op, g)[p.row][p.col];
      && (StrictlyBetween(op, p) && before.Water? ==> after == Bridge(p, op.bridge, LaidLabel(op)))
      && (StrictlyBetween(op, p) && before.Bridge? ==> after == before)
      && ((p == op.start || p == op.end) && before.Island? ==>
            after == Island(p, before.requestBridgeCount - op.bridge))
      && (!OnWalk(op, p) && p != op.end ==> after == before)
      && (p == op.end && !before.Island? ==> after == before)
      && (p == op.start && !before.Island? ==> after == Lay(op, before, p))
  {
  }

  /** Stacking is refused: once a valid operation has laid a bridge on a
      water cell between its endpoints, no operation along that same line
      with that cell between its endpoints passes validation again, since
      the laid label is never the expected one. */
  lemma StackingRejected(op: Operation, g: Grid, p: Coord, op2: Operation)
    requires Rectangular(g) && CoordsMatch(g) && ValidOperation(op, g) && op.start != op.end
    requires StrictlyBetween(op, p) && IsValidCoord(p, g) && g[p.row][p.col].Water?
    requires SameColumn(op2) == SameColumn(op) && StrictlyBetween(op2, p)
    ensures !ValidOperation(op2, Applied(op, g))
  {
    var g' := Applied(op, g);
    AppliedRectangular(op, g);
    ValidOperationEffect(op, g, p);
    assert !Passable(g'[p.row][p.col], op2);
  }

  /** Validation never inspects the endpoint cells, and the walk includes
      the start: an operation that starts on a bridge cell passes and adds
      to that bridge, which can then hold four segments. */
  lemma EndpointOnBridgeOverfills()
    ensures var g := [[Island(Coord(0, 0), 3), Water(Coord(0, 1)), Island(Coord(0, 2), 3)]];
      var first := Operation(Coord(0, 0), Coord(0, 2), 3);
      var second := Operation(Coord(0, 1), Coord(0, 2), 1);
      && ValidOperation(first, g)
      && ValidOperation(second, Applied(first, g))
      && Applied(second, Applied(first, g))[0][1] == Bridge(Coord(0, 1), 4, Horizontal)
  {
    var g := [[Island(Coord(0, 0), 3), Water(Coord(0, 1)), Island(Coord(0, 2), 3)]];
    var first := Operation(Coord(0, 0), Coord(0, 2), 3);
    var second := Operation(Coord(0, 1), Coord(0, 2), 1);
    assert forall p :: StrictlyBetween(first, p) && IsValidCoord(p, g) ==> p == Coord(0, 1);
    var g1 := Applied(first, g);
    assert g1[0][1] == Bridge(Coord(0, 1), 3, Horizontal);
    assert forall p :: !StrictlyBetween(second, p);
  }

  // ---------------------------------------------------------------------
  // The board

  /** What every snapshot keeps from the first: its shape, where the
      islands are, and coordinates equal to positions. */
  ghost predicate Consistent(first: Grid, g: Grid) {
    && Rectangular(first) && Rectangular(g)
    && |g| == |first| && Width(g) == Width(first) && CoordsMatch(g)
    && forall i, j :: 0 <= i < |g| && 0 <= j < |g[i]| ==> (g[i][j].Island? <==> first[i][j].Island?)
  }

  lemma AppliedConsistent(op: Operation, first: Grid, g: Grid)
    requires Consistent(first, g)
    ensures Consistent(first, Applied(op, g))
  {
    AppliedRectangular(op, g);
  }

  /** Every snapshot in `hs` is consistent with `first`. */
  ghost predicate Layouts(first: Grid, hs: seq<GameState>)
    reads hs
  {
    hs == [] || (Consistent(first, hs[0].grid) && Layouts(first, hs[1..]))
  }

  lemma {:induction false} LayoutsAt(first: Grid, hs: seq<GameState>, k: nat)
    requires Layouts(first, hs) && k < |hs|
    ensures Consistent(first, hs[k].grid)
  {
    if k > 0 {
      LayoutsAt(first, hs[1..], k - 1);
    }
  }

  lemma {:induction false} LayoutsSnoc(first: Grid, hs: seq<GameState>, s: GameState)
    requires Layouts(first, hs) && Consistent(first, s.grid)
    ensures Layouts(first, hs + [s])
  {
    if hs != [] {
      assert (hs + [s])[1..] == hs[1..] + [s];
      LayoutsSnoc(first, hs[1..], s);
    }
  }

  lemma {:induction false} LayoutsPrefix(first: Grid, hs: seq<GameState>, n: nat)
    requires Layouts(first, hs) && n <= |hs|
    ensures Layouts(first, hs[..n])
  {
    if n > 0 {
      assert hs[..n][1..] == hs[1..][..n - 1];
      LayoutsPrefix(first, hs[1..], n - 1);
    }
  }

  class GameBoard {
    var currentState: GameState
    var history: seq<GameState>

    /** The current state is the last snapshot; every snapshot is
        consistent with the first (the last conjunct is a consequence,
        spelled out for the operations that need it). */
    ghost predicate Valid()
      reads this, history
    {
      && |history| >= 1
      && currentState == history[|history| - 1]
      && Layouts(history[0].grid, history)
      && Rectangular(currentState.grid)
    }

    /** The constructor, given the parsed grid: the grid becomes the current
        state and `saveState` records a copy of it as the first snapshot. */
    constructor (grid: Grid)
      requires Rectangular(grid) && CoordsMatch(grid)
      ensures Valid() && |history| == 1 && currentState.grid == grid
      ensures fresh(currentState)
    {
      currentState := new GameState(grid);
      history := [];
      new;
      SaveState();
    }

    /** `saveState`: push a copy of the current state, which then becomes
        the current state. */
    method SaveState()
      modifies this
      ensures fresh(currentState) && history == old(history) + [currentState]
      ensures currentState.grid == old(currentState.grid)
    {
      var copy := DeepCopyState(currentState);
      history := history + [copy];
      currentState := history[|history| - 1];
    }

    /** `addBridges`: all or nothing. On success the history has grown by
        one snapshot, the result of applying every operation in order; on
        failure the history and the current state are those of before the
        call. Only the new snapshot is ever written: every earlier state
        object is outside the frame. */
    method AddBridges(ops: seq<Operation>) returns (ok: bool)
      requires Valid()
      requires forall k :: 0 <= k < |ops| ==> ops[k].start != ops[k].end
      modifies this
      ensures Valid()
      ensures ok == ApplyAll(ops, old(currentState.grid)).Some?
      ensures ok ==> fresh(currentState) && history == old(history) + [currentState]
      ensures ok ==> currentState.grid == ApplyAll(ops, old(currentState.grid)).value
      ensures !ok ==> history == old(history) && currentState == old(currentState)
    {
      ghost var g0, last, first := currentState.grid, currentState, history[0].grid;
      LayoutsAt(first, history, |history| - 1);
      assert old(history)[|old(history)| - 1] == last;
      SaveState();
      for k := 0 to |ops|
        invariant fresh(currentState) && history == old(history) + [currentState]
        invariant Consistent(first, currentState.grid)
        invariant ApplyAll(ops, g0) == ApplyAll(ops[k..], currentState.grid)
      {
        var grid := currentState.grid;
        ApplyAllStep(ops, k, grid);
        ok := VerifyOperation(ops[k], grid);
        if !ok {
          assert history[..|history| - 1] == old(history);
          RevertLastChange();
          return false;
        }
        ApplyOperation(ops[k]);
        AppliedConsistent(ops[k], first, grid);
      }
      assert ops[|ops|..] == [];
      LayoutsSnoc(first, old(history), currentState);
      return true;
    }

    /** `applyOperation`, for an operation that has passed validation:
        walk from start to end (exclusive), laying or widening bridges,
        then lower the demand of each endpoint that is an island. */
    method ApplyOperation(op: Operation)
      requires Rectangular(currentState.grid)
      requires op.start != op.end && (op.start.row == op.end.row || op.start.col == op.end.col)
      requires IsValidCoord(op.start, currentState.grid) && IsValidCoord(op.end, currentState.grid)
      modifies currentState
      ensures currentState.grid == Applied(op, old(currentState.grid))
    {
      var state := currentState;
      ghost var g0 := state.grid;
      var isHorizontal := op.start.col == op.end.col;
      var direction := if isHorizontal then Vertical else Horizontal;
      var incrementX := if isHorizontal then (if op.start.row < op.end.row then 1 else -1) else 0;
      var incrementY := if isHorizontal then 0 else (if op.start.col < op.end.col then 1 else -1);
      var x, y := op.start.row, op.start.col;
      ghost var k: nat := 0;
      while (x != op.end.row || y != op.end.col) && 0 <= x < |state.grid| && 0 <= y < |state.grid[0]|
        invariant OnSegment(op, incrementX, incrementY, Coord(x, y)) && Coord(x, y) == CellAt(op, incrementX, incrementY, k)
        invariant |state.grid| == |g0| && |state.grid[0]| == |g0[0]| && Rectangular(state.grid)
        invariant state.grid == Walked(op, incrementX, incrementY, g0, k)
        decreases StepsLeft(op, incrementX, incrementY, Coord(x, y))
      {
        LayCell(op, Coord(x, y));
        x, y, k := x + incrementX, y + incrementY, k + 1;
      }
      SpendEndpoints(op);
      WalkThenSpend(op, incrementX, incrementY, g0, k);
    }

    /** The end of `applyOperation`: an island at either endpoint loses
        `bridge` from its demand. */
    method SpendEndpoints(op: Operation)
      requires op.start != op.end
      requires 0 <= op.start.row < |currentState.grid| && 0 <= op.start.col < |currentState.grid[op.start.row]|
      requires 0 <= op.end.row < |currentState.grid| && 0 <= op.end.col < |currentState.grid[op.end.row]|
      modifies currentState
      ensures currentState.grid == Spend(op, Spend(op, old(currentState.grid), op.start), op.end)
    {
      var state := currentState;
      var startCell := state.grid[op.start.row][op.start.col];
      var endCell := state.grid[op.end.row][op.end.col];
      if startCell.Island? {
        state.grid := state.grid[op.start.row := state.grid[op.start.row][op.start.col := startCell.(requestBridgeCount := startCell.requestBridgeCount - op.bridge)]];
      }
      ghost var spent := state.grid;
      assert spent == Spend(op, old(state.grid), op.start);
      if endCell.Island? {
        state.grid := state.grid[op.end.row := state.grid[op.end.row][op.end.col := endCell.(requestBridgeCount := endCell.requestBridgeCount - op.bridge)]];
      }
      assert state.grid == Spend(op, spent, op.end);
    }

    /** One step of `applyOperation`'s walk: water becomes a bridge of the
        laid label, a bridge of that label gains the new segments. */
    method LayCell(op: Operation, p: Coord)
      requires 0 <= p.row < |currentState.grid| && 0 <= p.col < |currentState.grid[p.row]|
      modifies currentState
      ensures currentState.grid == LayOne(op, old(currentState.grid), p)
    {
      var state := currentState;
      var direction := if op.start.col == op.end.col then Vertical else Horizontal;
      var cell := state.grid[p.row][p.col];
      if cell.Water? {
        LayOneAt(op, state.grid, p, Bridge(p, op.bridge, direction));
        state.grid := state.grid[p.row := state.grid[p.row][p.col := Bridge(p, op.bridge, direction)]];
      } else if cell.Bridge? && cell.direction == direction {
        LayOneAt(op, state.grid, p, cell.(bridgeCount := cell.bridgeCount + op.bridge));
        state.grid := state.grid[p.row := state.grid[p.row][p.col := cell.(bridgeCount := cell.bridgeCount + op.bridge)]];
      } else {
        LayOneAt(op, state.grid, p, cell);
      }
    }

    /** `revertLastChange`: drop the newest snapshot unless it is the only
        one; the one before becomes current. */
    method RevertLastChange()
      requires |history| >= 1
      modifies this
      ensures old(Valid()) ==> Valid()
      ensures |old(history)| > 1 ==> history == old(history)[..|old(history)| - 1] && currentState == history[|history| - 1]
      ensures |old(history)| <= 1 ==> history == old(history) && currentState == old(currentState)
    {
      if |history| > 1 {
        if Valid() {
          LayoutsPrefix(history[0].grid, history, |history| - 1);
          LayoutsAt(history[0].grid, history, |history| - 2);
        }
        history := history[..|history| - 1];
        currentState := history[|history| - 1];
      }
    }

    /** `verifyCompleteState`: every island's demand is met. */
    method VerifyCompleteState() returns (complete: bool)
      ensures complete <==> AllIslandsDone(currentState.grid)
    {
      var grid: Grid := currentState.grid;
      for row := 0 to |grid|
        invariant forall i, j :: 0 <= i < row && 0 <= j < |grid[i]| && grid[i][j].Island? ==> VerifyIsland(grid[i][j])
      {
        for col := 0 to |grid[row]|
          invariant forall i, j :: 0 <= i < row && 0 <= j < |grid[i]| && grid[i][j].Island? ==> VerifyIsland(grid[i][j])
          invariant forall j :: 0 <= j < col && grid[row][j].Island? ==> VerifyIsland(grid[row][j])
        {
          var cell := grid[row][col];
          if cell.Island? {
            if !VerifyIsland(cell) {
              return false;
            }
          }
        }
      }
      return true;
    }

    /** A valid board can be printed: every island of the current state
        has an island of the first snapshot at its coordinate. */
    lemma ValidIslandsKnown()
      requires Valid()
      ensures IslandsKnown(history[0].grid, currentState.grid)
    {
      LayoutsAt(history[0].grid, history, |history| - 1);
    }

    /** `printBoard`: the rendered text, one `\n`-terminated line per row;
        a final print shows each island's demand from the first snapshot. */
    method PrintBoard(isFinalPrint: bool) returns (finalStr: string)
      requires |history| >= 1 && (isFinalPrint ==> IslandsKnown(history[0].grid, currentState.grid))
      ensures finalStr == RenderRows(currentState.grid, history[0].grid, isFinalPrint)
    {
      finalStr := "";
      var beginState := history[0];
      var grid: Grid, begin: Grid := currentState.grid, beginState.grid;
      for row := 0 to |grid|
        invariant finalStr == RenderRows(grid[..row], begin, isFinalPrint)
      {
        var rowStr := "";
        for col := 0 to |grid[row]|
          invariant rowStr == RowText(grid[row][..col], begin, isFinalPrint)
        {
          var cell := grid[row][col];
          var piece := CellText(cell, begin, isFinalPrint);
          RowTextSnoc(grid[row], col, begin, isFinalPrint);
          rowStr := rowStr + piece;
        }
        assert grid[row][..|grid[row]|] == grid[row];
        ghost var before := finalStr;
        finalStr := finalStr + rowStr;
        finalStr := finalStr + "\n";
        assert finalStr == before + (rowStr + "\n");
        RenderRowsSnoc(grid[..row], grid[row], begin, isFinalPrint);
        assert grid[..row + 1] == grid[..row] + [grid[row]];
      }
      assert grid[..|grid|] == grid;
    }
  }

  /** `begin` has an island at `c`. */
  predicate HasIslandAt(begin: Grid, c: Coord) {
    0 <= c.row < |begin| && 0 <= c.col < |begin[c.row]| && begin[c.row][c.col].Island?
  }

  /** Every island of `g` has an island of `begin` at its coordinate. */
  predicate IslandsKnown(begin: Grid, g: Grid) {
    forall i, j :: 0 <= i < |g| && 0 <= j < |g[i]| && g[i][j].Island? ==> HasIslandAt(begin, g[i][j].coord)
  }

  lemma ConsistentIslandsKnown(first: Grid, g: Grid)
    requires Consistent(first, g)
    ensures IslandsKnown(first, g)
  {
  }

  /** `f` lies on the walk from `op.start` up to and including `op.end`,
      which advances by (`dx`, `dy`) each step. */
  predicate OnSegment(op: Operation, dx: int, dy: int, f: Coord) {
    && (op.start.row == op.end.row || op.start.col == op.end.col)
    && if op.start.col == op.end.col then
      dy == 0 && dx == (if op.start.row < op.end.row then 1 else -1) && f.col == op.start.col
      && (if dx == 1 then op.start.row <= f.row <= op.end.row else op.end.row <= f.row <= op.start.row)
    else
      dx == 0 && dy == (if op.start.col < op.end.col then 1 else -1) && f.row == op.start.row
      && (if dy == 1 then op.start.col <= f.col <= op.end.col else op.end.col <= f.col <= op.start.col)
  }

  /** `p` has been passed by a walk from `s` that advances by (`dx`, `dy`)
      and is now at `f`. */
  predicate Behind(dx: int, dy: int, s: Coord, f: Coord, p: Coord) {
    if dx == 1 then p.col == s.col && s.row <= p.row < f.row
    else if dx == -1 then p.col == s.col && f.row < p.row <= s.row
    else if dy == 1 then p.row == s.row && s.col <= p.col < f.col
    else p.row == s.row && f.col < p.col <= s.col
  }

  /** Once the walk reaches the end it has passed exactly the walked cells. */
  lemma BehindEnd(op: Operation, dx: int, dy: int, p: Coord)
    requires op.start != op.end && (op.start.row == op.end.row || op.start.col == op.end.col)
    requires OnSegment(op, dx, dy, op.end)
    ensures Behind(dx, dy, op.start, op.end, p) == OnWalk(op, p)
  {
  }

  /** Steps left from `f` to the end of the walk. */
  function StepsLeft(op: Operation, dx: int, dy: int, f: Coord): int {
    if dx == 1 then op.end.row - f.row
    else if dx == -1 then f.row - op.end.row
    else if dy == 1 then op.end.col - f.col
    else f.col - op.end.col
  }

  /** The cell the walk stands on after `t` steps. */
  function CellAt(op: Operation, dx: int, dy: int, t: nat): Coord {
    if dx == 1 then Coord(op.start.row + t, op.start.col)
    else if dx == -1 then Coord(op.start.row - t, op.start.col)
    else if dy == 1 then Coord(op.start.row, op.start.col + t)
    else Coord(op.start.row, op.start.col - t)
  }

  /** One step of `applyOperation`'s walk at `p`, when `p` is on the grid. */
  function LayOne(op: Operation, g: Grid, p: Coord): Grid {
    if 0 <= p.row < |g| && 0 <= p.col < |g[p.row]| then g[p.row := g[p.row][p.col := Lay(op, g[p.row][p.col], p)]] else g
  }

  /** `LayOne` as the update of one cell; laying a cell that does not
      change leaves the grid as it is. */
  lemma LayOneAt(op: Operation, g: Grid, p: Coord, v: Cell)
    requires 0 <= p.row < |g| && 0 <= p.col < |g[p.row]|
    requires v == Lay(op, g[p.row][p.col], p)
    ensures LayOne(op, g, p) == g[p.row := g[p.row][p.col := v]]
    ensures v == g[p.row][p.col] ==> LayOne(op, g, p) == g
  {
    if v == g[p.row][p.col] {
      assert g[p.row][p.col := v] == g[p.row];
    }
  }

  /** The grid after the first `k` steps of the walk. */
  ghost function Walked(op: Operation, dx: int, dy: int, g0: Grid, k: nat): Grid {
    if k == 0 then g0 else LayOne(op, Walked(op, dx, dy, g0, k - 1), CellAt(op, dx, dy, k - 1))
  }

  /** `LayOne` changes at most the cell at `p`. */
  lemma LayOneCells(op: Operation, g: Grid, p: Coord)
    ensures |LayOne(op, g, p)| == |g| && forall i :: 0 <= i < |g| ==> |LayOne(op, g, p)[i]| == |g[i]|
    ensures forall i, j :: 0 <= i < |g| && 0 <= j < |g[i]| ==>
      LayOne(op, g, p)[i][j] == if Coord(i, j) == p then Lay(op, g[i][j], p) else g[i][j]
  {
  }

  /** One more step passes exactly one more cell, the one the walk stood on. */
  lemma BehindStep(op: Operation, dx: int, dy: int, k: nat, p: Coord)
    requires k > 0 && OnSegment(op, dx, dy, op.start)
    ensures !Behind(dx, dy, op.start, CellAt(op, dx, dy, k - 1), CellAt(op, dx, dy, k - 1))
    ensures Behind(dx, dy, op.start, CellAt(op, dx, dy, k), p) <==> Behind(dx, dy, op.start, CellAt(op, dx, dy, k - 1), p) || p == CellAt(op, dx, dy, k - 1)
  {
  }

  /** After `k` steps the walk has laid exactly the cells it passed. */
  lemma {:induction false} WalkedCells(op: Operation, dx: int, dy: int, g0: Grid, k: nat)
    requires OnSegment(op, dx, dy, op.start)
    ensures var g := Walked(op, dx, dy, g0, k);
      && |g| == |g0| && (forall i :: 0 <= i < |g0| ==> |g[i]| == |g0[i]|)
      && forall i, j :: 0 <= i < |g0| && 0 <= j < |g0[i]| ==>
           g[i][j] == if Behind(dx, dy, op.start, CellAt(op, dx, dy, k), Coord(i, j)) then Lay(op, g0[i][j], Coord(i, j)) else g0[i][j]
  {
    if k == 0 {
      forall p ensures !Behind(dx, dy, op.start, CellAt(op, dx, dy, 0), p) {
      }
    } else {
      var f := CellAt(op, dx, dy, k - 1);
      WalkedCells(op, dx, dy, g0, k - 1);
      var g := Walked(op, dx, dy, g0, k - 1);
      LayOneCells(op, g, f);
      forall p ensures Behind(dx, dy, op.start, CellAt(op, dx, dy, k), p) <==> Behind(dx, dy, op.start, f, p) || p == f {
        BehindStep(op, dx, dy, k, p);
      }
    }
  }

  /** At the end of the walk exactly the walked cells are laid. */
  lemma WalkDone(op: Operation, dx: int, dy: int, g0: Grid, k: nat)
    requires op.start != op.end
    requires OnSegment(op, dx, dy, op.start) && CellAt(op, dx, dy, k) == op.end && OnSegment(op, dx, dy, op.end)
    ensures var g := Walked(op, dx, dy, g0, k);
      && |g| == |g0| && (forall i :: 0 <= i < |g0| ==> |g[i]| == |g0[i]|)
      && forall i, j :: 0 <= i < |g0| && 0 <= j < |g0[i]| ==>
           g[i][j] == if OnWalk(op, Coord(i, j)) then Lay(op, g0[i][j], Coord(i, j)) else g0[i][j]
  {
    WalkedCells(op, dx, dy, g0, k);
    forall p ensures Behind(dx, dy, op.start, op.end, p) == OnWalk(op, p) {
      BehindEnd(op, dx, dy, p);
    }
  }

  /** An endpoint of `applyOperation`: an island there loses `bridge` from
      its demand. */
  function Spend(op: Operation, g: Grid, p: Coord): Grid {
    if 0 <= p.row < |g| && 0 <= p.col < |g[p.row]| && g[p.row][p.col].Island? then
      g[p.row := g[p.row][p.col := g[p.row][p.col].(requestBridgeCount := g[p.row][p.col].requestBridgeCount - op.bridge)]]
    else g
  }

  /** `Spend` changes at most the island at `p`. */
  lemma SpendCells(op: Operation, g: Grid, p: Coord)
    ensures |Spend(op, g, p)| == |g| && forall i :: 0 <= i < |g| ==> |Spend(op, g, p)[i]| == |g[i]|
    ensures forall i, j :: 0 <= i < |g| && 0 <= j < |g[i]| ==>
      Spend(op, g, p)[i][j] == if Coord(i, j) == p && g[i][j].Island? then g[i][j].(requestBridgeCount := g[i][j].requestBridgeCount - op.bridge) else g[i][j]
  {
  }

  /** One cell of `WalkThenSpend`. */
  lemma CellThenSpend(op: Operation, c0: Cell, w: Cell, s1: Cell, h: Cell, p: Coord)
    requires op.start != op.end
    requires w == if OnWalk(op, p) then Lay(op, c0, p) else c0
    requires s1 == if p == op.start && w.Island? then w.(requestBridgeCount := w.requestBridgeCount - op.bridge) else w
    requires h == if p == op.end && s1.Island? then s1.(requestBridgeCount := s1.requestBridgeCount - op.bridge) else s1
    ensures h == ApplyAt(op, c0, p)
  {
  }

  /** The walk followed by the two endpoint updates is `Applied`. */
  lemma WalkThenSpend(op: Operation, dx: int, dy: int, g0: Grid, k: nat)
    requires op.start != op.end
    requires OnSegment(op, dx, dy, op.start) && CellAt(op, dx, dy, k) == op.end && OnSegment(op, dx, dy, op.end)
    ensures Spend(op, Spend(op, Walked(op, dx, dy, g0, k), op.start), op.end) == Applied(op, g0)
  {
    var w := Walked(op, dx, dy, g0, k);
    var s1 := Spend(op, w, op.start);
    var h := Spend(op, s1, op.end);
    var r := Applied(op, g0);
    WalkDone(op, dx, dy, g0, k);
    SpendCells(op, w, op.start);
    SpendCells(op, s1, op.end);
    forall i | 0 <= i < |g0| ensures h[i] == r[i] {
      forall j | 0 <= j < |g0[i]| ensures h[i][j] == r[i][j] {
        CellThenSpend(op, g0[i][j], w[i][j], s1[i][j], h[i][j], Coord(i, j));
      }
    }
  }

  /** `VerifyIsland` of game.ts: the island's demand is used up. */
  predicate VerifyIsland(cell: Cell)
    requires cell.Island?
  {
    cell.requestBridgeCount == 0
  }

  /** What `verifyCompleteState` checks: every island's demand is used up. */
  predicate AllIslandsDone(g: Grid) {
    forall i, j :: 0 <= i < |g| && 0 <= j < |g[i]| && g[i][j].Island? ==> VerifyIsland(g[i][j])
  }

  // ---------------------------------------------------------------------
  // Rendering

  /** The glyph of a bridge: `-`, `=`, `E` across, `|`, `"`, `#` down; no
      glyph for any other count. */
  function BridgeGlyph(n: int, d: Direction): string {
    match d
    case Horizontal => if n == 1 then "-" else if n == 2 then "=" else if n == 3 then "E" else ""
    case Vertical => if n == 1 then "|" else if n == 2 then "\"" else if n == 3 then "#" else ""
  }

  /** The text of one cell; on a final print an island shows the demand it
      had in `begin` (the first snapshot) at its coordinate. */
  function CellText(cell: Cell, begin: Grid, isFinalPrint: bool): string {
    match cell
    case Water(_) => "."
    case Island(c, demand) =>
      if !isFinalPrint then HexString(demand)
      else if HasIslandAt(begin, c) then HexString(begin[c.row][c.col].requestBridgeCount)
      else ""
    case Bridge(_, n, d) => BridgeGlyph(n, d)
  }

  function RowText(row: seq<Cell>, begin: Grid, isFinalPrint: bool): string {
    if row == [] then "" else RowText(row[..|row| - 1], begin, isFinalPrint) + CellText(row[|row| - 1], begin, isFinalPrint)
  }

  lemma RowTextSnoc(row: seq<Cell>, n: nat, begin: Grid, isFinalPrint: bool)
    requires n < |row|
    ensures RowText(row[..n + 1], begin, isFinalPrint) == RowText(row[..n], begin, isFinalPrint) + CellText(row[n], begin, isFinalPrint)
  {
    assert row[..n + 1][..n] == row[..n];
  }

  function RenderRows(rows: Grid, begin: Grid, isFinalPrint: bool): string {
    if rows == [] then "" else RowText(rows[0], begin, isFinalPrint) + "\n" + RenderRows(rows[1..], begin, isFinalPrint)
  }

  lemma {:induction false} RenderRowsSnoc(rows: Grid, row: seq<Cell>, begin: Grid, isFinalPrint: bool)
    ensures RenderRows(rows + [row], begin, isFinalPrint) == RenderRows(rows, begin, isFinalPrint) + (RowText(row, begin, isFinalPrint) + "\n")
  {
    var last := RowText(row, begin, isFinalPrint) + "\n";
    if rows == [] {
      assert RenderRows([row], begin, isFinalPrint) == last + RenderRows([], begin, isFinalPrint);
    } else {
      var all := rows + [row];
      assert all[0] == rows[0] && all[1..] == rows[1..] + [row];
      var head := RowText(rows[0], begin, isFinalPrint) + "\n";
      RenderRowsSnoc(rows[1..], row, begin, isFinalPrint);
      assert RenderRows(all, begin, isFinalPrint) == head + (RenderRows(rows[1..], begin, isFinalPrint) + last);
    }
  }

  /** A grid the parser can produce: water and islands of demand 0 to 15,
      at their own positions, no empty row. */
  predicate Parseable(g: Grid) {
    && Rectangular(g) && CoordsMatch(g) && (|g| > 0 ==> |g[0]| > 0)
    && forall i, j :: 0 <= i < |g| && 0 <= j < |g[i]| ==>
         g[i][j].Water? || (g[i][j].Island? && 0 <= g[i][j].requestBridgeCount < 16)
  }

  /** Render, then parse: `printBoard` writes text that `parseInput` reads
      back as the same grid. */
  lemma RenderParsesBack(g: Grid, begin: Grid)
    requires Parseable(g)
    ensures AllCellChars(NonBlankLines(RenderRows(g, begin, false)))
    ensures ParsedAs(RenderRows(g, begin, false), g)
  {
    var texts := seq(|g|, i requires 0 <= i < |g| => RowText(g[i], begin, false));
    forall i | 0 <= i < |g|
      ensures |texts[i]| == |g[i]| && '\n' !in texts[i] && !IsBlank(texts[i])
      ensures forall j :: 0 <= j < |g[i]| ==> CellOf(texts[i][j], i, j) == Some(g[i][j])
    {
      RowTextChars(g[i], i, begin);
      assert !IsJsWhitespace(texts[i][0]);
    }
    SplitRender(g, begin, texts);
    NonBlankKeepsAll(texts);
  }

  lemma {:induction false} RowTextChars(row: seq<Cell>, i: int, begin: Grid)
    requires forall j :: 0 <= j < |row| ==> row[j].coord == Coord(i, j)
    requires forall j :: 0 <= j < |row| ==> row[j].Water? || (row[j].Island? && 0 <= row[j].requestBridgeCount < 16)
    ensures |RowText(row, begin, false)| == |row|
    ensures forall j :: 0 <= j < |row| ==> CellOf(RowText(row, begin, false)[j], i, j) == Some(row[j])
    ensures forall j :: 0 <= j < |row| ==> RowText(row, begin, false)[j] != '\n' && !IsJsWhitespace(RowText(row, begin, false)[j])
  {
    if row != [] {
      var n := |row| - 1;
      RowTextChars(row[..n], i, begin);
      var t := CellText(row[n], begin, false);
      assert |t| == 1 && CellOf(t[0], i, n) == Some(row[n]) && !IsJsWhitespace(t[0]);
    }
  }

  lemma {:induction false} SplitRender(rows: Grid, begin: Grid, texts: seq<string>)
    requires |texts| == |rows|
    requires forall i :: 0 <= i < |rows| ==> texts[i] == RowText(rows[i], begin, false) && '\n' !in texts[i]
    ensures Split(RenderRows(rows, begin, false), '\n') == texts + [""]
  {
    if rows != [] {
      SplitRender(rows[1..], begin, texts[1..]);
      SplitAfterPiece(texts[0], '\n', RenderRows(rows[1..], begin, false));
      assert RenderRows(rows, begin, false) == texts[0] + ['\n'] + RenderRows(rows[1..], begin, false);
      assert texts == [texts[0]] + texts[1..];
    }
  }

  lemma {:induction false} NonBlankKeepsAll(texts: seq<string>)
    requires forall i :: 0 <= i < |texts| ==> !IsBlank(texts[i])
    ensures NonBlank(texts + [""]) == texts
  {
    if texts != [] {
      assert (texts + [""])[1..] == texts[1..] + [""];
      NonBlankKeepsAll(texts[1..]);
    }
  }

  /** The constructor's whole path: parse the text (a bad character throws,
      here `Err`), then build the board. Rows of unequal length are outside
      the model. */
  method Load(input: string) returns (r: Result<GameBoard, char>)
    requires forall i :: 0 <= i < |NonBlankLines(input)| ==> |NonBlankLines(input)[i]| == |NonBlankLines(input)[0]|
    ensures r.Ok? <==> AllCellChars(NonBlankLines(input))
    ensures r.Err? ==> FirstBadChar(NonBlankLines(input), r.error)
    ensures r.Ok? ==> fresh(r.value) && r.value.Valid() && |r.value.history| == 1 && ParsedAs(input, r.value.currentState.grid)
  {
    var parsed := ParseInput(input);
    match parsed {
      case Err(c) =>
        return Err(c);
      case Ok(grid) =>
        var board := new GameBoard(grid);
        return Ok(board);
    }
  }
}
