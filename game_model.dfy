/** The shared data model of the solver (sol/common/gameModel.ts): grid
    cells, coordinates, bridge operations and the operation-list formatter. */
module GameModel {
  import opened Text

  /** `[row, column]`. */
  datatype Coord = Coord(row: int, col: int)

  /** A bridge cell's label; the type admits no third value. */
  datatype Direction = Horizontal | Vertical

  /** The closed union of the three cell kinds; every cell carries its
      coordinate. */
  datatype Cell =
    | Water(coord: Coord)
    | Island(coord: Coord, requestBridgeCount: int)
    | Bridge(coord: Coord, bridgeCount: int, direction: Direction)

  /** The widest bridge: three parallel segments. */
  const MAX_BRIDGE_SIZE: int := 3

  /** A request to lay `bridge` segments on the straight line from `start`
      to `end`. */
  datatype Operation = Operation(start: Coord, end: Coord, bridge: int)

  /** `GameState.grid`: rows of cells. */
  type Grid = seq<seq<Cell>>

  /** `GameState`: an object holding the grid; the board's history shares
      these objects. */
  class GameState {
    var grid: Grid

    constructor (grid: Grid)
      ensures this.grid == grid
    {
      this.grid := grid;
    }
  }

  /** `coordToString`: `(row, col)`. */
  function CoordToString(c: Coord): (s: string)
    ensures |s| >= 6 && s[0] == '(' && s[|s| - 1] == ')'
  {
    "(" + IntToString(c.row) + ", " + IntToString(c.col) + ")"
  }

  /** The text of a coordinate determines the coordinate. */
  lemma CoordToStringInjective(a: Coord, b: Coord)
    requires CoordToString(a) == CoordToString(b)
    ensures a == b
  {
    var ra, ca := IntToString(a.row), IntToString(a.col);
    var rb, cb := IntToString(b.row), IntToString(b.col);
    IntToStringChars(a.row);
    IntToStringChars(b.row);
    assert ',' !in ra && ',' !in rb;
    PairTextInjective(ra, ca, rb, cb);
    IntToStringInjective(a.row, b.row);
    IntToStringInjective(a.col, b.col);
  }

  /** `(x, y)` determines `x` and `y` when `x` holds no comma. */
  lemma PairTextInjective(ra: string, ca: string, rb: string, cb: string)
    requires ',' !in ra && ',' !in rb
    requires "(" + ra + ", " + ca + ")" == "(" + rb + ", " + cb + ")"
    ensures ra == rb && ca == cb
  {
    var ia, ib := ra + [','] + (" " + ca), rb + [','] + (" " + cb);
    assert "(" + ra + ", " + ca + ")" == "(" + ia + ")";
    assert "(" + rb + ", " + cb + ")" == "(" + ib + ")";
    Unwrap(ia, ib);
    CutAtFirst(ra, " " + ca, rb, " " + cb, ',');
    Unwrap0(ca, cb);
  }

  lemma Unwrap(x: string, y: string)
    requires "(" + x + ")" == "(" + y + ")"
    ensures x == y
  {
    assert x == ("(" + x + ")")[1..|x| + 1];
    assert y == ("(" + y + ")")[1..|y| + 1];
  }

  lemma Unwrap0(x: string, y: string)
    requires " " + x == " " + y
    ensures x == y
  {
    assert x == (" " + x)[1..];
    assert y == (" " + y)[1..];
  }

  /** Two strings that agree and whose first `sep` follows `x1` and `x2`
      respectively split the same way. */
  lemma CutAtFirst(x1: string, y1: string, x2: string, y2: string, sep: char)
    requires sep !in x1 && sep !in x2
    requires x1 + [sep] + y1 == x2 + [sep] + y2
    ensures x1 == x2 && y1 == y2
  {
    var s := x1 + [sep] + y1;
    assert forall k :: 0 <= k < |x1| ==> s[k] == x1[k] != sep;
    assert forall k :: 0 <= k < |x2| ==> s[k] == x2[k] != sep;
    assert s[|x1|] == sep && s[|x2|] == sep;
    assert x1 == s[..|x1|] == x2;
    assert y1 == s[|x1| + 1..] == y2;
  }

  /** One line of `printOperations` for the operation numbered `number`. */
  function OperationLine(number: int, op: Operation): string {
    "  Operation " + IntToString(number) + ": Start at " + CoordToString(op.start)
    + ", End at " + CoordToString(op.end) + ", Bridges: " + IntToString(op.bridge)
  }

  /** Lines numbered from 1, one per item. */
  function Numbered<T>(xs: seq<T>, line: (int, T) -> string): (lines: seq<string>)
    ensures |lines| == |xs|
    ensures forall k :: 0 <= k < |xs| ==> lines[k] == line(k + 1, xs[k])
  {
    seq(|xs|, k requires 0 <= k < |xs| => line(k + 1, xs[k]))
  }

  /** `printOperations`, as the lines it writes to the console. */
  function PrintOperations(ops: seq<Operation>): (lines: seq<string>)
    ensures ops == [] ==> lines == ["No operations to perform."]
    ensures ops != [] ==> |lines| == |ops| + 1 && lines[0] == "Operations:"
  {
    if ops == [] then ["No operations to perform."] else ["Operations:"] + Numbered(ops, OperationLine)
  }

  /** Line `k + 1` of a non-empty listing describes operation `k`, numbered
      from 1. */
  lemma PrintOperationsLine(ops: seq<Operation>, k: nat)
    requires k < |ops|
    ensures PrintOperations(ops)[k + 1] == OperationLine(k + 1, ops[k])
  {
  }
}
