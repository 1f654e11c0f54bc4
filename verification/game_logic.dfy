/**
 * The tic-tac-toe board engine: pure functions over a row-major board of
 * cells. Every board the game builds has nine cells; the functions are total
 * on boards of any length and read a missing cell the way JavaScript reads an
 * array past its end, as `undefined`, which is falsy like an empty cell but
 * is not `null`.
 */
module GameLogic {

  /** One square: `null`, `'X'` or `'O'`. */
  datatype Cell = Empty | X | O

  /** A symbol a player places: the type of the current player. */
  type Mark = c: Cell | c != Empty witness X

  type Board = seq<Cell>

  /** The three indices of a line, destructured as `[a, b, c]`. */
  datatype Line = Line(a: int, b: int, c: int)

  /** The winning lines in scan order: rows, then columns, then diagonals. */
  const WinningLines: seq<Line> := [
    Line(0, 1, 2), Line(3, 4, 5), Line(6, 7, 8),
    Line(0, 3, 6), Line(1, 4, 7), Line(2, 5, 8),
    Line(0, 4, 8), Line(2, 4, 6)
  ]

  /** Reads cell `i`; an index off the board reads as empty (falsy). */
  function At(b: Board, i: int): Cell {
    if 0 <= i < |b| then b[i] else Empty
  }

  /** The symbol a line would award: the cell at its first index. */
  function Owner(b: Board, l: Line): Cell {
    At(b, l.a)
  }

  /** Line `l` holds three equal non-empty cells. */
  predicate Uniform(b: Board, l: Line) {
    Owner(b, l) != Empty && Owner(b, l) == At(b, l.b) && Owner(b, l) == At(b, l.c)
  }

  /** Line `k` of the table is uniform and no earlier line is. */
  ghost predicate FirstUniform(b: Board, k: int) {
    && 0 <= k < |WinningLines|
    && Uniform(b, WinningLines[k])
    && forall j :: 0 <= j < k ==> !Uniform(b, WinningLines[j])
  }

  /** Some line of the table is uniform. */
  ghost predicate HasUniformLine(b: Board) {
    exists k :: 0 <= k < |WinningLines| && Uniform(b, WinningLines[k])
  }

  /** Row and column of a cell of the 3x3 grid, numbered row by row. */
  function Row(i: int): int {
    if i < 3 then 0 else if i < 6 then 1 else 2
  }

  function Col(i: int): int {
    i - 3 * Row(i)
  }

  /**
   * An independent description of a winning line: three increasing cells of
   * the grid that share a row, share a column, or lie on one of the two
   * diagonals.
   */
  predicate IsGridLine(l: Line) {
    && 0 <= l.a < l.b < l.c < 9
    && (|| (Row(l.a) == Row(l.b) == Row(l.c))
        || (Col(l.a) == Col(l.b) == Col(l.c))
        || (Row(l.a) == Col(l.a) && Row(l.b) == Col(l.b) && Row(l.c) == Col(l.c))
        || (Row(l.a) + Col(l.a) == 2 && Row(l.b) + Col(l.b) == 2 && Row(l.c) + Col(l.c) == 2))
  }

  /** The table holds eight lines, each a line of the grid, so every index is in 0..8. */
  lemma WinningLinesAreGridLines()
    ensures |WinningLines| == 8
    ensures forall k :: 0 <= k < |WinningLines| ==> IsGridLine(WinningLines[k])
    ensures forall k :: 0 <= k < |WinningLines| ==>
      0 <= WinningLines[k].a < 9 && 0 <= WinningLines[k].b < 9 && 0 <= WinningLines[k].c < 9
  {
  }

  /** Conversely, every line of the grid is in the table: none is missing. */
  lemma GridLinesAreWinningLines(l: Line)
    requires IsGridLine(l)
    ensures l in WinningLines
  {
  }

  /** No line of the table from index `lo` up to `hi` is uniform. */
  ghost predicate NoUniformBetween(b: Board, lo: int, hi: int) {
    forall j :: lo <= j < hi && 0 <= j < |WinningLines| ==> !Uniform(b, WinningLines[j])
  }

  /** Scans the table from line `k` and returns the owner of the first uniform line. */
  function ScanFrom(b: Board, k: nat): (r: Cell)
    requires k <= |WinningLines|
    ensures r == Empty <==> NoUniformBetween(b, k, |WinningLines|)
    ensures r != Empty ==>
      exists j :: k <= j < |WinningLines| && Uniform(b, WinningLines[j]) && r == Owner(b, WinningLines[j])
                  && NoUniformBetween(b, k, j)
    decreases |WinningLines| - k
  {
    if k == |WinningLines| then Empty
    else if Uniform(b, WinningLines[k]) then Owner(b, WinningLines[k])
    else ScanFrom(b, k + 1)
  }

  /**
   * `checkWinner`: empty exactly when no line is uniform; otherwise the
   * symbol of the first uniform line in table order.
   */
  function CheckWinner(b: Board): (r: Cell)
    ensures r == Empty <==> !HasUniformLine(b)
    ensures r != Empty ==> exists k :: FirstUniform(b, k) && r == Owner(b, WinningLines[k])
  {
    ScanFrom(b, 0)
  }

  /** `board.every((cell) => cell !== null)`. */
  function AllOccupied(b: Board): (r: bool)
    ensures r <==> forall i :: 0 <= i < |b| ==> b[i] != Empty
  {
    |b| == 0 || (b[0] != Empty && AllOccupied(b[1..]))
  }

  /** `checkDraw`: every cell is taken and no line is uniform. */
  function CheckDraw(b: Board): (r: bool)
    ensures r <==> (forall i :: 0 <= i < |b| ==> b[i] != Empty) && !HasUniformLine(b)
  {
    AllOccupied(b) && CheckWinner(b) == Empty
  }

  /** A draw and a winner exclude each other. */
  lemma DrawExcludesWinner(b: Board)
    ensures CheckDraw(b) ==> CheckWinner(b) == Empty
    ensures CheckWinner(b) != Empty ==> !CheckDraw(b)
  {
  }

  /** `getEmptyBoard`: nine empty cells. */
  function EmptyBoard(): (r: Board)
    ensures |r| == 9
    ensures forall i :: 0 <= i < |r| ==> r[i] == Empty
  {
    seq(9, _ => Empty)
  }

  /** The empty board has no winner and is not a draw. */
  lemma EmptyBoardUndecided()
    ensures CheckWinner(EmptyBoard()) == Empty
    ensures !CheckDraw(EmptyBoard())
  {
  }

  /** The cell can be taken: it exists and reads `null`. */
  predicate Free(b: Board, i: int) {
    0 <= i < |b| && b[i] == Empty
  }

  /**
   * `makeMove`: a new board with cell `i` set to `p` when that cell is free;
   * otherwise (taken, or off the board where it reads `undefined`) the same
   * board.
   */
  function MakeMove(b: Board, i: int, p: Cell): (r: Board)
    ensures |r| == |b|
    ensures !Free(b, i) ==> r == b
    ensures Free(b, i) ==> r[i] == p && forall j :: 0 <= j < |b| && j != i ==> r[j] == b[j]
  {
    if !(0 <= i < |b|) || b[i] != Empty then b else b[i := p]
  }

  /** Once a cell holds a symbol, any later move on it is a no-op. */
  lemma MakeMoveOnTakenCell(b: Board, i: int, p: Mark, q: Cell)
    ensures MakeMove(MakeMove(b, i, p), i, q) == MakeMove(b, i, p)
  {
  }

  /** Repeating a move on the same index changes nothing more. */
  lemma MakeMoveIdempotent(b: Board, i: int, p: Cell)
    ensures MakeMove(MakeMove(b, i, p), i, p) == MakeMove(b, i, p)
  {
  }

  /** Moves never clear a cell. */
  lemma MakeMoveKeepsTakenCells(b: Board, i: int, p: Cell, j: int)
    requires 0 <= j < |b| && b[j] != Empty
    ensures MakeMove(b, i, p)[j] == b[j]
  {
  }

  /** `getNextPlayer`: the other symbol. */
  function NextPlayer(p: Mark): (r: Mark)
    ensures r != p
  {
    if p == X then O else X
  }

  /** Alternation is an involution. */
  lemma NextPlayerInvolution(p: Mark)
    ensures NextPlayer(NextPlayer(p)) == p
  {
  }

  /** Number of cells of `b` holding `c`. */
  function Count(b: Board, c: Cell): nat
  {
    if |b| == 0 then 0 else (if b[0] == c then 1 else 0) + Count(b[1..], c)
  }

  /** Setting a free cell to `p` adds one `p` and changes no other count. */
  lemma {:induction false} CountAfterMove(b: Board, i: int, p: Mark, c: Cell)
    requires Free(b, i)
    ensures Count(MakeMove(b, i, p), c) ==
      if c == p then Count(b, c) + 1 else if c == Empty then Count(b, c) - 1 else Count(b, c)
    decreases |b|
  {
    var r := MakeMove(b, i, p);
    if i == 0 {
      assert r[1..] == b[1..];
    } else {
      assert r[1..] == MakeMove(b[1..], i - 1, p);
      CountAfterMove(b[1..], i - 1, p, c);
    }
  }

  /** The empty board holds no symbol. */
  lemma {:induction false} CountEmptyBoard(c: Mark)
    ensures Count(EmptyBoard(), c) == 0
  {
    CountOfBlank(EmptyBoard(), c);
  }

  /** A board of empty cells counts no symbol. */
  lemma {:induction false} CountOfBlank(b: Board, c: Mark)
    requires forall i :: 0 <= i < |b| ==> b[i] == Empty
    ensures Count(b, c) == 0
    decreases |b|
  {
    if |b| > 0 {
      CountOfBlank(b[1..], c);
    }
  }

  /**
   * On a board with no uniform line, a move can only complete lines of the
   * mover's symbol: the engine's result after the move is empty or the mover.
   */
  lemma MoveOnlyCreatesMoverLines(b: Board, i: int, p: Mark)
    requires Free(b, i)
    requires !HasUniformLine(b)
    ensures forall k :: 0 <= k < |WinningLines| && Uniform(MakeMove(b, i, p), WinningLines[k]) ==>
      Owner(MakeMove(b, i, p), WinningLines[k]) == p
    ensures CheckWinner(MakeMove(b, i, p)) in {Empty, p}
  {
  }

  /** A full board with no uniform line, `XOXOXOOXO`, is a draw with no winner. */
  lemma SampleDraw()
    ensures CheckDraw([X, O, X, O, X, O, O, X, O])
    ensures CheckWinner([X, O, X, O, X, O, O, X, O]) == Empty
  {
    var b := [X, O, X, O, X, O, O, X, O];
    assert forall k :: 0 <= k < |WinningLines| ==> !Uniform(b, WinningLines[k]);
  }

  /** The board before the double win below: level pieces and no line yet. */
  lemma TwoLineSetup()
    ensures var b: Board := [Empty, X, X, X, O, O, X, O, O];
      !HasUniformLine(b) && Count(b, X) == 4 && Count(b, O) == 4
  {
    var b: Board := [Empty, X, X, X, O, O, X, O, O];
    TwoLineSetupCounts();
    assert At(b, 0) == Empty && At(b, 1) == X && At(b, 2) == X && At(b, 3) == X && At(b, 6) == X;
    assert At(b, 4) == O && At(b, 5) == O && At(b, 7) == O && At(b, 8) == O;
    forall k | 0 <= k < |WinningLines| ensures !Uniform(b, WinningLines[k]) {
      if k == 0 || k == 3 || k == 6 {
        assert WinningLines[k].a == 0;
      } else {
        assert At(b, WinningLines[k].a) == X && At(b, WinningLines[k].b) == O;
      }
    }
  }

  /** Four of each symbol on the board of `TwoLineSetup`. */
  lemma TwoLineSetupCounts()
    ensures Count([Empty, X, X, X, O, O, X, O, O], X) == 4
    ensures Count([Empty, X, X, X, O, O, X, O, O], O) == 4
  {
    var b: Board := [Empty, X, X, X, O, O, X, O, O];
    assert b[1..] == [X, X, X, O, O, X, O, O];
  }

  /**
   * One move can complete two lines at once: from the board of
   * `TwoLineSetup`, X taking 0 completes the top row and the left column.
   * Both belong to the mover, who is the winner.
   */
  lemma OneMoveTwoLines()
    ensures var m := MakeMove([Empty, X, X, X, O, O, X, O, O], 0, X);
      Uniform(m, WinningLines[0]) && Uniform(m, WinningLines[3]) && CheckWinner(m) == X
  {
    var m := MakeMove([Empty, X, X, X, O, O, X, O, O], 0, X);
    assert m == [X, X, X, X, O, O, X, O, O];
    assert Uniform(m, WinningLines[0]);
  }
}
