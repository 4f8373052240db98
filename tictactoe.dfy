/**
 * Tic-tac-toe: the board, the rules of play, and a minimax player that prunes
 * its search with a single bound per call (`beta` for the maximising X,
 * `alpha` for the minimising O).
 *
 * Boards are values. The original's `result` copies the board before it
 * places a mark, so no operation changes the board it is given; sequences
 * capture exactly that.
 */
module TicTacToe {
  import opened Wrappers

  datatype Player = X | O

  /** A square holds a mark or nothing (`None` is the original's `EMPTY`). */
  type Cell = Option<Player>

  /** Three rows of three squares. */
  type Board = b: seq<seq<Cell>> | |b| == 3 && forall i | 0 <= i < 3 :: |b[i]| == 3
    witness [[None, None, None], [None, None, None], [None, None, None]]

  /** A move names a row and a column. Any pair may be asked for; `result` rejects the illegal ones. */
  type Action = (int, int)

  /** Why `result` refuses a move (the original raises `ValueError`). */
  datatype Error = InvalidAction(action: Action)

  function Other(p: Player): Player {
    if p == X then O else X
  }

  predicate InRange(a: Action) {
    0 <= a.0 < 3 && 0 <= a.1 < 3
  }

  /** The nine squares, row by row. */
  const AllCells: seq<Action> := [(0, 0), (0, 1), (0, 2), (1, 0), (1, 1), (1, 2), (2, 0), (2, 1), (2, 2)]

  // ---------------------------------------------------------------------------
  // The start of the game and whose turn it is
  // ---------------------------------------------------------------------------

  function InitialState(): (b: Board)
    ensures forall i, j | 0 <= i < 3 && 0 <= j < 3 :: b[i][j] == None
  {
    [[None, None, None], [None, None, None], [None, None, None]]
  }

  /** The number of `p`'s marks in a row, counted left to right. */
  function CountRow(row: seq<Cell>, p: Player): nat {
    if row == [] then 0
    else CountRow(row[..|row| - 1], p) + (if row[|row| - 1] == Some(p) then 1 else 0)
  }

  /** The number of `p`'s marks in a list of rows. */
  function CountRows(rows: seq<seq<Cell>>, p: Player): nat {
    if rows == [] then 0 else CountRows(rows[..|rows| - 1], p) + CountRow(rows[|rows| - 1], p)
  }

  /** X moves first: X is to move unless X has placed more marks than O. */
  function ToMove(b: Board): Player {
    if CountRows(b, X) <= CountRows(b, O) then X else O
  }

  /** The player whose turn it is, found by counting both players' marks square by square. */
  method CurrentPlayer(board: Board) returns (p: Player)
    ensures p == ToMove(board)
  {
    var cntX, cntO := 0, 0;
    for i := 0 to 3
      invariant cntX == CountRows(board[..i], X) && cntO == CountRows(board[..i], O)
    {
      var row := board[i];
      for j := 0 to 3
        invariant cntX == CountRows(board[..i], X) + CountRow(row[..j], X)
        invariant cntO == CountRows(board[..i], O) + CountRow(row[..j], O)
      {
        assert row[..j + 1][..j] == row[..j];
        if row[j] == Some(X) {
          cntX := cntX + 1;
        } else if row[j] == Some(O) {
          cntO := cntO + 1;
        }
      }
      assert row[..3] == row;
      assert board[..i + 1][..i] == board[..i];
    }
    assert board[..3] == board;
    p := if cntX <= cntO then X else O;
  }

  // ---------------------------------------------------------------------------
  // Moves
  // ---------------------------------------------------------------------------

  /** The empty squares. */
  function Actions(b: Board): set<Action> {
    set i, j | 0 <= i < 3 && 0 <= j < 3 && b[i][j] == None :: (i, j)
  }

  /** A move is available exactly when it names a square on the board that is empty. */
  lemma ActionsExactlyEmpty(b: Board, a: Action)
    ensures a in Actions(b) <==> InRange(a) && b[a.0][a.1] == None
  {
    if InRange(a) && b[a.0][a.1] == None {
      assert a == (a.0, a.1);
    }
  }

  /** The available moves, collected square by square. */
  method PossibleActions(board: Board) returns (s: set<Action>)
    ensures s == Actions(board)
  {
    s := {};
    for i := 0 to 3
      invariant forall a :: a in s <==> InRange(a) && a.0 < i && board[a.0][a.1] == None
    {
      for j := 0 to 3
        invariant forall a :: a in s <==> InRange(a) && (a.0 < i || (a.0 == i && a.1 < j)) && board[a.0][a.1] == None
      {
        if board[i][j] == None {
          s := s + {(i, j)};
        }
      }
    }
    forall a ensures a in s <==> a in Actions(board) {
      ActionsExactlyEmpty(board, a);
    }
  }

  /** `b` with `p`'s mark on square `a`. */
  function Place(b: Board, a: Action, p: Player): Board
    requires InRange(a)
  {
    b[a.0 := b[a.0][a.1 := Some(p)]]
  }

  /** The board after the player to move takes the available square `a`. */
  function Next(b: Board, a: Action): (r: Board)
    requires a in Actions(b)
    ensures |Actions(r)| == |Actions(b)| - 1
  {
    ActionsExactlyEmpty(b, a);
    NextActions(b, a);
    Place(b, a, ToMove(b))
  }

  /** Taking a square removes exactly that square from the available moves. */
  lemma NextActions(b: Board, a: Action)
    requires a in Actions(b)
    ensures InRange(a) && Actions(Place(b, a, ToMove(b))) == Actions(b) - {a}
  {
    ActionsExactlyEmpty(b, a);
    var r := Place(b, a, ToMove(b));
    forall c ensures c in Actions(r) <==> c in Actions(b) - {a} {
      ActionsExactlyEmpty(b, c);
      ActionsExactlyEmpty(r, c);
    }
  }

  /**
   * The original's `result`: an unavailable move is refused; otherwise the
   * player to move marks the square and every other square keeps its content.
   */
  function ResultBoard(b: Board, a: Action): (r: Result<Board, Error>)
    ensures r.Failure? <==> a !in Actions(b)
    ensures r.Success? ==>
      InRange(a) && r.value[a.0][a.1] == Some(ToMove(b)) &&
      forall i, j | 0 <= i < 3 && 0 <= j < 3 && (i, j) != a :: r.value[i][j] == b[i][j]
  {
    if a !in Actions(b) then Failure(InvalidAction(a))
    else
      ActionsExactlyEmpty(b, a);
      Success(Next(b, a))
  }

  // ---------------------------------------------------------------------------
  // Counting marks across a move
  // ---------------------------------------------------------------------------

  lemma {:induction false} CountRowSet(row: seq<Cell>, j: nat, c: Cell, q: Player)
    requires j < |row|
    ensures CountRow(row[j := c], q) + (if row[j] == Some(q) then 1 else 0) ==
            CountRow(row, q) + (if c == Some(q) then 1 else 0)
  {
    var n := |row| - 1;
    if j == n {
      assert row[j := c][..n] == row[..n];
    } else {
      CountRowSet(row[..n], j, c, q);
      assert row[j := c][..n] == row[..n][j := c];
    }
  }

  lemma {:induction false} CountRowsSet(rows: seq<seq<Cell>>, i: nat, r: seq<Cell>, q: Player)
    requires i < |rows|
    ensures CountRows(rows[i := r], q) + CountRow(rows[i], q) == CountRows(rows, q) + CountRow(r, q)
  {
    var n := |rows| - 1;
    if i == n {
      assert rows[i := r][..n] == rows[..n];
    } else {
      CountRowsSet(rows[..n], i, r, q);
      assert rows[i := r][..n] == rows[..n][i := r];
    }
  }

  /** Marking an empty square adds one mark for its owner and none for the other player. */
  lemma CountAfterPlace(b: Board, a: Action, p: Player, q: Player)
    requires InRange(a) && b[a.0][a.1] == None
    ensures CountRows(Place(b, a, p), q) == CountRows(b, q) + (if p == q then 1 else 0)
  {
    CountRowSet(b[a.0], a.1, Some(p), q);
    CountRowsSet(b, a.0, b[a.0][a.1 := Some(p)], q);
  }

  /** A position reachable by alternating play: X has as many marks as O, or one more. */
  predicate Balanced(b: Board) {
    CountRows(b, X) == CountRows(b, O) || CountRows(b, X) == CountRows(b, O) + 1
  }

  /** The players alternate: after a legal move it is the other player's turn, and the counts stay balanced. */
  lemma PlayAlternates(b: Board, a: Action)
    requires Balanced(b) && a in Actions(b)
    ensures Balanced(Next(b, a))
    ensures ToMove(Next(b, a)) == Other(ToMove(b))
  {
    ActionsExactlyEmpty(b, a);
    CountAfterPlace(b, a, ToMove(b), X);
    CountAfterPlace(b, a, ToMove(b), O);
  }

  lemma {:induction false} NoMarksInRow(row: seq<Cell>, p: Player)
    requires forall j | 0 <= j < |row| :: row[j] == None
    ensures CountRow(row, p) == 0
  {
    if row != [] {
      NoMarksInRow(row[..|row| - 1], p);
    }
  }

  lemma {:induction false} NoMarks(rows: seq<seq<Cell>>, p: Player)
    requires forall i, j | 0 <= i < |rows| && 0 <= j < |rows[i]| :: rows[i][j] == None
    ensures CountRows(rows, p) == 0
  {
    if rows != [] {
      NoMarks(rows[..|rows| - 1], p);
      NoMarksInRow(rows[|rows| - 1], p);
    }
  }

  /** The game starts with X to move on an empty board where every square is available. */
  lemma InitialPosition()
    ensures Balanced(InitialState()) && ToMove(InitialState()) == X
    ensures forall a :: a in Actions(InitialState()) <==> InRange(a)
    ensures !Terminal(InitialState())
  {
    var b := InitialState();
    NoMarks(b, X);
    NoMarks(b, O);
    forall a ensures a in Actions(b) <==> InRange(a) {
      ActionsExactlyEmpty(b, a);
    }
    assert !Full(b) by {
      assert b[0][0] == None;
    }
  }

  // ---------------------------------------------------------------------------
  // Lines, the winner and the end of the game
  // ---------------------------------------------------------------------------

  /**
   * `p` fills line k, the lines numbered in the order the original checks
   * them: rows 0-2, columns 0-2 (k = 3-5), the main diagonal (6), the
   * anti-diagonal (7).
   */
  predicate Fills(b: Board, k: nat, p: Player)
    requires k < 8
  {
    if k < 3 then b[k][0] == Some(p) && b[k][1] == Some(p) && b[k][2] == Some(p)
    else if k < 6 then b[0][k - 3] == Some(p) && b[1][k - 3] == Some(p) && b[2][k - 3] == Some(p)
    else if k == 6 then b[0][0] == Some(p) && b[1][1] == Some(p) && b[2][2] == Some(p)
    else b[0][2] == Some(p) && b[1][1] == Some(p) && b[2][0] == Some(p)
  }

  /** Some line from the k-th on is filled by either player. */
  function AnyFilled(b: Board, k: nat): (r: bool)
    requires k <= 8
    decreases 8 - k
    ensures r <==> exists m | k <= m < 8 :: Fills(b, m, X) || Fills(b, m, O)
  {
    if k == 8 then false
    else if Fills(b, k, X) || Fills(b, k, O) then true
    else AnyFilled(b, k + 1)
  }

  /** The owner of the first filled line from the k-th on, X looked for before O on each line. */
  function FirstFilled(b: Board, k: nat): (w: Option<Player>)
    requires k <= 8
    decreases 8 - k
    ensures w.Some? ==> exists m | k <= m < 8 :: Fills(b, m, w.value)
    ensures w.None? <==> forall m | k <= m < 8 :: !Fills(b, m, X) && !Fills(b, m, O)
  {
    if k == 8 then None
    else if Fills(b, k, X) then Some(X)
    else if Fills(b, k, O) then Some(O)
    else FirstFilled(b, k + 1)
  }

  /** No square is empty. */
  predicate Full(b: Board) {
    forall i, j | 0 <= i < 3 && 0 <= j < 3 :: b[i][j] != None
  }

  /** The game is over: a line is filled, or else no square is empty. */
  predicate Terminal(b: Board) {
    AnyFilled(b, 0) || Full(b)
  }

  /** The winner of a finished game, if any; an unfinished game has none. */
  function Winner(b: Board): Option<Player> {
    if Terminal(b) then FirstFilled(b, 0) else None
  }

  /** 1 when X has won, -1 when O has won, 0 otherwise. */
  function Utility(b: Board): (u: int)
    ensures -1 <= u <= 1
    ensures u == 1 <==> Winner(b) == Some(X)
    ensures u == -1 <==> Winner(b) == Some(O)
  {
    match Winner(b)
    case Some(X) => 1
    case Some(O) => -1
    case None => 0
  }

  predicate RowOf(b: Board, i: int, p: Player)
    requires 0 <= i < 3
  {
    forall j | 0 <= j < 3 :: b[i][j] == Some(p)
  }

  predicate ColumnOf(b: Board, j: int, p: Player)
    requires 0 <= j < 3
  {
    forall i | 0 <= i < 3 :: b[i][j] == Some(p)
  }

  predicate DiagonalOf(b: Board, p: Player) {
    forall i | 0 <= i < 3 :: b[i][i] == Some(p)
  }

  predicate AntiDiagonalOf(b: Board, p: Player) {
    forall i, j | 0 <= i < 3 && 0 <= j < 3 && i + j == 2 :: b[i][j] == Some(p)
  }

  /** Three in a row, column or diagonal, stated without any order of the lines. */
  predicate HasLine(b: Board, p: Player) {
    (exists i | 0 <= i < 3 :: RowOf(b, i, p)) || (exists j | 0 <= j < 3 :: ColumnOf(b, j, p)) ||
    DiagonalOf(b, p) || AntiDiagonalOf(b, p)
  }

  /** Line m, written out square by square, as a statement about all of its squares. */
  lemma FillsAll(b: Board, m: nat, p: Player)
    requires m < 8 && Fills(b, m, p)
    ensures HasLine(b, p)
  {
    if m < 3 {
      forall j | 0 <= j < 3 ensures b[m][j] == Some(p) {
        if j == 0 {} else if j == 1 {} else {}
      }
      assert RowOf(b, m, p);
    } else if m < 6 {
      forall i | 0 <= i < 3 ensures b[i][m - 3] == Some(p) {
        if i == 0 {} else if i == 1 {} else {}
      }
      assert ColumnOf(b, m - 3, p);
    } else if m == 6 {
      forall i | 0 <= i < 3 ensures b[i][i] == Some(p) {
        if i == 0 {} else if i == 1 {} else {}
      }
      assert DiagonalOf(b, p);
    } else {
      forall i, j | 0 <= i < 3 && 0 <= j < 3 && i + j == 2 ensures b[i][j] == Some(p) {
        if i == 0 {} else if i == 1 {} else {}
      }
      assert AntiDiagonalOf(b, p);
    }
  }

  /** The eight numbered lines are exactly the rows, columns and diagonals. */
  lemma LinesCover(b: Board, p: Player)
    ensures HasLine(b, p) <==> exists m | 0 <= m < 8 :: Fills(b, m, p)
  {
    if exists m | 0 <= m < 8 :: Fills(b, m, p) {
      var m :| 0 <= m < 8 && Fills(b, m, p);
      FillsAll(b, m, p);
    }
    if HasLine(b, p) {
      if exists i | 0 <= i < 3 :: RowOf(b, i, p) {
        var i :| 0 <= i < 3 && RowOf(b, i, p);
        assert Fills(b, i, p);
      } else if exists j | 0 <= j < 3 :: ColumnOf(b, j, p) {
        var j :| 0 <= j < 3 && ColumnOf(b, j, p);
        assert Fills(b, j + 3, p);
      } else if DiagonalOf(b, p) {
        assert Fills(b, 6, p);
      } else {
        assert AntiDiagonalOf(b, p);
        assert b[0][2] == Some(p) && b[1][1] == Some(p) && b[2][0] == Some(p);
        assert Fills(b, 7, p);
      }
    }
  }

  /** The game is over exactly when some player has three in a line or the board is full. */
  lemma TerminalIff(b: Board)
    ensures Terminal(b) <==> HasLine(b, X) || HasLine(b, O) || Full(b)
  {
    LinesCover(b, X);
    LinesCover(b, O);
  }

  /** The board is full exactly when no move is available. */
  lemma FullIff(b: Board)
    ensures Full(b) <==> Actions(b) == {}
  {
    if !Full(b) {
      var i, j :| 0 <= i < 3 && 0 <= j < 3 && b[i][j] == None;
      ActionsExactlyEmpty(b, (i, j));
    } else {
      forall a | a in Actions(b) ensures false {
        ActionsExactlyEmpty(b, a);
      }
    }
  }

  /** There is no winner exactly when neither player has three in a line. */
  lemma WinnerNone(b: Board)
    ensures Winner(b) == None <==> !HasLine(b, X) && !HasLine(b, O)
  {
    TerminalIff(b);
    LinesCover(b, X);
    LinesCover(b, O);
  }

  /**
   * A winner has three in a line, and a player who alone has three in a line
   * is the winner.
   */
  lemma WinnerHasLine(b: Board, p: Player)
    ensures Winner(b) == Some(p) ==> HasLine(b, p)
    ensures HasLine(b, p) && !HasLine(b, Other(p)) ==> Winner(b) == Some(p)
  {
    TerminalIff(b);
    LinesCover(b, X);
    LinesCover(b, O);
  }

  // ---------------------------------------------------------------------------
  // The value of a position under perfect play
  // ---------------------------------------------------------------------------

  /** A game that is not over has a move left, and every move is one of the nine squares. */
  lemma MovesLeft(b: Board)
    requires !Terminal(b)
    ensures exists k | 0 <= k < 9 :: AllCells[k] in Actions(b)
  {
    FullIff(b);
    var a :| a in Actions(b);
    ActionsExactlyEmpty(b, a);
    assert a == AllCells[3 * a.0 + a.1];
  }

  /** Every available move is one of the nine squares. */
  lemma ActionsInAllCells(b: Board, a: Action)
    requires a in Actions(b)
    ensures exists k | 0 <= k < 9 :: AllCells[k] == a
  {
    ActionsExactlyEmpty(b, a);
    assert a == AllCells[3 * a.0 + a.1];
  }

  /** The value of `b` for X when X plays to maximise it and O to minimise it from here on. */
  function MaxV(b: Board): (v: int)
    decreases |Actions(b)|, 1
    ensures -1 <= v <= 1
  {
    if Terminal(b) then Utility(b)
    else
      MovesLeft(b);
      BestForMax(b, AllCells)
  }

  /** The value of `b` for X when O plays to minimise it and X to maximise it from here on. */
  function MinV(b: Board): (v: int)
    decreases |Actions(b)|, 1
    ensures -1 <= v <= 1
  {
    if Terminal(b) then Utility(b)
    else
      MovesLeft(b);
      BestForMin(b, AllCells)
  }

  /** The largest MinV over the available moves among `cells`, starting from -2. */
  function BestForMax(b: Board, cells: seq<Action>): (v: int)
    decreases |Actions(b)|, 0, |cells|
    ensures v == -2 || -1 <= v <= 1
    ensures (exists k | 0 <= k < |cells| :: cells[k] in Actions(b)) ==> v != -2
  {
    if cells == [] then -2
    else
      var rest := BestForMax(b, cells[1..]);
      if cells[0] in Actions(b) then
        var here := MinV(Next(b, cells[0]));
        if here > rest then here else rest
      else rest
  }

  /** The smallest MaxV over the available moves among `cells`, starting from 2. */
  function BestForMin(b: Board, cells: seq<Action>): (v: int)
    decreases |Actions(b)|, 0, |cells|
    ensures v == 2 || -1 <= v <= 1
    ensures (exists k | 0 <= k < |cells| :: cells[k] in Actions(b)) ==> v != 2
  {
    if cells == [] then 2
    else
      var rest := BestForMin(b, cells[1..]);
      if cells[0] in Actions(b) then
        var here := MaxV(Next(b, cells[0]));
        if here < rest then here else rest
      else rest
  }

  /** BestForMax is the largest MinV over the available moves among `cells`, or -2 when there are none. */
  lemma {:induction false} BestForMaxIsLargest(b: Board, cells: seq<Action>)
    ensures forall k | 0 <= k < |cells| && cells[k] in Actions(b) :: MinV(Next(b, cells[k])) <= BestForMax(b, cells)
    ensures BestForMax(b, cells) == -2 ||
      exists k | 0 <= k < |cells| && cells[k] in Actions(b) :: BestForMax(b, cells) == MinV(Next(b, cells[k]))
  {
    if cells != [] {
      var rest := cells[1..];
      BestForMaxIsLargest(b, rest);
      forall k | 1 <= k < |cells| ensures cells[k] == rest[k - 1] {}
      if BestForMax(b, cells) != -2 && BestForMax(b, cells) == BestForMax(b, rest) && BestForMax(b, rest) != -2 {
        var k :| 0 <= k < |rest| && rest[k] in Actions(b) && BestForMax(b, rest) == MinV(Next(b, rest[k]));
        assert cells[k + 1] == rest[k];
      }
    }
  }

  /** BestForMin is the smallest MaxV over the available moves among `cells`, or 2 when there are none. */
  lemma {:induction false} BestForMinIsSmallest(b: Board, cells: seq<Action>)
    ensures forall k | 0 <= k < |cells| && cells[k] in Actions(b) :: BestForMin(b, cells) <= MaxV(Next(b, cells[k]))
    ensures BestForMin(b, cells) == 2 ||
      exists k | 0 <= k < |cells| && cells[k] in Actions(b) :: BestForMin(b, cells) == MaxV(Next(b, cells[k]))
  {
    if cells != [] {
      var rest := cells[1..];
      BestForMinIsSmallest(b, rest);
      forall k | 1 <= k < |cells| ensures cells[k] == rest[k - 1] {}
      if BestForMin(b, cells) != 2 && BestForMin(b, cells) == BestForMin(b, rest) && BestForMin(b, rest) != 2 {
        var k :| 0 <= k < |rest| && rest[k] in Actions(b) && BestForMin(b, rest) == MaxV(Next(b, rest[k]));
        assert cells[k + 1] == rest[k];
      }
    }
  }

  /** In a game that is not over, MaxV is the largest MinV reached by a move. */
  lemma MaxVIsBest(b: Board)
    requires !Terminal(b)
    ensures forall a | a in Actions(b) :: MinV(Next(b, a)) <= MaxV(b)
    ensures exists a | a in Actions(b) :: MinV(Next(b, a)) == MaxV(b)
  {
    BestForMaxIsLargest(b, AllCells);
    forall a | a in Actions(b) ensures MinV(Next(b, a)) <= MaxV(b) {
      ActionsInAllCells(b, a);
    }
    MovesLeft(b);
    var k :| 0 <= k < 9 && AllCells[k] in Actions(b);
    assert MinV(Next(b, AllCells[k])) <= MaxV(b);
    var m :| 0 <= m < 9 && AllCells[m] in Actions(b) && MaxV(b) == MinV(Next(b, AllCells[m]));
    assert MinV(Next(b, AllCells[m])) == MaxV(b);
  }

  /** In a game that is not over, MinV is the smallest MaxV reached by a move. */
  lemma MinVIsBest(b: Board)
    requires !Terminal(b)
    ensures forall a | a in Actions(b) :: MinV(b) <= MaxV(Next(b, a))
    ensures exists a | a in Actions(b) :: MaxV(Next(b, a)) == MinV(b)
  {
    BestForMinIsSmallest(b, AllCells);
    forall a | a in Actions(b) ensures MinV(b) <= MaxV(Next(b, a)) {
      ActionsInAllCells(b, a);
    }
    MovesLeft(b);
    var k :| 0 <= k < 9 && AllCells[k] in Actions(b);
    assert MinV(b) <= MaxV(Next(b, AllCells[k]));
    var m :| 0 <= m < 9 && AllCells[m] in Actions(b) && MinV(b) == MaxV(Next(b, AllCells[m]));
    assert MaxV(Next(b, AllCells[m])) == MinV(b);
  }

  // ---------------------------------------------------------------------------
  // The search
  // ---------------------------------------------------------------------------

  /** Every move in `s` leaves O a position worth at most `v`. */
  predicate ReplyAtMost(board: Board, s: set<Action>, v: int) {
    s <= Actions(board) && forall a | a in s :: MinV(Next(board, a)) <= v
  }

  /** Every move in `s` leaves X a position worth at least `v`. */
  predicate ReplyAtLeast(board: Board, s: set<Action>, v: int) {
    s <= Actions(board) && forall a | a in s :: v <= MaxV(Next(board, a))
  }

  /**
   * What one reply of the minimiser, asked with bound `v`, tells the
   * maximiser: a reply above `v` or `beta` is exact, and a reply that is not
   * kept is still an upper bound on the move's value.
   */
  lemma MaxReply(board: Board, beta: int, v: int, a: Action, r: int)
    requires !Terminal(board) && a in Actions(board)
    requires v == -2 || v <= beta
    requires MinV(Next(board, a)) >= v ==> r == MinV(Next(board, a))
    requires MinV(Next(board, a)) < v ==> MinV(Next(board, a)) <= r < v
    ensures r > beta ==> r == MinV(Next(board, a)) && beta < r <= MaxV(board)
    ensures r > v ==> r == MinV(Next(board, a))
    ensures MinV(Next(board, a)) <= (if r > v then r else v)
  {
    MaxVIsBest(board);
  }

  /** The mirror image of MaxReply for the minimiser. */
  lemma MinReply(board: Board, alpha: int, v: int, a: Action, r: int)
    requires !Terminal(board) && a in Actions(board)
    requires v == 2 || v >= alpha
    requires MaxV(Next(board, a)) <= v ==> r == MaxV(Next(board, a))
    requires MaxV(Next(board, a)) > v ==> v < r <= MaxV(Next(board, a))
    ensures r < alpha ==> r == MaxV(Next(board, a)) && MinV(board) <= r < alpha
    ensures r < v ==> r == MaxV(Next(board, a))
    ensures (if r < v then r else v) <= MaxV(Next(board, a))
  {
    MinVIsBest(board);
  }

  lemma ReplyAtMostAdd(board: Board, s: set<Action>, a: Action, v: int, w: int)
    requires ReplyAtMost(board, s, v) && v <= w
    requires a in Actions(board) && MinV(Next(board, a)) <= w
    ensures ReplyAtMost(board, s + {a}, w)
  {
  }

  lemma ReplyAtLeastAdd(board: Board, s: set<Action>, a: Action, v: int, w: int)
    requires ReplyAtLeast(board, s, v) && w <= v
    requires a in Actions(board) && w <= MaxV(Next(board, a))
    ensures ReplyAtLeast(board, s + {a}, w)
  {
  }

  /**
   * The original's `max_value(board, beta)`: the moves are tried in the
   * (unspecified) order of the action set, and the search returns at once
   * when a move is worth more than `beta`. It returns the exact value when
   * that is at most `beta`, and otherwise some value above `beta` that X can
   * reach; the move returned always reaches the value returned.
   */
  method MaxValue(board: Board, beta: int) returns (value: int, action: Option<Action>)
    decreases |Actions(board)|
    ensures Terminal(board) ==> value == Utility(board) && action == None
    ensures !Terminal(board) ==>
      action.Some? && action.value in Actions(board) && value == MinV(Next(board, action.value))
    ensures MaxV(board) <= beta ==> value == MaxV(board)
    ensures MaxV(board) > beta ==> beta < value <= MaxV(board)
  {
    if Terminal(board) {
      return Utility(board), None;
    }
    var todo := PossibleActions(board);
    var v, best := -2, None;
    while todo != {}
      decreases |todo|
      invariant todo <= Actions(board)
      invariant ReplyAtMost(board, Actions(board) - todo, v)
      invariant (best == None && v == -2) ||
                (best.Some? && best.value in Actions(board) && v == MinV(Next(board, best.value)))
      invariant v == -2 || v <= beta
    {
      var a :| a in todo;
      var next := Next(board, a);
      var r, _ := MinValue(next, v);
      MaxReply(board, beta, v, a, r);
      if r > beta {
        return r, Some(a);
      }
      ghost var before := v;
      if r > v {
        v, best := r, Some(a);
      }
      ReplyAtMostAdd(board, Actions(board) - todo, a, before, v);
      assert (Actions(board) - todo) + {a} == Actions(board) - (todo - {a});
      todo := todo - {a};
    }
    MaxSearched(board, beta, v, best);
    return v, best;
  }

  /** When every move has been tried without a cut, the best move found reaches MaxV. */
  lemma MaxSearched(board: Board, beta: int, v: int, best: Option<Action>)
    requires !Terminal(board)
    requires ReplyAtMost(board, Actions(board), v)
    requires (best == None && v == -2) ||
             (best.Some? && best.value in Actions(board) && v == MinV(Next(board, best.value)))
    requires v == -2 || v <= beta
    ensures best.Some? && best.value in Actions(board) && v == MinV(Next(board, best.value))
    ensures v == MaxV(board) <= beta
  {
    MaxVIsBest(board);
  }

  /**
   * The original's `min_value(board, alpha)`, the mirror image of MaxValue:
   * exact when the value is at least `alpha`, and otherwise some value below
   * `alpha` that O can reach.
   */
  method MinValue(board: Board, alpha: int) returns (value: int, action: Option<Action>)
    decreases |Actions(board)|
    ensures Terminal(board) ==> value == Utility(board) && action == None
    ensures !Terminal(board) ==>
      action.Some? && action.value in Actions(board) && value == MaxV(Next(board, action.value))
    ensures MinV(board) >= alpha ==> value == MinV(board)
    ensures MinV(board) < alpha ==> MinV(board) <= value < alpha
  {
    if Terminal(board) {
      return Utility(board), None;
    }
    var todo := PossibleActions(board);
    var v, best := 2, None;
    while todo != {}
      decreases |todo|
      invariant todo <= Actions(board)
      invariant ReplyAtLeast(board, Actions(board) - todo, v)
      invariant (best == None && v == 2) ||
                (best.Some? && best.value in Actions(board) && v == MaxV(Next(board, best.value)))
      invariant v == 2 || v >= alpha
    {
      var a :| a in todo;
      var next := Next(board, a);
      var r, _ := MaxValue(next, v);
      MinReply(board, alpha, v, a, r);
      if r < alpha {
        return r, Some(a);
      }
      ghost var before := v;
      if r < v {
        v, best := r, Some(a);
      }
      ReplyAtLeastAdd(board, Actions(board) - todo, a, before, v);
      assert (Actions(board) - todo) + {a} == Actions(board) - (todo - {a});
      todo := todo - {a};
    }
    MinSearched(board, alpha, v, best);
    return v, best;
  }

  /** When every move has been tried without a cut, the best move found reaches MinV. */
  lemma MinSearched(board: Board, alpha: int, v: int, best: Option<Action>)
    requires !Terminal(board)
    requires ReplyAtLeast(board, Actions(board), v)
    requires (best == None && v == 2) ||
             (best.Some? && best.value in Actions(board) && v == MaxV(Next(board, best.value)))
    requires v == 2 || v >= alpha
    ensures best.Some? && best.value in Actions(board) && v == MaxV(Next(board, best.value))
    ensures v == MinV(board) >= alpha
  {
    MinVIsBest(board);
  }

  /**
   * The original's `minimax`: no move in a finished game; otherwise an
   * available move that is optimal for the player to move.
   */
  method Minimax(board: Board) returns (move: Option<Action>)
    ensures move == None <==> Terminal(board)
    ensures move.Some? ==> move.value in Actions(board)
    ensures move.Some? && ToMove(board) == X ==> MinV(Next(board, move.value)) == MaxV(board)
    ensures move.Some? && ToMove(board) == O ==> MaxV(Next(board, move.value)) == MinV(board)
  {
    if Terminal(board) {
      return None;
    }
    var turn := CurrentPlayer(board);
    if turn == X {
      var _, a := MaxValue(board, 2);
      move := a;
    } else {
      var _, a := MinValue(board, -2);
      move := a;
    }
  }
}
