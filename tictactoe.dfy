/**
 * Tic-tac-toe: the 3x3 board, whose turn it is, the legal moves, the board a
 * move leads to, the winner, the end of the game, its utility, and the
 * minimax choice of the best move.
 */
module TicTacToe {
  import opened Wrappers

  datatype Player = X | O

  /** A cell of the board: EMPTY (None) or a player's mark. */
  datatype Cell = Empty | Mark(player: Player)

  /** A board: three rows of three cells. */
  type Board = b: seq<seq<Cell>> | |b| == 3 && forall i | 0 <= i < 3 :: |b[i]| == 3
    witness [[Empty, Empty, Empty], [Empty, Empty, Empty], [Empty, Empty, Empty]]

  /** A move `(i, j)`, as passed to `result`; it need not be on the board. */
  type Action = (int, int)

  /** The error `result` raises. */
  datatype Error = InvalidAction

  predicate InRange(a: Action) {
    0 <= a.0 < 3 && 0 <= a.1 < 3
  }

  function At(b: Board, a: Action): Cell
    requires InRange(a)
  {
    b[a.0][a.1]
  }

  /** Every cell, in the order of the nested loops of `actions`. */
  const AllCells: seq<Action> := [(0, 0), (0, 1), (0, 2), (1, 0), (1, 1), (1, 2), (2, 0), (2, 1), (2, 2)]

  lemma AllCellsInRange(a: Action)
    ensures a in AllCells <==> InRange(a)
  {
    if InRange(a) {
      assert a.0 == 0 || a.0 == 1 || a.0 == 2;
      assert a.1 == 0 || a.1 == 1 || a.1 == 2;
    }
  }

  /** `initial_state()`: every cell empty. */
  function InitialState(): (b: Board)
    ensures forall a :: InRange(a) ==> At(b, a) == Empty
  {
    [[Empty, Empty, Empty], [Empty, Empty, Empty], [Empty, Empty, Empty]]
  }

  // ---------------------------------------------------------------------------
  // Whose turn it is

  /** `row.count(p)`. */
  function CountRow(row: seq<Cell>, p: Player): nat {
    if row == [] then 0 else CountRow(row[..|row| - 1], p) + (if row[|row| - 1] == Mark(p) then 1 else 0)
  }

  /** `sum(row.count(p) for row in board)`. */
  function Count(b: Board, p: Player): nat {
    CountRow(b[0], p) + CountRow(b[1], p) + CountRow(b[2], p)
  }

  /**
   * `player(board)`: O to move when X has more marks, X otherwise. On a board
   * reached by alternating moves, X moves when the counts are equal and O
   * when X is one ahead.
   */
  function PlayerOf(b: Board): (p: Player)
    ensures Count(b, X) == Count(b, O) ==> p == X
    ensures Count(b, X) == Count(b, O) + 1 ==> p == O
  {
    if Count(b, X) > Count(b, O) then O else X
  }

  /** A board reachable by alternating moves from the empty board: X never trails, and leads by at most one. */
  predicate Balanced(b: Board) {
    Count(b, X) == Count(b, O) || Count(b, X) == Count(b, O) + 1
  }

  lemma {:induction false} CountRowEmpty(row: seq<Cell>, p: Player)
    requires forall k | 0 <= k < |row| :: row[k] == Empty
    ensures CountRow(row, p) == 0
  {
    if row != [] {
      CountRowEmpty(row[..|row| - 1], p);
    }
  }

  /** The game starts balanced, with X to move. */
  lemma InitialStateStart()
    ensures Count(InitialState(), X) == 0 && Count(InitialState(), O) == 0
    ensures Balanced(InitialState()) && PlayerOf(InitialState()) == X
  {
    var b := InitialState();
    CountRowEmpty(b[0], X);
    CountRowEmpty(b[1], X);
    CountRowEmpty(b[2], X);
    CountRowEmpty(b[0], O);
    CountRowEmpty(b[1], O);
    CountRowEmpty(b[2], O);
  }

  // ---------------------------------------------------------------------------
  // Legal moves and their effect

  /** `actions(board)` as a set: the empty cells. */
  function EmptyCells(b: Board): (s: set<Action>)
    ensures forall a :: a in s <==> InRange(a) && At(b, a) == Empty
  {
    forall a | InRange(a)
      ensures a in AllCells
    {
      AllCellsInRange(a);
    }
    set a | a in AllCells && At(b, a) == Empty
  }

  /**
   * `actions(board)`: the nested loops over rows and columns add every empty
   * cell to the set.
   */
  method Actions(board: Board) returns (actions: set<Action>)
    ensures actions == EmptyCells(board)
  {
    actions := {};
    for i := 0 to 3
      invariant actions == set a | a in EmptyCells(board) && a.0 < i
    {
      for j := 0 to 3
        invariant actions == set a | a in EmptyCells(board) && (a.0 < i || (a.0 == i && a.1 < j))
      {
        if board[i][j] == Empty {
          actions := actions + {(i, j)};
        }
      }
    }
  }

  /** The board with `p` marked at `a`. */
  function Put(b: Board, a: Action, p: Player): (nb: Board)
    requires InRange(a)
    ensures At(nb, a) == Mark(p)
    ensures forall c :: InRange(c) && c != a ==> At(nb, c) == At(b, c)
  {
    b[a.0 := b[a.0][a.1 := Mark(p)]]
  }

  /** The board the player to move reaches by marking `a`. */
  function Play(b: Board, a: Action): Board
    requires InRange(a)
  {
    Put(b, a, PlayerOf(b))
  }

  /** `result(board, action)`: ValueError unless the action is a legal move. */
  function Apply(b: Board, a: Action): Result<Board, Error> {
    if a in EmptyCells(b) then Success(Play(b, a)) else Failure(InvalidAction)
  }

  /**
   * `result(board, action)`: the set of legal moves is built, the action
   * checked against it, and a copy of the board gets the mover's mark.
   */
  method ResultOf(board: Board, action: Action) returns (r: Result<Board, Error>)
    ensures r == Apply(board, action)
  {
    var actions := Actions(board);
    if action !in actions {
      return Failure(InvalidAction);
    }
    var newBoard := board;
    newBoard := newBoard[action.0 := newBoard[action.0][action.1 := Mark(PlayerOf(board))]];
    return Success(newBoard);
  }

  /**
   * A legal move changes exactly the chosen cell, which gets the mover's mark.
   * An illegal one is refused.
   */
  lemma ApplySpec(b: Board, a: Action)
    ensures Apply(b, a).Failure? <==> !(InRange(a) && At(b, a) == Empty)
    ensures Apply(b, a).Success? ==> At(Apply(b, a).value, a) == Mark(PlayerOf(b))
    ensures Apply(b, a).Success? ==>
      forall c :: InRange(c) && c != a ==> At(Apply(b, a).value, c) == At(b, c)
  {
  }

  lemma {:induction false} CountRowPut(row: seq<Cell>, j: nat, p: Player, q: Player)
    requires j < |row| && row[j] == Empty
    ensures CountRow(row[j := Mark(p)], q) == CountRow(row, q) + (if p == q then 1 else 0)
  {
    var init := row[..|row| - 1];
    if j == |row| - 1 {
      assert row[j := Mark(p)][..|row| - 1] == init;
    } else {
      CountRowPut(init, j, p, q);
      assert row[j := Mark(p)][..|row| - 1] == init[j := Mark(p)];
    }
  }

  lemma CountPut(b: Board, a: Action, p: Player, q: Player)
    requires InRange(a) && At(b, a) == Empty
    ensures Count(Put(b, a, p), q) == Count(b, q) + (if p == q then 1 else 0)
  {
    var nb := Put(b, a, p);
    CountRowPut(b[a.0], a.1, p, q);
    assert forall k | 0 <= k < 3 && k != a.0 :: nb[k] == b[k];
  }

  /**
   * A legal move adds one mark for the mover and none for the other player,
   * so the filled-cell count rises by one; it keeps a balanced board balanced
   * and hands the turn to the other player.
   */
  lemma ApplyFills(b: Board, a: Action)
    requires Apply(b, a).Success?
    ensures Count(Apply(b, a).value, PlayerOf(b)) == Count(b, PlayerOf(b)) + 1
    ensures forall q :: q != PlayerOf(b) ==> Count(Apply(b, a).value, q) == Count(b, q)
    ensures Count(Apply(b, a).value, X) + Count(Apply(b, a).value, O) == Count(b, X) + Count(b, O) + 1
    ensures Balanced(b) ==> Balanced(Apply(b, a).value) && PlayerOf(Apply(b, a).value) != PlayerOf(b)
  {
    CountPut(b, a, PlayerOf(b), X);
    CountPut(b, a, PlayerOf(b), O);
  }

  /** A legal move removes exactly its cell from the empty cells. */
  lemma PlayShrinks(b: Board, a: Action)
    requires a in EmptyCells(b)
    ensures EmptyCells(Play(b, a)) == EmptyCells(b) - {a}
    ensures |EmptyCells(Play(b, a))| < |EmptyCells(b)|
  {
    assert EmptyCells(Play(b, a)) == EmptyCells(b) - {a};
  }

  // ---------------------------------------------------------------------------
  // The end of the game

  /** The rows, columns and diagonals, in the order `winner` tries them. */
  const Lines: seq<seq<Action>> := [
    [(0, 0), (0, 1), (0, 2)], [(1, 0), (1, 1), (1, 2)], [(2, 0), (2, 1), (2, 2)],
    [(0, 0), (1, 0), (2, 0)], [(0, 1), (1, 1), (2, 1)], [(0, 2), (1, 2), (2, 2)],
    [(0, 0), (1, 1), (2, 2)], [(0, 2), (1, 1), (2, 0)]
  ]

  /** The line's three cells all hold `p`'s mark. */
  predicate Uniform(b: Board, line: seq<Action>, p: Player) {
    |line| == 3 && forall t | 0 <= t < 3 :: InRange(line[t]) && At(b, line[t]) == Mark(p)
  }

  /** The first uniform line among `lines` decides the winner. */
  function FirstUniform(b: Board, lines: seq<seq<Action>>): Option<Player> {
    if lines == [] then None
    else if Uniform(b, lines[0], X) then Some(X)
    else if Uniform(b, lines[0], O) then Some(O)
    else FirstUniform(b, lines[1..])
  }

  /** `winner(board)`: the rows, the columns and the diagonals are tried in order. */
  function Winner(b: Board): Option<Player> {
    FirstUniform(b, Lines)
  }

  /** No line holds three marks of both players. */
  lemma UniformExclusive(b: Board, line: seq<Action>)
    ensures !(Uniform(b, line, X) && Uniform(b, line, O))
  {
    if Uniform(b, line, X) {
      assert At(b, line[0]) == Mark(X);
    }
  }

  /** No line before index `m` is uniform. */
  predicate NoneUniformBefore(b: Board, lines: seq<seq<Action>>, m: int)
    requires m <= |lines|
  {
    forall j :: 0 <= j < m ==> !Uniform(b, lines[j], X) && !Uniform(b, lines[j], O)
  }

  lemma {:induction false} FirstUniformSome(b: Board, lines: seq<seq<Action>>, p: Player)
    ensures FirstUniform(b, lines) == Some(p) <==>
      exists m :: 0 <= m < |lines| && Uniform(b, lines[m], p) && NoneUniformBefore(b, lines, m)
  {
    if lines != [] {
      var rest := lines[1..];
      FirstUniformSome(b, rest, p);
      UniformExclusive(b, lines[0]);
      if Uniform(b, lines[0], X) || Uniform(b, lines[0], O) {
        if FirstUniform(b, lines) == Some(p) {
          assert Uniform(b, lines[0], p) && NoneUniformBefore(b, lines, 0);
        } else {
          forall m | 0 <= m < |lines| && Uniform(b, lines[m], p)
            ensures !NoneUniformBefore(b, lines, m)
          {
            assert m != 0;
          }
        }
      } else {
        forall m | 0 < m <= |lines|
          ensures NoneUniformBefore(b, lines, m) == NoneUniformBefore(b, rest, m - 1)
        {
          assert forall j :: 0 < j < m ==> lines[j] == rest[j - 1];
        }
        if FirstUniform(b, lines) == Some(p) {
          var m :| 0 <= m < |rest| && Uniform(b, rest[m], p) && NoneUniformBefore(b, rest, m);
          assert Uniform(b, lines[m + 1], p) && NoneUniformBefore(b, lines, m + 1);
        }
        if exists m :: 0 <= m < |lines| && Uniform(b, lines[m], p) && NoneUniformBefore(b, lines, m) {
          var m :| 0 <= m < |lines| && Uniform(b, lines[m], p) && NoneUniformBefore(b, lines, m);
          assert m != 0;
          assert Uniform(b, rest[m - 1], p) && NoneUniformBefore(b, rest, m - 1);
        }
      }
    }
  }

  lemma {:induction false} FirstUniformNone(b: Board, lines: seq<seq<Action>>)
    ensures FirstUniform(b, lines) == None <==> NoneUniformBefore(b, lines, |lines|)
  {
    if lines != [] {
      FirstUniformNone(b, lines[1..]);
      assert forall j :: 0 < j < |lines| ==> lines[j] == lines[1..][j - 1];
    }
  }

  /**
   * `winner` names a player only for a line of three of that player's marks,
   * the first uniform line in the order tried; it is None exactly when no
   * line is uniform.
   */
  lemma WinnerSpec(b: Board, p: Player)
    ensures Winner(b) == Some(p) <==>
      exists m :: 0 <= m < |Lines| && Uniform(b, Lines[m], p) && NoneUniformBefore(b, Lines, m)
    ensures Winner(b) == None <==>
      forall m :: 0 <= m < |Lines| ==> !Uniform(b, Lines[m], X) && !Uniform(b, Lines[m], O)
  {
    FirstUniformSome(b, Lines, p);
    FirstUniformNone(b, Lines);
  }

  /** `terminal(board)`: a winner, or no row holds an EMPTY cell. */
  predicate Terminal(b: Board) {
    Winner(b).Some? || !exists i | 0 <= i < 3 :: Empty in b[i]
  }

  /** The game is over exactly when someone has won or no legal move is left. */
  lemma TerminalSpec(b: Board)
    ensures Terminal(b) <==> Winner(b).Some? || EmptyCells(b) == {}
  {
    if exists i | 0 <= i < 3 :: Empty in b[i] {
      var i :| 0 <= i < 3 && Empty in b[i];
      var j :| 0 <= j < 3 && b[i][j] == Empty;
      assert (i, j) in EmptyCells(b);
    }
    if EmptyCells(b) != {} {
      var a :| a in EmptyCells(b);
      assert b[a.0][a.1] == Empty;
    }
  }

  /** `utility(board)`: 1 if X has won, -1 if O has won, 0 otherwise. */
  function Utility(b: Board): (u: int)
    ensures -1 <= u <= 1
  {
    if Winner(b) == Some(X) then 1 else if Winner(b) == Some(O) then -1 else 0
  }

  /**
   * The utility is 1 exactly when the first uniform line is X's, -1 exactly
   * when it is O's, and 0 exactly when no line is uniform.
   */
  lemma UtilitySpec(b: Board)
    ensures Utility(b) == 1 <==>
      exists m :: 0 <= m < |Lines| && Uniform(b, Lines[m], X) && NoneUniformBefore(b, Lines, m)
    ensures Utility(b) == -1 <==>
      exists m :: 0 <= m < |Lines| && Uniform(b, Lines[m], O) && NoneUniformBefore(b, Lines, m)
    ensures Utility(b) == 0 <==>
      forall m :: 0 <= m < |Lines| ==> !Uniform(b, Lines[m], X) && !Uniform(b, Lines[m], O)
  {
    WinnerSpec(b, X);
    WinnerSpec(b, O);
    match Winner(b)
    case None =>
    case Some(p) => assert p == X || p == O;
  }

  // ---------------------------------------------------------------------------
  // Minimax

  /** A value of the search: a utility, or the -inf / +inf a search starts from. */
  datatype Bound = NegInf | Fin(n: int) | PosInf

  /** `x <= y`. */
  predicate Le(x: Bound, y: Bound) {
    x.NegInf? || y.PosInf? || (x.Fin? && y.Fin? && x.n <= y.n)
  }

  /** `x < y`. */
  predicate Lt(x: Bound, y: Bound) {
    !Le(y, x)
  }

  /** `max(x, y)`. */
  function MaxB(x: Bound, y: Bound): Bound {
    if Le(x, y) then y else x
  }

  /** `min(x, y)`. */
  function MinB(x: Bound, y: Bound): Bound {
    if Le(x, y) then x else y
  }

  /** The number of legal moves left; every move lowers it. */
  function EmptyCount(b: Board): nat {
    |EmptyCells(b)|
  }

  /** `max_value(board)`: the value X can force. */
  function MaxValue(b: Board): Bound
    decreases EmptyCount(b), 1, 0
  {
    if Terminal(b) then Fin(Utility(b)) else MaxOver(b, AllCells)
  }

  /** `min_value(board)`: the value O can force. */
  function MinValue(b: Board): Bound
    decreases EmptyCount(b), 1, 0
  {
    if Terminal(b) then Fin(Utility(b)) else MinOver(b, AllCells)
  }

  /**
   * `value` after `max_value`'s loop has taken the `max` with `min_value` of
   * every legal move among `cells`, in order: -inf when there is none.
   */
  function MaxOver(b: Board, cells: seq<Action>): Bound
    decreases EmptyCount(b), 0, |cells|
  {
    if cells == [] then NegInf
    else
      var rest, last := MaxOver(b, cells[..|cells| - 1]), cells[|cells| - 1];
      if last in EmptyCells(b) then
        PlayShrinks(b, last);
        MaxB(rest, MinValue(Play(b, last)))
      else rest
  }

  /**
   * `value` after `min_value`'s loop has taken the `min` with `max_value` of
   * every legal move among `cells`, in order: +inf when there is none.
   */
  function MinOver(b: Board, cells: seq<Action>): Bound
    decreases EmptyCount(b), 0, |cells|
  {
    if cells == [] then PosInf
    else
      var rest, last := MinOver(b, cells[..|cells| - 1]), cells[|cells| - 1];
      if last in EmptyCells(b) then
        PlayShrinks(b, last);
        MinB(rest, MaxValue(Play(b, last)))
      else rest
  }

  /** The legal moves among `cells`. */
  function Moves(b: Board, cells: seq<Action>): set<Action> {
    set a | a in cells && a in EmptyCells(b)
  }

  /**
   * `v` is the value of X's best move among `moves`: reached by one of them
   * and at least that of every one, or -inf when there is no move.
   */
  predicate IsBestForX(b: Board, v: Bound, moves: set<Action>, best: Action)
    requires moves <= EmptyCells(b)
  {
    && (moves == {} ==> v == NegInf)
    && (moves != {} ==> best in moves && v == MinValue(Play(b, best)))
    && forall a :: a in moves ==> Le(MinValue(Play(b, a)), v)
  }

  /** `v` is the value of O's best move among `moves`, or +inf when there is no move. */
  predicate IsBestForO(b: Board, v: Bound, moves: set<Action>, best: Action)
    requires moves <= EmptyCells(b)
  {
    && (moves == {} ==> v == PosInf)
    && (moves != {} ==> best in moves && v == MaxValue(Play(b, best)))
    && forall a :: a in moves ==> Le(v, MaxValue(Play(b, a)))
  }

  /** Taking `max` with one more move's value keeps the best value for X. */
  lemma MaxStep(b: Board, v: Bound, moves: set<Action>, best: Action, a: Action) returns (best': Action)
    requires moves <= EmptyCells(b) && a in EmptyCells(b) && IsBestForX(b, v, moves, best)
    ensures IsBestForX(b, MaxB(v, MinValue(Play(b, a))), moves + {a}, best')
  {
    best' := if Le(v, MinValue(Play(b, a))) then a else best;
  }

  /** Taking `min` with one more move's value keeps the best value for O. */
  lemma MinStep(b: Board, v: Bound, moves: set<Action>, best: Action, a: Action) returns (best': Action)
    requires moves <= EmptyCells(b) && a in EmptyCells(b) && IsBestForO(b, v, moves, best)
    ensures IsBestForO(b, MinB(v, MaxValue(Play(b, a))), moves + {a}, best')
  {
    best' := if moves != {} && Le(v, MaxValue(Play(b, a))) then best else a;
  }

  /** The best value over a set of moves is unique. */
  lemma BestForXUnique(b: Board, v: Bound, w: Bound, moves: set<Action>, bv: Action, bw: Action)
    requires moves <= EmptyCells(b) && IsBestForX(b, v, moves, bv) && IsBestForX(b, w, moves, bw)
    ensures v == w
  {
    if moves != {} {
      assert Le(v, w) && Le(w, v);
    }
  }


  lemma BestForOUnique(b: Board, v: Bound, w: Bound, moves: set<Action>, bv: Action, bw: Action)
    requires moves <= EmptyCells(b) && IsBestForO(b, v, moves, bv) && IsBestForO(b, w, moves, bw)
    ensures v == w
  {
    if moves != {} {
      assert Le(v, w) && Le(w, v);
    }
  }


  lemma {:induction false} MaxOverSpec(b: Board, cells: seq<Action>) returns (best: Action)
    ensures IsBestForX(b, MaxOver(b, cells), Moves(b, cells), best)
  {
    if cells == [] {
      assert Moves(b, cells) == {};
      best := (0, 0);
    } else {
      var rest, last := cells[..|cells| - 1], cells[|cells| - 1];
      assert cells == rest + [last];
      best := MaxOverSpec(b, rest);
      if last in EmptyCells(b) {
        assert Moves(b, cells) == Moves(b, rest) + {last};
        best := MaxStep(b, MaxOver(b, rest), Moves(b, rest), best, last);
      } else {
        assert Moves(b, cells) == Moves(b, rest);
      }
    }
  }

  lemma {:induction false} MinOverSpec(b: Board, cells: seq<Action>) returns (best: Action)
    ensures IsBestForO(b, MinOver(b, cells), Moves(b, cells), best)
  {
    if cells == [] {
      assert Moves(b, cells) == {};
      best := (0, 0);
    } else {
      var rest, last := cells[..|cells| - 1], cells[|cells| - 1];
      assert cells == rest + [last];
      best := MinOverSpec(b, rest);
      if last in EmptyCells(b) {
        assert Moves(b, cells) == Moves(b, rest) + {last};
        best := MinStep(b, MinOver(b, rest), Moves(b, rest), best, last);
      } else {
        assert Moves(b, cells) == Moves(b, rest);
      }
    }
  }


  /** Off a finished game, `max_value` is the best `min_value` X can reach in one move. */
  lemma MaxValueIsBest(b: Board) returns (best: Action)
    requires !Terminal(b)
    ensures IsBestForX(b, MaxValue(b), EmptyCells(b), best) && EmptyCells(b) != {}
  {
    TerminalSpec(b);
    best := MaxOverSpec(b, AllCells);
    forall a | a in EmptyCells(b)
      ensures a in AllCells
    {
      AllCellsInRange(a);
    }
    assert Moves(b, AllCells) == EmptyCells(b);
  }

  /** Off a finished game, `min_value` is the best `max_value` O can reach in one move. */
  lemma MinValueIsBest(b: Board) returns (best: Action)
    requires !Terminal(b)
    ensures IsBestForO(b, MinValue(b), EmptyCells(b), best) && EmptyCells(b) != {}
  {
    TerminalSpec(b);
    best := MinOverSpec(b, AllCells);
    forall a | a in EmptyCells(b)
      ensures a in AllCells
    {
      AllCellsInRange(a);
    }
    assert Moves(b, AllCells) == EmptyCells(b);
  }

  /** Once every move is tried, the best value over them is `max_value`'s. */
  lemma MaxLoopDone(b: Board, v: Bound, moves: set<Action>, best: Action)
    requires !Terminal(b) && moves == EmptyCells(b) && IsBestForX(b, v, moves, best)
    ensures v == MaxValue(b)
  {
    var other := MaxValueIsBest(b);
    BestForXUnique(b, v, MaxValue(b), moves, best, other);
  }

  /** Once every move is tried, the best value over them is `min_value`'s. */
  lemma MinLoopDone(b: Board, v: Bound, moves: set<Action>, best: Action)
    requires !Terminal(b) && moves == EmptyCells(b) && IsBestForO(b, v, moves, best)
    ensures v == MinValue(b)
  {
    var other := MinValueIsBest(b);
    BestForOUnique(b, v, MinValue(b), moves, best, other);
  }

  /** Both searches always end in a utility: never an infinity, always in [-1, 1]. */
  lemma {:induction false} ValuesAreUtilities(b: Board)
    ensures MaxValue(b).Fin? && -1 <= MaxValue(b).n <= 1
    ensures MinValue(b).Fin? && -1 <= MinValue(b).n <= 1
    decreases EmptyCount(b)
  {
    if !Terminal(b) {
      var a := MaxValueIsBest(b);
      PlayShrinks(b, a);
      ValuesAreUtilities(Play(b, a));
      var c := MinValueIsBest(b);
      PlayShrinks(b, c);
      ValuesAreUtilities(Play(b, c));
    }
  }

  /**
   * The moves `order` a loop has taken so far from the set `actions`, each
   * once, are exactly those no longer in `remaining`.
   */
  ghost predicate Enumerates(order: seq<Action>, remaining: set<Action>, actions: set<Action>) {
    && remaining <= actions
    && (forall a :: a in order <==> a in actions && a !in remaining)
    && forall i, j :: 0 <= i < j < |order| ==> order[i] != order[j]
  }

  lemma EnumerateStep(order: seq<Action>, remaining: set<Action>, actions: set<Action>, a: Action)
    requires Enumerates(order, remaining, actions) && a in remaining
    ensures Enumerates(order + [a], remaining - {a}, actions)
  {
  }

  /** The loops may try the moves in any order: the value is the same. */
  lemma MaxOverAnyOrder(b: Board, order: seq<Action>)
    requires !Terminal(b) && Enumerates(order, {}, EmptyCells(b))
    ensures MaxOver(b, order) == MaxValue(b)
  {
    var best := MaxOverSpec(b, order);
    assert Moves(b, order) == EmptyCells(b);
    MaxLoopDone(b, MaxOver(b, order), EmptyCells(b), best);
  }

  lemma MinOverAnyOrder(b: Board, order: seq<Action>)
    requires !Terminal(b) && Enumerates(order, {}, EmptyCells(b))
    ensures MinOver(b, order) == MinValue(b)
  {
    var best := MinOverSpec(b, order);
    assert Moves(b, order) == EmptyCells(b);
    MinLoopDone(b, MinOver(b, order), EmptyCells(b), best);
  }

  /**
   * `max_value(board)`: a finished game gives its utility; otherwise `value`
   * starts at -inf and takes the `max` with `min_value` of every move's
   * result, the moves taken in the set's iteration order.
   */
  method MaxValueOf(board: Board) returns (value: Bound)
    ensures value == MaxValue(board)
    decreases EmptyCount(board), 2
  {
    if Terminal(board) {
      return Fin(Utility(board));
    }
    value := NegInf;
    var actions := Actions(board);
    var remaining := actions;
    ghost var order: seq<Action> := [];
    while remaining != {}
      invariant actions == EmptyCells(board) && Enumerates(order, remaining, actions)
      invariant value == MaxOver(board, order)
      decreases |remaining|
    {
      var action :| action in remaining;
      var v := MinValueAfter(board, action);
      assert (order + [action])[..|order|] == order;
      value := MaxB(value, v);
      EnumerateStep(order, remaining, actions, action);
      order := order + [action];
      remaining := remaining - {action};
    }
    MaxOverAnyOrder(board, order);
  }

  /**
   * `min_value(board)`: a finished game gives its utility; otherwise `value`
   * starts at +inf and takes the `min` with `max_value` of every move's
   * result, the moves taken in the set's iteration order.
   */
  method MinValueOf(board: Board) returns (value: Bound)
    ensures value == MinValue(board)
    decreases EmptyCount(board), 2
  {
    if Terminal(board) {
      return Fin(Utility(board));
    }
    value := PosInf;
    var actions := Actions(board);
    var remaining := actions;
    ghost var order: seq<Action> := [];
    while remaining != {}
      invariant actions == EmptyCells(board) && Enumerates(order, remaining, actions)
      invariant value == MinOver(board, order)
      decreases |remaining|
    {
      var action :| action in remaining;
      var v := MaxValueAfter(board, action);
      assert (order + [action])[..|order|] == order;
      value := MinB(value, v);
      EnumerateStep(order, remaining, actions, action);
      order := order + [action];
      remaining := remaining - {action};
    }
    MinOverAnyOrder(board, order);
  }

  /** `min_value(result(board, action))` for a legal move. */
  method MinValueAfter(board: Board, action: Action) returns (v: Bound)
    requires action in EmptyCells(board)
    ensures v == MinValue(Play(board, action))
    decreases EmptyCount(board), 1
  {
    var successor := ResultOf(board, action);
    PlayShrinks(board, action);
    v := MinValueOf(successor.value);
  }

  /** `max_value(result(board, action))` for a legal move. */
  method MaxValueAfter(board: Board, action: Action) returns (v: Bound)
    requires action in EmptyCells(board)
    ensures v == MaxValue(Play(board, action))
    decreases EmptyCount(board), 1
  {
    var successor := ResultOf(board, action);
    PlayShrinks(board, action);
    v := MaxValueOf(successor.value);
  }

  /**
   * The state of X's loop in `minimax` after trying the moves `order`:
   * `bestValue` is the largest `min_value` seen, and `move` is the first move
   * reaching it, because only a strictly better value replaces it.
   */
  predicate XLoop(b: Board, order: seq<Action>, bestValue: Bound, move: Option<Action>, pos: nat)
    requires forall k | 0 <= k < |order| :: order[k] in EmptyCells(b)
  {
    && bestValue == MaxOver(b, order)
    && (order == [] <==> move.None?)
    && (move.Some? ==>
      && pos < |order| && order[pos] == move.value
      && MinValue(Play(b, move.value)) == bestValue
      && forall j :: 0 <= j < pos ==> Lt(MinValue(Play(b, order[j])), bestValue))
  }

  /** The state of O's loop in `minimax`: the smallest `max_value` seen and the first move reaching it. */
  predicate OLoop(b: Board, order: seq<Action>, bestValue: Bound, move: Option<Action>, pos: nat)
    requires forall k | 0 <= k < |order| :: order[k] in EmptyCells(b)
  {
    && bestValue == MinOver(b, order)
    && (order == [] <==> move.None?)
    && (move.Some? ==>
      && pos < |order| && order[pos] == move.value
      && MaxValue(Play(b, move.value)) == bestValue
      && forall j :: 0 <= j < pos ==> Lt(bestValue, MaxValue(Play(b, order[j]))))
  }

  /** One more move in X's loop: `if board_value > best_value` replaces the best move. */
  lemma XLoopStep(b: Board, order: seq<Action>, bestValue: Bound, move: Option<Action>, pos: nat, a: Action)
    requires forall k | 0 <= k < |order| :: order[k] in EmptyCells(b)
    requires a in EmptyCells(b) && XLoop(b, order, bestValue, move, pos)
    ensures Lt(bestValue, MinValue(Play(b, a))) ==> XLoop(b, order + [a], MinValue(Play(b, a)), Some(a), |order|)
    ensures !Lt(bestValue, MinValue(Play(b, a))) ==> XLoop(b, order + [a], bestValue, move, pos)
  {
    var v := MinValue(Play(b, a));
    var order' := order + [a];
    assert order'[..|order|] == order;
    ValuesAreUtilities(Play(b, a));
    var w := MaxOverSpec(b, order);
    assert forall j | 0 <= j < |order| :: order[j] in Moves(b, order);
  }

  /** One more move in O's loop: `if board_value < best_value` replaces the best move. */
  lemma OLoopStep(b: Board, order: seq<Action>, bestValue: Bound, move: Option<Action>, pos: nat, a: Action)
    requires forall k | 0 <= k < |order| :: order[k] in EmptyCells(b)
    requires a in EmptyCells(b) && OLoop(b, order, bestValue, move, pos)
    ensures Lt(MaxValue(Play(b, a)), bestValue) ==> OLoop(b, order + [a], MaxValue(Play(b, a)), Some(a), |order|)
    ensures !Lt(MaxValue(Play(b, a)), bestValue) ==> OLoop(b, order + [a], bestValue, move, pos)
  {
    var v := MaxValue(Play(b, a));
    var order' := order + [a];
    assert order'[..|order|] == order;
    ValuesAreUtilities(Play(b, a));
    var w := MinOverSpec(b, order);
    assert forall j | 0 <= j < |order| :: order[j] in Moves(b, order);
  }

  /** Once every legal move is tried, X's loop has found an optimal move. */
  lemma XLoopDone(b: Board, order: seq<Action>, bestValue: Bound, move: Option<Action>, pos: nat)
    requires !Terminal(b) && PlayerOf(b) == X
    requires Enumerates(order, {}, EmptyCells(b))
    requires XLoop(b, order, bestValue, move, pos)
    ensures move.Some? && move.value in EmptyCells(b) && Optimal(b, move.value, order, pos)
  {
    var w := MaxValueIsBest(b);
    MaxOverAnyOrder(b, order);
  }

  /** Once every legal move is tried, O's loop has found an optimal move. */
  lemma OLoopDone(b: Board, order: seq<Action>, bestValue: Bound, move: Option<Action>, pos: nat)
    requires !Terminal(b) && PlayerOf(b) == O
    requires Enumerates(order, {}, EmptyCells(b))
    requires OLoop(b, order, bestValue, move, pos)
    ensures move.Some? && move.value in EmptyCells(b) && Optimal(b, move.value, order, pos)
  {
    var w := MinValueIsBest(b);
    MinOverAnyOrder(b, order);
  }

  /**
   * `move` is what `minimax` returns for the player to move, taking the legal
   * moves in the order `order`, which lists each of them once: the move
   * reaches the value that player can force, and every move tried before it
   * is strictly worse for that player.
   */
  ghost predicate Optimal(b: Board, move: Action, order: seq<Action>, pos: nat) {
    && Enumerates(order, {}, EmptyCells(b))
    && (forall k | 0 <= k < |order| :: order[k] in EmptyCells(b))
    && pos < |order| && order[pos] == move
    && (PlayerOf(b) == X ==>
      && MinValue(Play(b, move)) == MaxValue(b)
      && forall j :: 0 <= j < pos ==> Lt(MinValue(Play(b, order[j])), MaxValue(b)))
    && (PlayerOf(b) == O ==>
      && MaxValue(Play(b, move)) == MinValue(b)
      && forall j :: 0 <= j < pos ==> Lt(MinValue(b), MaxValue(Play(b, order[j]))))
  }

  /** One round of X's loop in `minimax`, on the move `action`. */
  method XLoopRound(board: Board, ghost order: seq<Action>, bestValue: Bound, move: Option<Action>, ghost pos: nat, action: Action)
    returns (bestValue': Bound, move': Option<Action>, ghost pos': nat)
    requires forall k | 0 <= k < |order| :: order[k] in EmptyCells(board)
    requires action in EmptyCells(board) && XLoop(board, order, bestValue, move, pos)
    ensures XLoop(board, order + [action], bestValue', move', pos')
  {
    var boardValue := MinValueAfter(board, action);
    XLoopStep(board, order, bestValue, move, pos, action);
    bestValue', move', pos' := bestValue, move, pos;
    if Lt(bestValue, boardValue) {
      bestValue' := boardValue;
      move' := Some(action);
      pos' := |order|;
    }
  }

  /** One round of O's loop in `minimax`, on the move `action`. */
  method OLoopRound(board: Board, ghost order: seq<Action>, bestValue: Bound, move: Option<Action>, ghost pos: nat, action: Action)
    returns (bestValue': Bound, move': Option<Action>, ghost pos': nat)
    requires forall k | 0 <= k < |order| :: order[k] in EmptyCells(board)
    requires action in EmptyCells(board) && OLoop(board, order, bestValue, move, pos)
    ensures OLoop(board, order + [action], bestValue', move', pos')
  {
    var boardValue := MaxValueAfter(board, action);
    OLoopStep(board, order, bestValue, move, pos, action);
    bestValue', move', pos' := bestValue, move, pos;
    if Lt(boardValue, bestValue) {
      bestValue' := boardValue;
      move' := Some(action);
      pos' := |order|;
    }
  }

  /**
   * `minimax(board)`: None for a finished game; otherwise the first move, in
   * the order the legal moves are tried, that reaches the best value for the
   * player to move.
   */
  method Minimax(board: Board) returns (move: Option<Action>, ghost order: seq<Action>, ghost pos: nat)
    ensures Terminal(board) <==> move.None?
    ensures move.Some? ==> move.value in EmptyCells(board) && Optimal(board, move.value, order, pos)
  {
    if Terminal(board) {
      return None, [], 0;
    }
    if PlayerOf(board) == X {
      move, order, pos := BestMoveForX(board);
    } else {
      move, order, pos := BestMoveForO(board);
    }
  }

  /** X's loop in `minimax`: `best_value` starts at -inf and `min_value` of each move's result is compared with it. */
  method BestMoveForX(board: Board) returns (move: Option<Action>, ghost order: seq<Action>, ghost pos: nat)
    requires !Terminal(board) && PlayerOf(board) == X
    ensures move.Some? && move.value in EmptyCells(board) && Optimal(board, move.value, order, pos)
  {
    var bestValue := NegInf;
    move := None;
    var actions := Actions(board);
    var remaining := actions;
    order, pos := [], 0;
    while remaining != {}
      invariant actions == EmptyCells(board) && Enumerates(order, remaining, actions)
      invariant XLoop(board, order, bestValue, move, pos)
      decreases |remaining|
    {
      var action :| action in remaining;
      bestValue, move, pos := XLoopRound(board, order, bestValue, move, pos, action);
      EnumerateStep(order, remaining, actions, action);
      order := order + [action];
      remaining := remaining - {action};
    }
    XLoopDone(board, order, bestValue, move, pos);
  }

  /** O's loop in `minimax`: `best_value` starts at +inf and `max_value` of each move's result is compared with it. */
  method BestMoveForO(board: Board) returns (move: Option<Action>, ghost order: seq<Action>, ghost pos: nat)
    requires !Terminal(board) && PlayerOf(board) == O
    ensures move.Some? && move.value in EmptyCells(board) && Optimal(board, move.value, order, pos)
  {
    var bestValue := PosInf;
    move := None;
    var actions := Actions(board);
    var remaining := actions;
    order, pos := [], 0;
    while remaining != {}
      invariant actions == EmptyCells(board) && Enumerates(order, remaining, actions)
      invariant OLoop(board, order, bestValue, move, pos)
      decreases |remaining|
    {
      var action :| action in remaining;
      bestValue, move, pos := OLoopRound(board, order, bestValue, move, pos, action);
      EnumerateStep(order, remaining, actions, action);
      order := order + [action];
      remaining := remaining - {action};
    }
    OLoopDone(board, order, bestValue, move, pos);
  }

  /**
   * The move `minimax` picks is at least as good for the player to move as
   * every other legal move.
   */
  lemma OptimalIsBest(b: Board, move: Action, order: seq<Action>, pos: nat, a: Action)
    requires !Terminal(b) && Optimal(b, move, order, pos) && a in EmptyCells(b)
    ensures PlayerOf(b) == X ==> Le(MinValue(Play(b, a)), MinValue(Play(b, move)))
    ensures PlayerOf(b) == O ==> Le(MaxValue(Play(b, move)), MaxValue(Play(b, a)))
  {
    var w := MaxValueIsBest(b);
    var w' := MinValueIsBest(b);
  }
}
