/**
 * The game screen's state and its event handlers, each a pure transition on
 * one state record. The screen keeps two players (X first, O second), whether
 * their names have been accepted, the board, whose turn it is, the winner
 * (`Empty` for `null`), the draw flag, and the names it has sent to `addWin`
 * in the order of the calls.
 */
module GameScreen {
  import opened GameLogic
  import opened JsString
  import opened Wrappers

  datatype PlayerInfo = PlayerInfo(name: string, symbol: Mark, wins: nat)

  /** The two-entry player array, in array order. */
  datatype Players = Players(first: PlayerInfo, second: PlayerInfo)

  datatype Session = Session(
    players: Players,
    namesSet: bool,
    board: Board,
    current: Mark,
    winner: Cell,
    isDraw: bool,
    recorded: seq<string>)

  /** Two unnamed players without wins, X first. */
  function FreshPlayers(): Players {
    Players(PlayerInfo("", X, 0), PlayerInfo("", O, 0))
  }

  /** The state the screen mounts with. */
  function Initial(): (r: Session)
    ensures r.players.first == PlayerInfo("", X, 0) && r.players.second == PlayerInfo("", O, 0)
    ensures !r.namesSet && r.recorded == []
    ensures |r.board| == 9 && forall i :: 0 <= i < 9 ==> Free(r.board, i)
    ensures r.current == X && r.winner == Empty && !r.isDraw
  {
    Session(FreshPlayers(), false, EmptyBoard(), X, Empty, false, [])
  }

  /** The round is over: clicks are ignored until a new game starts. */
  predicate Terminal(s: Session) {
    s.winner != Empty || s.isDraw
  }

  /** `players.find((p) => p.symbol === c)`: the first player holding `c`. */
  function FindBySymbol(ps: Players, c: Cell): (r: Option<PlayerInfo>)
    ensures r.None? <==> ps.first.symbol != c && ps.second.symbol != c
    ensures r.Some? ==> r.value.symbol == c && (r.value == ps.first || r.value == ps.second)
    ensures ps.first.symbol == c ==> r == Some(ps.first)
  {
    if ps.first.symbol == c then Some(ps.first)
    else if ps.second.symbol == c then Some(ps.second)
    else None
  }

  /** One more win for each player holding `c`. */
  function CreditPlayer(p: PlayerInfo, c: Cell): PlayerInfo {
    if p.symbol == c then p.(wins := p.wins + 1) else p
  }

  /** `prev.map(...)`: each player holding `c` gains one win; names, symbols and other tallies stay. */
  function Credit(ps: Players, c: Cell): (r: Players)
    ensures r.first.name == ps.first.name && r.first.symbol == ps.first.symbol
    ensures r.second.name == ps.second.name && r.second.symbol == ps.second.symbol
    ensures r.first.wins == if ps.first.symbol == c then ps.first.wins + 1 else ps.first.wins
    ensures r.second.wins == if ps.second.symbol == c then ps.second.wins + 1 else ps.second.wins
  {
    Players(CreditPlayer(ps.first, c), CreditPlayer(ps.second, c))
  }

  /** A keystroke in one of the two name fields replaces that player's name. */
  function EditName(s: Session, second: bool, text: string): (r: Session)
    ensures second ==> r.players.second.name == text && r.players.first == s.players.first
    ensures !second ==> r.players.first.name == text && r.players.second == s.players.second
    ensures r.players.first.symbol == s.players.first.symbol && r.players.first.wins == s.players.first.wins
    ensures r.players.second.symbol == s.players.second.symbol && r.players.second.wins == s.players.second.wins
    ensures r.(players := s.players) == s
  {
    if second then s.(players := s.players.(second := s.players.second.(name := text)))
    else s.(players := s.players.(first := s.players.first.(name := text)))
  }

  /**
   * `handleNameSubmit`: accepts the names once both contain a character
   * other than white space; changes nothing else.
   */
  function NameSubmit(s: Session): (r: Session)
    ensures r.namesSet <==> s.namesSet || (!Blank(s.players.first.name) && !Blank(s.players.second.name))
    ensures r.(namesSet := s.namesSet) == s
  {
    if Trim(s.players.first.name) != [] && Trim(s.players.second.name) != [] then s.(namesSet := true)
    else s
  }

  /** `board[index]` is truthy: the cell exists and holds a symbol. */
  predicate Occupied(b: Board, i: int) {
    0 <= i < |b| && b[i] != Empty
  }

  /**
   * `handleCellClick`: ignored on a taken cell or a finished round;
   * otherwise the current player moves, and the round ends with a winner
   * (credited and sent to `addWin`), ends in a draw, or passes the turn.
   */
  function CellClick(s: Session, i: int): (r: Session)
    ensures Occupied(s.board, i) || Terminal(s) ==> r == s
    ensures !(Occupied(s.board, i) || Terminal(s)) ==>
      && r.board == MakeMove(s.board, i, s.current)
      && r.winner == CheckWinner(r.board)
      && r.isDraw == CheckDraw(r.board)
      && (r.current == NextPlayer(s.current) <==> !Terminal(r))
      && (Terminal(r) ==> r.current == s.current)
      && r.namesSet == s.namesSet
    ensures s.recorded <= r.recorded && |r.recorded| <= |s.recorded| + 1
  {
    if Occupied(s.board, i) || s.winner != Empty || s.isDraw then s
    else
      var board := MakeMove(s.board, i, s.current);
      var w := CheckWinner(board);
      var d := CheckDraw(board);
      if w != Empty then
        match FindBySymbol(s.players, w)
        case Some(p) =>
          s.(board := board, winner := w, players := Credit(s.players, w), recorded := s.recorded + [p.name])
        case None =>
          s.(board := board, winner := w)
      else if d then
        s.(board := board, isDraw := true)
      else
        s.(board := board, current := NextPlayer(s.current))
  }

  /** `handleNewGame`: a fresh round for the same players. */
  function NewGame(s: Session): (r: Session)
    ensures |r.board| == 9 && forall k :: 0 <= k < |r.board| ==> r.board[k] == Empty
    ensures r.current == X && r.winner == Empty && !r.isDraw
    ensures r.players == s.players && r.namesSet == s.namesSet && r.recorded == s.recorded
  {
    s.(board := EmptyBoard(), current := X, winner := Empty, isDraw := false)
  }

  /**
   * `handleNewPlayers`: back to the state the screen mounts with; only the
   * record of wins already sent to `addWin` survives.
   */
  function NewPlayers(s: Session): (r: Session)
    ensures r == Initial().(recorded := s.recorded)
    ensures !r.namesSet && r.players.first.name == "" && r.players.second.name == ""
    ensures r.players.first.wins == 0 && r.players.second.wins == 0
  {
    NewGame(s.(namesSet := false, players := FreshPlayers()))
  }

  /** The user actions the screen reacts to. */
  datatype Event =
    | TypeName(second: bool, text: string)
    | SubmitNames
    | ClickCell(index: int)
    | StartNewGame
    | ChangePlayers

  function Step(s: Session, e: Event): Session {
    match e
    case TypeName(second, text) => EditName(s, second, text)
    case SubmitNames => NameSubmit(s)
    case ClickCell(i) => CellClick(s, i)
    case StartNewGame => NewGame(s)
    case ChangePlayers => NewPlayers(s)
  }

  function Run(s: Session, es: seq<Event>): Session
    decreases |es|
  {
    if es == [] then s else Run(Step(s, es[0]), es[1..])
  }

  /** The grid renders nine buttons, so a click names a cell of the board. */
  predicate FromGrid(e: Event) {
    e.ClickCell? ==> 0 <= e.index < 9
  }

  /** X moves first and turns alternate: X is level with O or one ahead. */
  predicate Balanced(b: Board) {
    Count(b, X) == Count(b, O) || Count(b, X) == Count(b, O) + 1
  }

  /**
   * What every reachable state satisfies: nine cells, balanced pieces, X to
   * move exactly when the pieces are level (while the round runs), winner
   * and draw exclusive, every uniform line owned by the recorded winner, and
   * a draw exactly when the board is full without a winner.
   */
  ghost predicate Inv(s: Session) {
    && |s.board| == 9
    && s.players.first.symbol == X && s.players.second.symbol == O
    && Balanced(s.board)
    && (!Terminal(s) ==> (s.current == X <==> Count(s.board, X) == Count(s.board, O)))
    && !(s.winner != Empty && s.isDraw)
    && s.winner == CheckWinner(s.board)
    && (forall k :: 0 <= k < |WinningLines| && Uniform(s.board, WinningLines[k]) ==>
          Owner(s.board, WinningLines[k]) == s.winner)
    && (s.isDraw <==> AllOccupied(s.board) && s.winner == Empty)
  }

  /** The mounted state satisfies the invariant. */
  lemma InitialInv()
    ensures Inv(Initial())
  {
    EmptyBoardUndecided();
    CountEmptyBoard(X);
    CountEmptyBoard(O);
  }

  /** A fresh round satisfies the invariant whenever the players keep their symbols. */
  lemma NewGameInv(s: Session)
    requires s.players.first.symbol == X && s.players.second.symbol == O
    ensures Inv(NewGame(s))
  {
    EmptyBoardUndecided();
    CountEmptyBoard(X);
    CountEmptyBoard(O);
  }

  /** A click on a free cell during a running round keeps the invariant. */
  lemma MoveInv(s: Session, i: int)
    requires Inv(s) && !Terminal(s) && Free(s.board, i)
    ensures Inv(CellClick(s, i))
  {
    var b := MakeMove(s.board, i, s.current);
    MoveOnlyCreatesMoverLines(s.board, i, s.current);
    CountAfterMove(s.board, i, s.current, X);
    CountAfterMove(s.board, i, s.current, O);
  }

  /** Every event the screen can receive keeps the invariant. */
  lemma StepInv(s: Session, e: Event)
    requires Inv(s) && FromGrid(e)
    ensures Inv(Step(s, e))
  {
    match e
    case ClickCell(i) =>
      if !Occupied(s.board, i) && !Terminal(s) {
        MoveInv(s, i);
      }
    case StartNewGame => NewGameInv(s);
    case ChangePlayers => NewGameInv(s.(namesSet := false, players := FreshPlayers()));
    case _ =>
  }

  /** The invariant holds after any sequence of grid clicks and button presses. */
  lemma {:induction false} RunInv(s: Session, es: seq<Event>)
    requires Inv(s)
    requires forall k :: 0 <= k < |es| ==> FromGrid(es[k])
    ensures Inv(Run(s, es))
    decreases |es|
  {
    if es == [] {
      assert Run(s, es) == s;
    } else {
      StepInv(s, es[0]);
      var rest := es[1..];
      assert forall k :: 0 <= k < |rest| ==> rest[k] == es[k + 1];
      RunInv(Step(s, es[0]), rest);
    }
  }

  /** Every state reachable from the mounted one satisfies the invariant. */
  lemma ReachableInv(es: seq<Event>)
    requires forall k :: 0 <= k < |es| ==> FromGrid(es[k])
    ensures Inv(Run(Initial(), es))
  {
    InitialInv();
    RunInv(Initial(), es);
  }

  /**
   * A winning click awards the round to the mover: the mover's win count
   * rises by one, the other player and both names stay as they were, and
   * the mover's name is sent to `addWin`.
   */
  lemma WinningClick(s: Session, i: int)
    requires Inv(s) && !Terminal(s) && Free(s.board, i)
    requires CheckWinner(MakeMove(s.board, i, s.current)) != Empty
    ensures var r := CellClick(s, i);
      && r.winner == s.current
      && !r.isDraw && r.current == s.current
      && (s.current == X ==>
            && r.players.first == s.players.first.(wins := s.players.first.wins + 1)
            && r.players.second == s.players.second
            && r.recorded == s.recorded + [s.players.first.name])
      && (s.current == O ==>
            && r.players.second == s.players.second.(wins := s.players.second.wins + 1)
            && r.players.first == s.players.first
            && r.recorded == s.recorded + [s.players.second.name])
  {
    MoveOnlyCreatesMoverLines(s.board, i, s.current);
  }

  /** Only a winning click touches the players or the `addWin` record. */
  lemma NonWinningClickKeepsPlayers(s: Session, i: int)
    requires CellClick(s, i).winner == s.winner
    ensures CellClick(s, i).players == s.players
    ensures CellClick(s, i).recorded == s.recorded
  {
  }

  /**
   * A click that passes the guard off the board (where the cell reads
   * `undefined`) leaves the board as it is but still passes the turn. The
   * grid never produces such an index.
   */
  lemma OffBoardClickPassesTurn(s: Session, i: int)
    requires Inv(s) && !Terminal(s)
    requires i < 0 || i >= |s.board|
    ensures CellClick(s, i).board == s.board
    ensures CellClick(s, i).current == NextPlayer(s.current)
  {
  }

  /** Within a round, a taken cell keeps its symbol whatever is clicked. */
  lemma ClickKeepsTakenCells(s: Session, i: int, j: int)
    requires 0 <= j < |s.board| && s.board[j] != Empty
    ensures |CellClick(s, i).board| == |s.board|
    ensures CellClick(s, i).board[j] == s.board[j]
  {
  }

  /** The record of names sent to `addWin` only ever grows. */
  lemma {:induction false} RunRecordGrows(s: Session, es: seq<Event>)
    ensures s.recorded <= Run(s, es).recorded
    decreases |es|
  {
    if es != [] {
      var t := Step(s, es[0]);
      assert s.recorded <= t.recorded;
      RunRecordGrows(t, es[1..]);
    }
  }
}
