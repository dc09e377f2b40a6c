/**
 * The rule engine as transitions on the whole game state: a click on a
 * cell, the computer's delayed reply, the end of a game, a reset and the
 * computer-opponent switch. The imperative game object in module Session
 * is proved to follow these transitions.
 */
module Engine {
  import opened Board
  import opened Advisor

  /**
   * Everything the game keeps between events: the board, each player's
   * placement-ordered queue of live pieces, whose turn it is, whether the
   * game is running, whether the computer plays O and is about to move,
   * and the two running scores.
   */
  datatype State = State(
    board: seq<Mark>,
    queueX: seq<nat>,
    queueO: seq<nat>,
    current: Player,
    active: bool,
    aiEnabled: bool,
    aiThinking: bool,
    scoreX: nat,
    scoreO: nat)
  {
    function Queue(p: Player): seq<nat> { if p == X then queueX else queueO }
    function Score(p: Player): nat { if p == X then scoreX else scoreO }
  }

  /** What a finished game is reported as; the source also knows a draw. */
  datatype Outcome = Win(winner: Player) | Draw

  /**
   * Both queues are in step with the board, and a running game has no
   * completed line.
   */
  predicate Invariant(s: State) {
    && |s.board| == Size
    && QueueMatches(s.board, X, s.queueX)
    && QueueMatches(s.board, O, s.queueO)
    && (s.active ==> CheckWinner(s.board) == None)
  }

  /** The state when the page loads: empty board, X to move, two-player mode. */
  function Initial(): (s: State)
    ensures Invariant(s)
    ensures s.board == EmptyBoard && s.current == X && s.active && !s.aiEnabled && !s.aiThinking
    ensures s.scoreX == 0 && s.scoreO == 0
  {
    TablesWellFormed();
    State(EmptyBoard, [], [], X, true, false, false, 0, 0)
  }

  /**
   * A new game: empty board and queues, X to move, nothing pending; the
   * scores and the mode are kept.
   */
  function Reset(s: State): (r: State)
    ensures Invariant(r)
    ensures r.board == EmptyBoard && r.queueX == [] && r.queueO == []
    ensures r.current == X && r.active && !r.aiThinking
    ensures r.scoreX == s.scoreX && r.scoreO == s.scoreO && r.aiEnabled == s.aiEnabled
  {
    TablesWellFormed();
    s.(board := EmptyBoard, queueX := [], queueO := [], current := X, active := true, aiThinking := false)
  }

  /** Switching the computer opponent on or off records the choice and starts a new game. */
  function SetAiMode(s: State, enabled: bool): (r: State)
    ensures r.aiEnabled == enabled && Invariant(r)
    ensures r == Reset(s).(aiEnabled := enabled)
  {
    Reset(s.(aiEnabled := enabled))
  }

  /** `p`'s oldest piece leaves the board and the front of `p`'s queue. */
  function WithoutOldest(s: State, p: Player): (r: State)
    requires |s.Queue(p)| > 0 && s.Queue(p)[0] < |s.board|
    ensures |r.board| == |s.board| && r.board[s.Queue(p)[0]] == Empty
    ensures forall c :: 0 <= c < |s.board| && c != s.Queue(p)[0] ==> r.board[c] == s.board[c]
    ensures r.Queue(p) == s.Queue(p)[1..] && r.Queue(Other(p)) == s.Queue(Other(p))
    ensures r.current == s.current && r.active == s.active && r.aiEnabled == s.aiEnabled
    ensures r.aiThinking == s.aiThinking && r.scoreX == s.scoreX && r.scoreO == s.scoreO
  {
    var (b, q) := DropOldest(s.board, s.Queue(p));
    if p == X then s.(board := b, queueX := q) else s.(board := b, queueO := q)
  }

  /**
   * `p` places a piece at cell `k`, dropping its oldest piece first when it
   * has three: `k` holds `p`'s piece and ends `p`'s queue, and nothing but
   * the board and `p`'s queue changes.
   */
  function WithPiece(s: State, p: Player, k: nat): (r: State)
    requires |s.board| == Size && k < Size
    requires |s.Queue(p)| >= MaxPieces ==> s.Queue(p)[0] < Size
    ensures |r.board| == Size && r.board[k] == p
    ensures |r.Queue(p)| > 0 && r.Queue(p)[|r.Queue(p)| - 1] == k
    ensures r.Queue(Other(p)) == s.Queue(Other(p))
    ensures r.current == s.current && r.active == s.active && r.aiEnabled == s.aiEnabled
    ensures r.aiThinking == s.aiThinking && r.scoreX == s.scoreX && r.scoreO == s.scoreO
  {
    var (b, q) := Place(s.board, s.Queue(p), p, k);
    if p == X then s.(board := b, queueX := q) else s.(board := b, queueO := q)
  }

  /** The end of a game: play stops, and a win adds one to the winner's score. */
  function GameEnd(s: State, result: Outcome): (r: State)
    ensures !r.active && r.board == s.board && r.queueX == s.queueX && r.queueO == s.queueO
    ensures r.current == s.current && r.aiEnabled == s.aiEnabled && r.aiThinking == s.aiThinking
    ensures result.Win? ==> r.Score(result.winner) == s.Score(result.winner) + 1
                            && r.Score(Other(result.winner)) == s.Score(Other(result.winner))
    ensures result.Draw? ==> r.scoreX == s.scoreX && r.scoreO == s.scoreO
  {
    match result
    case Draw => s.(active := false)
    case Win(p) =>
      if p == X then s.(active := false, scoreX := s.scoreX + 1)
      else s.(active := false, scoreO := s.scoreO + 1)
  }

  /** The cell the current player will lose on their next placement, if any. */
  function NextToRemove(s: State): (r: Option<nat>)
    ensures r.Some? <==> |s.Queue(s.current)| == MaxPieces
    ensures Invariant(s) && r.Some? ==> r.value < Size && s.board[r.value] == s.current
  {
    if |s.Queue(s.current)| == MaxPieces then Some(s.Queue(s.current)[0]) else None
  }

  /** Click ignores the event: no game running, the computer still to move, or an occupied cell. */
  predicate Blocked(s: State, index: nat)
    requires |s.board| == Size && index < Size
  {
    !s.active || s.aiThinking || s.board[index] != Empty
  }

  /**
   * A click on cell `index` by the player to move. Unless blocked, the
   * piece is placed (ageing out the oldest one at the cap); a completed
   * line ends the game; otherwise, against the computer, X's move hands
   * the turn to O and schedules the reply, and in two-player mode the turn
   * passes.
   */
  function Click(s: State, index: nat): (r: State)
    requires Invariant(s) && index < Size
    ensures Invariant(r)
  {
    if Blocked(s, index) then s
    else
      var p := s.current;
      WithPieceKeepsQueues(s, p, index);
      var s1 := WithPiece(s, p, index);
      match CheckWinner(s1.board)
      case Some(w) => GameEnd(s1, Win(w))
      case None =>
        if s.aiEnabled && p == X then s1.(current := O, aiThinking := true)
        else s1.(current := Other(p))
  }

  /** `move` is a cell O may take: on the board and empty. */
  predicate PlayableMove(s: State, move: Option<nat>)
    requires |s.board| == Size
  {
    move.Some? ==> move.value < Size && s.board[move.value] == Empty
  }

  /**
   * The computer's delayed reply once the advisor has answered `move`.
   * With no move the source fails before changing anything, so the state
   * stays as it was, with the reply still marked as pending. Otherwise O
   * places its piece, a completed line ends the game, else X is to move;
   * the pending mark is cleared either way.
   */
  function Reply(s: State, move: Option<nat>): (r: State)
    requires Invariant(s) && PlayableMove(s, move)
    ensures Invariant(r)
  {
    match move
    case None => s
    case Some(k) =>
      WithPieceKeepsQueues(s, O, k);
      var s1 := WithPiece(s, O, k);
      var s2 := match CheckWinner(s1.board)
                case Some(w) => GameEnd(s1, Win(w))
                case None => s1.(current := X);
      s2.(aiThinking := false)
  }

  /** The computer's reply with the advisor's pick for the random draw `roll`. */
  function AiTurn(s: State, roll: real): (r: State)
    requires Invariant(s) && 0.0 <= roll < 1.0
    ensures Invariant(r)
  {
    Reply(s, Advise(s.board, s.queueO, roll))
  }

  // ---------------------------------------------------------------------
  // The invariant is kept
  // ---------------------------------------------------------------------

  lemma WithPieceKeepsQueues(s: State, p: Player, k: nat)
    requires Invariant(s) && k < Size && s.board[k] == Empty
    ensures QueueMatches(WithPiece(s, p, k).board, X, WithPiece(s, p, k).queueX)
    ensures QueueMatches(WithPiece(s, p, k).board, O, WithPiece(s, p, k).queueO)
    ensures WithPiece(s, p, k).Queue(Other(p)) == s.Queue(Other(p))
  {
    PlaceKeepsQueues(s.board, p, s.Queue(p), s.Queue(Other(p)), k);
  }

  /**
   * In every state that satisfies the invariant at most six cells are
   * occupied, so at least three are empty and the board never fills.
   */
  lemma NeverFull(s: State)
    requires Invariant(s)
    ensures |Occupied(s.board)| <= 2 * MaxPieces
    ensures exists c :: 0 <= c < Size && s.board[c] == Empty
  {
    EmptyCellsRemain(s.board, s.queueX, s.queueO);
  }

  // ---------------------------------------------------------------------
  // Properties of a click
  // ---------------------------------------------------------------------

  /** A click changes the state exactly when it is not blocked. */
  lemma ClickGuarded(s: State, index: nat)
    requires Invariant(s) && index < Size
    ensures Click(s, index) == s <==> Blocked(s, index)
  {
    if !Blocked(s, index) {
      var s1 := WithPiece(s, s.current, index);
      assert s1.board[index] == s.current;
      assert Click(s, index).board == s1.board;
    }
  }

  /**
   * A click by a player who has three pieces down clears the cell of that
   * player's oldest piece, drops it from the front of the queue and
   * appends the new cell; no other cell and not the opponent's queue
   * change.
   */
  lemma ClickAgesOldest(s: State, index: nat)
    requires Invariant(s) && index < Size && !Blocked(s, index)
    requires |s.Queue(s.current)| == MaxPieces
    ensures Click(s, index).Queue(s.current) == s.Queue(s.current)[1..] + [index]
    ensures Click(s, index).Queue(Other(s.current)) == s.Queue(Other(s.current))
    ensures Click(s, index).board[s.Queue(s.current)[0]] == Empty
    ensures Click(s, index).board[index] == s.current
    ensures forall c :: 0 <= c < Size && c != index && c != s.Queue(s.current)[0]
                        ==> Click(s, index).board[c] == s.board[c]
  {
    PlaceAgesOldest(s.board, s.current, s.Queue(s.current), index);
  }

  /** The cell flagged as next to go is the one the click clears. */
  lemma NextToRemoveIsCleared(s: State, index: nat)
    requires Invariant(s) && index < Size && !Blocked(s, index)
    requires NextToRemove(s).Some?
    ensures Click(s, index).board[NextToRemove(s).value] == Empty
  {
    ClickAgesOldest(s, index);
  }

  /** Below the cap a click only adds the new piece. */
  lemma ClickBelowCap(s: State, index: nat)
    requires Invariant(s) && index < Size && !Blocked(s, index)
    requires |s.Queue(s.current)| < MaxPieces
    ensures Click(s, index).Queue(s.current) == s.Queue(s.current) + [index]
    ensures forall c :: 0 <= c < Size ==> Click(s, index).board[c] == if c == index then s.current else s.board[c]
  {
    PlaceBelowCap(s.board, s.current, s.Queue(s.current), index);
  }

  /**
   * When a click completes a line the game is over, the line is the
   * mover's, the mover's score goes up by one and the other score stays.
   */
  lemma ClickWinEndsGame(s: State, index: nat)
    requires Invariant(s) && index < Size && !Blocked(s, index)
    requires CheckWinner(Click(s, index).board).Some?
    ensures CheckWinner(Click(s, index).board) == Some(s.current)
    ensures !Click(s, index).active
    ensures Click(s, index).Score(s.current) == s.Score(s.current) + 1
    ensures Click(s, index).Score(Other(s.current)) == s.Score(Other(s.current))
  {
    PlaceOnlyMoverWins(s.board, s.Queue(s.current), s.current, index);
  }

  /**
   * Turn order after a click that wins nothing: against the computer, X's
   * move leaves O to move with the reply pending; otherwise the other
   * player is to move. The game keeps running and the scores stay.
   */
  lemma ClickTurnOrder(s: State, index: nat)
    requires Invariant(s) && index < Size && !Blocked(s, index)
    requires CheckWinner(Click(s, index).board).None?
    ensures Click(s, index).active
    ensures s.aiEnabled && s.current == X ==> Click(s, index).current == O && Click(s, index).aiThinking
    ensures !(s.aiEnabled && s.current == X) ==> Click(s, index).current == Other(s.current) && !Click(s, index).aiThinking
    ensures Click(s, index).scoreX == s.scoreX && Click(s, index).scoreO == s.scoreO
  {
  }

  // ---------------------------------------------------------------------
  // Properties of the computer's reply
  // ---------------------------------------------------------------------

  /**
   * When the advisor picks a cell, O's piece lands there, X's pieces stay
   * where they are and the reply is no longer pending.
   */
  lemma ReplyPlaces(s: State, move: Option<nat>)
    requires Invariant(s) && PlayableMove(s, move) && move.Some?
    ensures !Reply(s, move).aiThinking
    ensures Reply(s, move).board[move.value] == O
    ensures Reply(s, move).queueX == s.queueX
  {
  }

  /**
   * After the computer's piece lands, either a completed line ends the
   * game or X is to move. In a running game the line completed can only be
   * O's, and O's score goes up by one.
   */
  lemma ReplyOutcome(s: State, move: Option<nat>)
    requires Invariant(s) && PlayableMove(s, move) && move.Some?
    ensures CheckWinner(Reply(s, move).board).None? ==> Reply(s, move).current == X
    ensures CheckWinner(Reply(s, move).board).Some? ==> !Reply(s, move).active
    ensures s.active && CheckWinner(Reply(s, move).board).Some? ==>
              CheckWinner(Reply(s, move).board).value == O && Reply(s, move).scoreO == s.scoreO + 1
  {
    if s.active {
      PlaceOnlyMoverWins(s.board, s.queueO, O, move.value);
    }
  }

  /**
   * Without a move the reply changes nothing and stays pending, so every
   * later click is ignored until the game is reset.
   */
  lemma ReplyStuck(s: State, index: nat)
    requires Invariant(s) && index < Size && s.aiThinking
    ensures Reply(s, None) == s
    ensures Click(Reply(s, None), index) == s
  {
  }

  /**
   * The game never ends in a draw: a game that stops on a click stops on a
   * win, which adds one to exactly one score.
   */
  lemma ClickNeverDraws(s: State, index: nat)
    requires Invariant(s) && index < Size
    requires s.active && !Click(s, index).active
    ensures Click(s, index).scoreX + Click(s, index).scoreO == s.scoreX + s.scoreO + 1
  {
    if CheckWinner(Click(s, index).board).Some? {
      ClickWinEndsGame(s, index);
    }
  }
}
