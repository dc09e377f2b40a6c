/**
 * The game object: the board as a mutable array of nine cells, the two
 * piece queues, the turn, the mode flags and the scores, updated in place
 * by the event handlers. Each handler is proved to perform the matching
 * transition of module Engine, so the invariant proved there holds for
 * the object after every event.
 */
module Session {
  import opened Board
  import opened Advisor
  import opened Engine

  class Game {
    var board: array<Mark>
    var queueX: seq<nat>
    var queueO: seq<nat>
    var currentPlayer: Player
    var gameActive: bool
    var aiEnabled: bool
    var aiThinking: bool
    var scoreX: nat
    var scoreO: nat

    /** The abstract state the object stands for. */
    ghost function Model(): State
      reads this, board
    {
      State(board[..], queueX, queueO, currentPlayer, gameActive, aiEnabled, aiThinking, scoreX, scoreO)
    }

    ghost predicate Valid()
      reads this, board
    {
      board.Length == Size && Invariant(Model())
    }

    function Queue(p: Player): seq<nat>
      reads this
    {
      if p == X then queueX else queueO
    }

    /** The page-load state: empty board, X to move, two-player mode, scores 0:0. */
    constructor()
      ensures Valid() && Model() == Initial() && fresh(board)
    {
      board := new Mark[Size](_ => Empty);
      queueX := [];
      queueO := [];
      currentPlayer := X;
      gameActive := true;
      aiEnabled := false;
      aiThinking := false;
      scoreX := 0;
      scoreO := 0;
      new;
      assert board[..] == EmptyBoard;
      assert Model() == Initial();
    }

    /** The winner on the board: the mark of the first complete combo, if any. */
    method CheckWinner() returns (w: Option<Player>)
      requires board.Length == Size
      ensures w == Board.CheckWinner(board[..])
    {
      TablesWellFormed();
      var k := 0;
      while k < |WinningCombos|
        invariant 0 <= k <= |WinningCombos|
        invariant WinnerFrom(board[..], k) == Board.CheckWinner(board[..])
      {
        var combo := WinningCombos[k];
        if board[combo.a] != Empty && board[combo.a] == board[combo.b] && board[combo.a] == board[combo.c] {
          var m: Player := board[combo.a];
          return Some(m);
        }
        k := k + 1;
      }
      return None;
    }

    /** The static value of the board for `player`: line threats, then position values. */
    method EvaluateBoard(player: Player) returns (score: int)
      requires board.Length == Size
      ensures score == Advisor.EvaluateBoard(board[..], player)
    {
      TablesWellFormed();
      var opponent := Other(player);
      score := 0;
      var k := 0;
      while k < |WinningCombos|
        invariant 0 <= k <= |WinningCombos|
        invariant score == ThreatScore(board[..], player, k)
      {
        var combo := WinningCombos[k];
        var playerPieces := CountInCombo(board[..], combo, player);
        var opponentPieces := CountInCombo(board[..], combo, opponent);
        if playerPieces == 2 && opponentPieces == 0 {
          score := score + 10;
        }
        if opponentPieces == 2 && playerPieces == 0 {
          score := score - 8;
        }
        k := k + 1;
      }
      var index := 0;
      while index < Size
        invariant 0 <= index <= Size
        invariant score == ThreatScore(board[..], player, |WinningCombos|) + PositionScore(board[..], player, index)
      {
        if board[index] == player {
          score := score + PositionValues[index];
        } else if board[index] == opponent {
          score := score - PositionValues[index];
        }
        index := index + 1;
      }
    }

    /**
     * The score of O playing cell `index`: O is written into the cell while
     * the combos through it are examined, and the cell is restored before
     * returning.
     */
    method EvaluateMove(index: nat) returns (score: int)
      requires board.Length == Size && index < Size
      modifies board
      ensures board[..] == old(board[..])
      ensures score == MoveScore(board[..], queueO, index)
    {
      TablesWellFormed();
      ghost var b0 := board[..];
      var originalValue := board[index];
      board[index] := O;
      score := PositionValues[index] * 2;
      var k := 0;
      while k < |WinningCombos|
        invariant 0 <= k <= |WinningCombos|
        invariant board[..] == b0[index := O]
        invariant score == 2 * PositionValues[index] + ComboBonus(b0[index := O], index, k)
      {
        var combo := WinningCombos[k];
        if combo.Contains(index) {
          var others := combo.Others(index);
          var ownPieces := CountInOthers(board[..], others, O);
          var opponentPieces := CountInOthers(board[..], others, X);
          score := score + ownPieces * 6;
          if opponentPieces == 1 {
            score := score + 4;
          }
        }
        k := k + 1;
      }
      ComboBonusIgnoresOwnCell(b0, index, O, |WinningCombos|);
      if |queueO| >= MaxPieces - 1 {
        var oldest := queueO[0];
        if oldest < Size && PositionValues[oldest] >= 3 {
          score := score - 4;
        }
      }
      board[index] := originalValue;
      assert board[..] == b0;
    }

    /**
     * The advisor's move for O: complete an O line, else block an X line,
     * else score every empty cell, rank, keep the top tier and pick by
     * `roll`. None where the source fails on an empty top tier. The board
     * is left as it was.
     */
    method GetAIMove(roll: real) returns (move: Option<nat>)
      requires board.Length == Size && 0.0 <= roll < 1.0
      modifies board
      ensures board[..] == old(board[..])
      ensures move == Advise(board[..], queueO, roll)
    {
      TablesWellFormed();
      var k := 0;
      while k < |WinningCombos|
        invariant 0 <= k <= |WinningCombos|
        invariant FindCompletion(board[..], O, k) == FindCompletion(board[..], O, 0)
      {
        var combo := WinningCombos[k];
        if Completes(board[..], combo, O) {
          return Some(EmptyCellOf(board[..], combo));
        }
        k := k + 1;
      }
      k := 0;
      while k < |WinningCombos|
        invariant 0 <= k <= |WinningCombos|
        invariant FindCompletion(board[..], X, k) == FindCompletion(board[..], X, 0)
      {
        var combo := WinningCombos[k];
        if Completes(board[..], combo, X) {
          return Some(EmptyCellOf(board[..], combo));
        }
        k := k + 1;
      }
      move := ScoreMoves(roll);
    }

    /** The scoring stage of GetAIMove. */
    method ScoreMoves(roll: real) returns (move: Option<nat>)
      requires board.Length == Size && 0.0 <= roll < 1.0
      modifies board
      ensures board[..] == old(board[..])
      ensures move == ScoringChoice(board[..], queueO, roll)
    {
      ghost var b0 := board[..];
      var possibleMoves: seq<Candidate> := [];
      var index := 0;
      while index < Size
        invariant 0 <= index <= Size
        invariant board[..] == b0
        invariant possibleMoves == Candidates(b0, queueO, index)
      {
        if board[index] == Empty {
          var moveScore := EvaluateMove(index);
          var boardScore := EvaluateBoard(O);
          possibleMoves := possibleMoves + [Candidate(index, moveScore + boardScore)];
        }
        index := index + 1;
      }
      var ranked := SortByScore(possibleMoves);
      var bestScore := BestScore(ranked);
      var topMoves: seq<Candidate> := [];
      var j := 0;
      while j < |ranked|
        invariant 0 <= j <= |ranked|
        invariant topMoves + TopTier(ranked[j..], bestScore) == TopTier(ranked, bestScore)
      {
        if 10 * ranked[j].score >= 7 * bestScore {
          assert ranked[j..][1..] == ranked[j + 1..];
          topMoves := topMoves + [ranked[j]];
        } else {
          assert topMoves == TopTier(ranked, bestScore);
          break;
        }
        j := j + 1;
      }
      if topMoves == [] {
        return None;
      }
      var randomIndex := RollIndex(roll, Min(3, |topMoves|));
      move := Some(topMoves[randomIndex].index);
    }

    /** Player `p`'s oldest piece leaves the board and the front of its queue. */
    method RemoveOldestPiece(p: Player)
      requires board.Length == Size && |Queue(p)| > 0 && Queue(p)[0] < Size
      modifies this, board
      ensures board == old(board)
      ensures Model() == WithoutOldest(old(Model()), p)
    {
      var oldestMove := Queue(p)[0];
      board[oldestMove] := Empty;
      if p == X {
        queueX := queueX[1..];
      } else {
        queueO := queueO[1..];
      }
    }

    /** The end of a game: play stops and a win is added to the winner's score. */
    method HandleGameEnd(result: Outcome)
      modifies this
      ensures board == old(board)
      ensures Model() == GameEnd(old(Model()), result)
    {
      gameActive := false;
      if result.Draw? {
      } else if result.winner == X {
        scoreX := scoreX + 1;
      } else {
        scoreO := scoreO + 1;
      }
    }

    /**
     * `p` places a piece at empty cell `index`, first removing its oldest
     * piece when it has three on the board.
     */
    method PlacePiece(p: Player, index: nat)
      requires board.Length == Size && index < Size
      requires |Queue(p)| >= MaxPieces ==> Queue(p)[0] < Size
      modifies this, board
      ensures board == old(board)
      ensures Model() == WithPiece(old(Model()), p, index)
    {
      ghost var s0 := Model();
      if |Queue(p)| >= MaxPieces {
        RemoveOldestPiece(p);
      }
      ghost var s1 := Model();
      assert s1 == (if |s0.Queue(p)| >= MaxPieces then WithoutOldest(s0, p) else s0);
      board[index] := p;
      if p == X {
        queueX := queueX + [index];
      } else {
        queueO := queueO + [index];
      }
      assert board[..] == s1.board[index := p];
    }

    /** A click on cell `index`. */
    method HandleClick(index: nat)
      requires Valid() && index < Size
      modifies this, board
      ensures board == old(board) && Valid()
      ensures Model() == Click(old(Model()), index)
    {
      ghost var s0 := Model();
      assert Invariant(Click(s0, index));
      if !gameActive || aiThinking {
        return;
      }
      if board[index] != Empty {
        return;
      }
      var p := currentPlayer;
      PlacePiece(p, index);
      var result := CheckWinner();
      if result.Some? {
        HandleGameEnd(Win(result.value));
        return;
      }
      if aiEnabled && p == X {
        currentPlayer := O;
        aiThinking := true;
      } else {
        currentPlayer := Other(p);
      }
    }

    /**
     * The computer's delayed reply once the advisor has answered `move`:
     * place O's piece, then end the game or hand the turn back to X.
     */
    method PlayReply(move: Option<nat>)
      requires Valid() && PlayableMove(Model(), move)
      modifies this, board
      ensures board == old(board)
      ensures Model() == Reply(old(Model()), move)
    {
      if move.None? {
        return;
      }
      PlacePiece(O, move.value);
      var aiResult := CheckWinner();
      if aiResult.Some? {
        HandleGameEnd(Win(aiResult.value));
      } else {
        currentPlayer := X;
      }
      aiThinking := false;
    }

    /** The computer's delayed reply, with `roll` the random draw it uses. */
    method AiReply(roll: real)
      requires Valid() && 0.0 <= roll < 1.0
      modifies this, board
      ensures board == old(board) && Valid()
      ensures Model() == AiTurn(old(Model()), roll)
    {
      var aiMove := GetAIMove(roll);
      PlayReply(aiMove);
    }

    /** A new game on a fresh board; the scores and the mode are kept. */
    method ResetGame()
      modifies this
      ensures fresh(board) && Valid()
      ensures Model() == Reset(old(Model()))
    {
      ghost var s0 := Model();
      board := new Mark[Size](_ => Empty);
      gameActive := true;
      currentPlayer := X;
      aiThinking := false;
      queueX := [];
      queueO := [];
      assert board[..] == EmptyBoard;
      assert Model() == Reset(s0);
    }

    /** The computer-opponent switch: record the choice, then start a new game. */
    method SetAIMode(enabled: bool)
      modifies this
      ensures fresh(board) && Valid()
      ensures Model() == SetAiMode(old(Model()), enabled)
    {
      aiEnabled := enabled;
      ResetGame();
    }
  }
}
