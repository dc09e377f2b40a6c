# Three-piece tic-tac-toe: rule engine and move advisor

This project models the core of a browser tic-tac-toe game in Dafny. In
this variant each player has at most three pieces on the board. When a
player who already has three pieces places a fourth, that player's oldest
piece is removed first. The game can be played by two people, or X can
play against a computer opponent that plays O.

The model has four modules:

- `Board` (board.dfy): cell marks, the eight winning lines and the
  position-value table. It also holds win detection, and the per-player
  queue of live pieces with the ageing rule that keeps it at three.
- `Advisor` (advisor.dfy): the heuristic that picks O's move. It tries, in
  order:
  1. finish a line of two O's;
  2. block a line of two X's;
  3. score every empty cell, sort the scores, keep the top tier and pick
     one of its first three entries at random.
  `AdvisorExamples` works the advisor out on concrete boards.
- `Engine` (engine.dfy): the whole game state as a value, with its
  transitions:
  - a click;
  - the computer's delayed reply;
  - the end of a game;
  - a reset;
  - the computer-opponent switch.

  It also holds the invariant these transitions keep, and the properties of
  each event.
- `Session` (game.dfy): the game object. The board is a mutable
  `array<Mark>`, and the handlers update the fields in place. Each handler
  is proved to perform the matching `Engine` transition. The scoring
  helpers write O into a cell and restore it, and are proved to leave the
  board as it was.

Behaviours of the code that the model reproduces on purpose:

- The advisor's ageing penalty applies as soon as O has two pieces on the
  board. At that point no piece is removed yet.
- The advisor's win stage counts O's oldest piece as part of the line. With
  three O pieces down, that piece is removed before the new one lands, so
  the "winning" cell may not win (`AdvisorExamples.WinningCellLosesOldest`).
- If the best score is negative, the top tier is empty and the source fails
  while reading the random pick. The model returns `None` in that case.
  - The reply then changes nothing. The "computer is thinking" flag stays
    set, so every later click is ignored until a reset (`Engine.ReplyStuck`).
  - The model does not establish whether a negative best score can arise in
    play.
- The draw branch of the game-end handler is never reached:
  - the winner check never answers "draw";
  - a board that satisfies the invariant has at most six occupied cells, so
    at least three are empty.

On an empty board the centre ranks first, then the corners, then the
edges, and the top tier holds the centre and the four corners. So the
computer's move is cell 4, 0 or 2, depending on the random draw
(`AdvisorExamples.EmptyBoardChoice`).

Modelling choices:

- The random draw `Math.random()` is a parameter `roll` with
  `0 <= roll < 1`.
- The source compares `score >= bestScore * 0.7` in floating point. The
  model uses the integer form `10 * score >= 7 * bestScore`.
- The stable library sort with comparator `b.score - a.score` is a stable
  insertion sort on scores, `Advisor.SortByScore`.

## Model

| member | source | states |
|---|---|---|
| `Board.Other` | js/game.js:36 | the opponent of a player is the other player |
| `Board.Combo.Others` | js/game.js:127 | the two cells of a line other than the given one are exactly the line's cells minus that one |
| `Board.TablesWellFormed` | js/game.js:20-31 | eight lines of three distinct on-board cells; nine position values between 2 and 4 with the centre strictly highest |
| `Board.WinnerFrom` | js/game.js:93-100 | scanning lines from position k yields a mark exactly when some later line is complete, and then the mark of the first complete one |
| `Board.CheckWinner` | js/game.js:92-101 | a winner exists exactly when some line holds three equal marks; it is the mark of the first such line in table order, and never a draw |
| `Board.DropOldest` | js/game.js:82-90 | removing the oldest piece clears the cell at the head of the queue, leaves every other cell as it was, and shifts the queue on by one |
| `Board.DropOldestKeepsQueues` | js/game.js:82-90 | removing the oldest piece clears its cell, drops it from the queue, keeps both queues in step with the board and changes no other cell |
| `Board.Place` | js/game.js:216-226 | a placement keeps the board at nine cells; its effect is stated by `PlaceAgesOldest` and `PlaceBelowCap` |
| `Board.PlaceKeepsQueues` | js/game.js:216-226 | placing on an empty cell keeps both players' queues distinct, at most three long and exactly the cells holding their marks |
| `Board.PlaceAgesOldest` | js/game.js:216-219 | at three pieces the head of the queue is cleared and the new cell appended (first in, first out); every other cell is unchanged |
| `Board.PlaceBelowCap` | js/game.js:221-226 | below three pieces a placement only adds the new piece |
| `Board.PlaceOnlyMoverWins` | js/game.js:229-233 | from a board with no winner, after a placement the only possible winner is the mover |
| `Board.EmptyCellsRemain` | js/game.js:309-313 | with queues in step with the board at most six cells are occupied, so an empty cell always exists and the board never fills |
| `Advisor.ComboBonusNonNegative` | js/game.js:125-137 | the line bonuses of a move are never negative |
| `Advisor.ComboBonusIgnoresOwnCell` | js/game.js:118-148 | a move's score does not depend on what its own cell holds, so writing O there and restoring it changes nothing |
| `Advisor.MoveScore` | js/game.js:112-150 | the score of O taking a cell: twice its position value, plus the line bonuses with O written into the cell, minus the ageing penalty; it is at least twice the position value minus 4 and never negative |
| `Advisor.CompletesHasEmptyCell` | js/game.js:160-161 | the cell taken for a completable line is its empty cell |
| `Advisor.FindCompletion` | js/game.js:154-163 | a cell is returned exactly when some line holds two of the player's marks and one empty cell; it is the empty cell of the first such line |
| `Advisor.FindCompletionIsEmptyCell` | js/game.js:160-161 | the completing cell is on the board and empty |
| `Advisor.QuietLineHasNoThreat` | js/game.js:39-47 | a line that is neither complete nor completable by either player adds no threat score |
| `Advisor.ThreatScoreVanishes` | js/game.js:39-47 | on a board where neither player can complete a line, the threat part of the board value is zero |
| `Advisor.EvaluateBoard` | js/game.js:34-59 | the static value of a board for a player: +10 per line with two of the player's marks and none of the opponent's, -8 per line the other way round, plus the position values of the player's cells minus the opponent's; its value in the scoring stage is stated by `EvaluateBoardInScoringPath` |
| `Advisor.EvaluateBoardInScoringPath` | js/game.js:34-59 | on a board where neither player can complete a line, the board value is O's position values minus X's |
| `Advisor.Candidates` | js/game.js:177-187 | the candidates are empty cells in ascending order, each scored as its move score plus the board value for O |
| `Advisor.CandidatesComplete` | js/game.js:179-186 | every empty cell appears among the candidates |
| `Advisor.InsertByScore` | js/game.js:190 | inserts an entry before the first entry that scores less; the result is one entry longer |
| `Advisor.SortByScore` | js/game.js:190 | sorts the candidates by descending score, keeping the order of equal scores; the result has the input's length |
| `Advisor.InsertByScorePermutes` | js/game.js:190 | inserting into the ranking adds exactly that entry |
| `Advisor.SortByScorePermutes` | js/game.js:190 | the sort is a permutation of its input |
| `Advisor.InsertKeepsRanked` | js/game.js:190 | inserting an entry with a larger cell index after equal scores keeps descending scores with ties in ascending cell order |
| `Advisor.SortByScoreRanked` | js/game.js:190 | sorting the candidates yields descending scores with ties in ascending cell order |
| `Advisor.TopTier` | js/game.js:193-203 | the top tier is a prefix of the ranking, and every entry in it passes the 70% test |
| `Advisor.TopTierIsLongest` | js/game.js:193-203 | the prefix is the longest one that passes: the entry right after it fails the test |
| `Advisor.RollIndex` | js/game.js:206 | the random pick indexes one of the first min(3, tier length) entries |
| `Advisor.ScoringChoice` | js/game.js:177-207 | the scoring stage: rank the candidates, keep the top tier, pick by the roll among its first three entries; a pick is always an empty cell of the board |
| `Advisor.ScoringChoiceInTier` | js/game.js:193-207 | there is no pick exactly when the ranking is empty or the best score is negative; otherwise the pick is one of the first three ranked entries, and it passes the 70% test |
| `Advisor.RankingIsEmptyCells` | js/game.js:177-190 | every ranked entry is an empty cell of the board |
| `Advisor.Advise` | js/game.js:152-208 | O's move: complete an O line, else block an X line, else the scoring stage; whatever stage decides, the move is an empty cell of the board |
| `Advisor.AdviseTakesWin` | js/game.js:152-163 | a line O can complete wins over everything: the move is its empty cell |
| `Advisor.AdviseBlocks` | js/game.js:165-175 | with nothing for O to complete, a line X can complete is blocked |
| `Advisor.AdviseScoring` | js/game.js:177-207 | in the scoring stage with an empty cell, the ranking is non-empty and ordered, and the advisor gives no move exactly when the best score is negative |
| `AdvisorExamples.TakesWinningCell` | js/game.js:154-163 | two O's in the top row: O takes cell 2 |
| `AdvisorExamples.BlocksOpponent` | js/game.js:166-175 | two X's in the top row: O blocks at cell 2 |
| `AdvisorExamples.WinningCellLosesOldest` | js/game.js:154-163 | O holding 0, 1 and 5 (oldest first) takes cell 2 to finish the top row, yet once cell 0 is cleared no line is complete |
| `AdvisorExamples.EmptyBoardCandidates` | js/game.js:177-187 | on an empty board every cell is a candidate scored twice its position value |
| `AdvisorExamples.RankEmptyBoard` | js/game.js:190 | the empty board ranks the centre, then the corners, then the edges, each group in cell order |
| `AdvisorExamples.EmptyBoardNothingToComplete` | js/game.js:154-175 | the empty board has nothing to complete or block |
| `AdvisorExamples.EmptyBoardTier` | js/game.js:193-203 | the empty board's top tier is the centre and the four corners |
| `AdvisorExamples.RollOfThree` | js/game.js:206 | with a tier of three or more, the pick is entry 0, 1 or 2 by thirds of the roll |
| `AdvisorExamples.EmptyBoardChoice` | js/game.js:152-208 | on an empty board the computer takes cell 4, 0 or 2 by thirds of the roll |
| `Engine.Initial` | js/game.js:11-18 | the page-load state satisfies the invariant: empty board, X to move, two-player mode, scores 0:0 |
| `Engine.Reset` | js/game.js:326-339 | a reset empties the board and queues, gives X the move, clears the pending reply, keeps the scores and the mode, and satisfies the invariant |
| `Engine.SetAiMode` | js/game.js:342-345 | the mode switch records the new mode and is a reset otherwise |
| `Engine.GameEnd` | js/game.js:309-318 | the game stops; a win adds one to the winner's score only; a draw changes no score; nothing else changes |
| `Engine.Invariant` | js/game.js:11-18 | the state the handlers keep: a nine-cell board, each queue distinct, at most three long and exactly the cells holding that player's mark, and no complete line while the game runs |
| `Engine.WithoutOldest` | js/game.js:82-90 | the player's oldest cell is cleared and the player's queue moves on by one; the other queue, every other cell and every other field are unchanged |
| `Engine.WithPiece` | js/game.js:216-226 | the player's piece lands on the cell and ends the player's queue; the opponent's queue and every field other than the board and that queue are unchanged |
| `Engine.WithPieceKeepsQueues` | js/game.js:222-226 | a placement keeps both queues in step with the board and leaves the opponent's queue unchanged |
| `Engine.NextToRemove` | js/game.js:75-79 | a cell is flagged exactly when the player to move has three pieces down; under the invariant it is on the board and holds that player's piece |
| `Engine.Click` | js/game.js:210-273 | a click: ignored when blocked, else placement, then game end on a complete line, else the turn passes (to the pending computer reply against the computer); the result satisfies the invariant |
| `Engine.Reply` | js/game.js:242-267 | the computer's reply with the advisor's answer: nothing without a move, else placement, then game end or X to move, with the pending mark cleared; the result satisfies the invariant |
| `Engine.AiTurn` | js/game.js:242-267 | the reply with the advisor's own pick for the roll; the result satisfies the invariant |
| `Engine.NeverFull` | js/game.js:309-313 | every state satisfying the invariant has at most six occupied cells, so an empty cell exists |
| `Engine.ClickGuarded` | js/game.js:211-214 | a click changes the state exactly when the game is running, no reply is pending and the cell is empty |
| `Engine.ClickAgesOldest` | js/game.js:216-226 | at three pieces a click clears the mover's oldest cell, moves its queue on by one, places the new piece, and leaves every other cell and the opponent's queue alone |
| `Engine.NextToRemoveIsCleared` | js/game.js:75-79 | the cell flagged as next to go is the one the next placement clears |
| `Engine.ClickBelowCap` | js/game.js:221-226 | below three pieces a click only adds the new piece |
| `Engine.ClickWinEndsGame` | js/game.js:229-233 | a click that completes a line ends the game with the mover as winner, adds one to the mover's score and leaves the other score |
| `Engine.ClickTurnOrder` | js/game.js:235-272 | without a win the game keeps running; against the computer X's move passes the turn to O with the reply pending, otherwise the turn passes to the other player |
| `Engine.ReplyPlaces` | js/game.js:243-265 | the computer's piece lands on the chosen cell, X's queue is untouched and the reply is no longer pending |
| `Engine.ReplyOutcome` | js/game.js:255-262 | after the reply either a complete line ends the game, and in a running game it is O's with O's score up by one, or X is to move |
| `Engine.ReplyStuck` | js/game.js:206-207 | with no move the reply changes nothing and every later click is ignored |
| `Engine.ClickNeverDraws` | js/game.js:309-318 | a click that stops a running game adds exactly one to the total score: a game never ends in a draw |
| `Session.Game.constructor` | js/game.js:11-18 | the new object stands for the page-load state |
| `Session.Game.CheckWinner` | js/game.js:92-101 | the loop over the lines returns the winner of the array's contents |
| `Session.Game.EvaluateBoard` | js/game.js:34-59 | the two loops compute the board value for the player |
| `Session.Game.EvaluateMove` | js/game.js:112-150 | returns the move score of O at the cell and leaves the board as it was after writing O into it |
| `Session.Game.GetAIMove` | js/game.js:152-208 | returns the advisor's move and leaves the board as it was |
| `Session.Game.ScoreMoves` | js/game.js:177-207 | collects, sorts and cuts the candidates and returns the scoring stage's pick |
| `Session.Game.RemoveOldestPiece` | js/game.js:82-90 | clears the oldest cell of the player and drops it from that player's queue; nothing else changes |
| `Session.Game.HandleGameEnd` | js/game.js:309-318 | performs the game-end transition |
| `Session.Game.PlacePiece` | js/game.js:216-226 | performs the placement, with ageing at the cap |
| `Session.Game.HandleClick` | js/game.js:210-273 | performs the click transition and keeps the invariant |
| `Session.Game.PlayReply` | js/game.js:244-265 | performs the reply transition for the advisor's answer: nothing without a move, otherwise placement, then game end or X to move |
| `Session.Game.AiReply` | js/game.js:242-267 | performs the computer's reply with the advisor's move and keeps the invariant |
| `Session.Game.ResetGame` | js/game.js:326-339 | installs a fresh empty board and performs the reset transition |
| `Session.Game.SetAIMode` | js/game.js:342-345 | records the mode and resets |

## Left out

- The page itself is not modelled: text and classes on cells, the status
  line, the "thinking" indicator, the removal marker and the highlighting
  of the winning line. The indicator's choice of cell is modelled
  (`Engine.NextToRemove`); its drawing is not.
- The confetti celebration, `Date.now` and animation frames are not
  modelled. They do not affect the game state.
- The 500 ms timer is not modelled. The computer's reply is a separate
  event (`Engine.AiTurn`, `Session.Game.AiReply`) that may follow any other
  event. The model does not capture how real time orders it against clicks
  and resets.
- Event wiring is not modelled. Clicks reach `HandleClick` only with indices
  0 to 8, which is the model's requirement on `index`.
- Floating point is not modelled. The 70% test is taken as the integer
  comparison `10 * score >= 7 * best`. For integer scores the two agree
  whenever a score does not exceed the best, which is always the case for
  sorted candidates.
- `Math.random` is a parameter `roll`. Its distribution is not modelled.
- The exception itself is not modelled. Where the source throws on an
  empty top tier, the scoring stage (`Advisor.ScoringChoice`) answers
  `None`. The model then runs nothing that comes after that point in the
  source.
