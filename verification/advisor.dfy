/**
 * The move advisor: the heuristic that picks O's move. In strict priority
 * order it completes a line of two O's, blocks a line of two X's, or
 * scores every empty cell and picks among the best.
 */
module Advisor {
  import opened Board

  /** A scored empty cell (the source's `{ index, score }`). */
  datatype Candidate = Candidate(index: nat, score: int)

  function Is(x: Mark, m: Mark): nat { if x == m then 1 else 0 }

  /** How many cells of `c` hold `m` (the source's `boardPositions.filter(...).length`). */
  function CountInCombo(b: seq<Mark>, c: Combo, m: Mark): nat
    requires |b| == Size && WellFormed(c)
  {
    Is(b[c.a], m) + Is(b[c.b], m) + Is(b[c.c], m)
  }

  /** How many of the two cells `others` hold `m` (the source's `others.filter(...).length`). */
  function CountInOthers(b: seq<Mark>, others: seq<nat>, m: Mark): nat
    requires |b| == Size && |others| == 2 && others[0] < Size && others[1] < Size
  {
    Is(b[others[0]], m) + Is(b[others[1]], m)
  }

  // ---------------------------------------------------------------------
  // Board evaluation (the source's evaluateBoard)
  // ---------------------------------------------------------------------

  /** +10 for a line where `p` has two and the opponent none, -8 for the reverse. */
  function LineThreat(b: seq<Mark>, p: Player, c: Combo): int
    requires |b| == Size && WellFormed(c)
  {
    var own := CountInCombo(b, c, p);
    var opp := CountInCombo(b, c, Other(p));
    (if own == 2 && opp == 0 then 10 else 0) + (if opp == 2 && own == 0 then -8 else 0)
  }

  /** Sum of LineThreat over the first `n` winning combos. */
  function ThreatScore(b: seq<Mark>, p: Player, n: nat): int
    requires |b| == Size && n <= 8
  {
    TablesWellFormed();
    if n == 0 then 0 else ThreatScore(b, p, n - 1) + LineThreat(b, p, WinningCombos[n - 1])
  }

  /** Position value of each of the first `n` cells: added for `p`, subtracted for the opponent. */
  function PositionScore(b: seq<Mark>, p: Player, n: nat): int
    requires |b| == Size && n <= Size
  {
    if n == 0 then 0
    else PositionScore(b, p, n - 1)
         + (if b[n - 1] == p then PositionValues[n - 1]
            else if b[n - 1] == Other(p) then -PositionValues[n - 1]
            else 0)
  }

  /** The static value of board `b` for player `p`. */
  function EvaluateBoard(b: seq<Mark>, p: Player): int
    requires |b| == Size
  {
    ThreatScore(b, p, 8) + PositionScore(b, p, Size)
  }

  // ---------------------------------------------------------------------
  // Move evaluation (the source's evaluateMove)
  // ---------------------------------------------------------------------

  /**
   * For a combo through cell `i`: 6 per O among the two other cells, and 4
   * more when exactly one of them is X.
   */
  function LineBonus(b: seq<Mark>, i: nat, c: Combo): int
    requires |b| == Size && WellFormed(c) && c.Contains(i)
  {
    var others := c.Others(i);
    6 * CountInOthers(b, others, O) + (if CountInOthers(b, others, X) == 1 then 4 else 0)
  }

  /** Sum of LineBonus over those of the first `n` combos that pass through `i`. */
  function ComboBonus(b: seq<Mark>, i: nat, n: nat): int
    requires |b| == Size && n <= 8
  {
    TablesWellFormed();
    if n == 0 then 0
    else ComboBonus(b, i, n - 1)
         + (if WinningCombos[n - 1].Contains(i) then LineBonus(b, i, WinningCombos[n - 1]) else 0)
  }

  /**
   * 4 when O already has at least two pieces and its oldest one stands on a
   * cell worth 3 or more. An index off the board has no position value in
   * the source, so it never triggers the penalty.
   */
  function AgingPenalty(qo: seq<nat>): int
  {
    if |qo| >= MaxPieces - 1 && qo[0] < Size && PositionValues[qo[0]] >= 3 then 4 else 0
  }

  /**
   * The score of O playing cell `i`, without the board term: never below
   * twice the cell's position value less the ageing penalty, hence never
   * negative.
   */
  function MoveScore(b: seq<Mark>, qo: seq<nat>, i: nat): (r: int)
    requires |b| == Size && i < Size
    ensures r >= 2 * PositionValues[i] - 4 && r >= 0
  {
    ComboBonusNonNegative(b, i, 8);
    TablesWellFormed();
    2 * PositionValues[i] + ComboBonus(b, i, 8) - AgingPenalty(qo)
  }

  /** Combo bonuses are never negative. */
  lemma {:induction false} ComboBonusNonNegative(b: seq<Mark>, i: nat, n: nat)
    requires |b| == Size && n <= 8
    ensures ComboBonus(b, i, n) >= 0
  {
    if n > 0 {
      ComboBonusNonNegative(b, i, n - 1);
    }
  }

  /**
   * The score of a move never depends on what cell `i` itself holds: only
   * the two other cells of each combo are counted. This is why writing O
   * into `i` while scoring it, and restoring it afterwards, has no effect
   * on the result.
   */
  lemma {:induction false} ComboBonusIgnoresOwnCell(b: seq<Mark>, i: nat, m: Mark, n: nat)
    requires |b| == Size && i < Size && n <= 8
    ensures ComboBonus(b[i := m], i, n) == ComboBonus(b, i, n)
  {
    TablesWellFormed();
    if n > 0 {
      ComboBonusIgnoresOwnCell(b, i, m, n - 1);
      var c := WinningCombos[n - 1];
      if c.Contains(i) {
        var others := c.Others(i);
        assert b[i := m][others[0]] == b[others[0]] && b[i := m][others[1]] == b[others[1]];
      }
    }
  }

  // ---------------------------------------------------------------------
  // Immediate win and immediate block
  // ---------------------------------------------------------------------

  /** Combo `c` holds two of `p`'s marks and one empty cell. */
  predicate Completes(b: seq<Mark>, c: Combo, p: Player)
    requires |b| == Size && WellFormed(c)
  {
    CountInCombo(b, c, p) == 2 && CountInCombo(b, c, Empty) == 1
  }

  /** The first empty cell of `c` (the source's `combo[boardPositions.indexOf('')]`). */
  function EmptyCellOf(b: seq<Mark>, c: Combo): nat
    requires |b| == Size && WellFormed(c)
  {
    if b[c.a] == Empty then c.a else if b[c.b] == Empty then c.b else c.c
  }

  lemma CompletesHasEmptyCell(b: seq<Mark>, c: Combo, p: Player)
    requires |b| == Size && WellFormed(c) && Completes(b, c, p)
    ensures EmptyCellOf(b, c) < Size && b[EmptyCellOf(b, c)] == Empty
  {
  }

  /**
   * The empty cell of the first combo from position `k` on that `p` can
   * complete, or None when there is none.
   */
  function FindCompletion(b: seq<Mark>, p: Player, k: nat): (r: Option<nat>)
    requires |b| == Size && k <= 8
    ensures r.Some? <==> exists j :: k <= j < 8 && Completes(b, WinningCombos[j], p)
    ensures r.Some? ==> exists j :: (k <= j < 8 && Completes(b, WinningCombos[j], p)
                                     && r.value == EmptyCellOf(b, WinningCombos[j])
                                     && forall i :: k <= i < j ==> !Completes(b, WinningCombos[i], p))
    decreases 8 - k
  {
    TablesWellFormed();
    if k == 8 then None
    else if Completes(b, WinningCombos[k], p) then Some(EmptyCellOf(b, WinningCombos[k]))
    else FindCompletion(b, p, k + 1)
  }

  /** The cell returned for a completable line is an empty cell of the board. */
  lemma FindCompletionIsEmptyCell(b: seq<Mark>, p: Player, k: nat)
    requires |b| == Size && k <= 8
    ensures FindCompletion(b, p, k).Some? ==>
              FindCompletion(b, p, k).value < Size && b[FindCompletion(b, p, k).value] == Empty
  {
    var r := FindCompletion(b, p, k);
    if r.Some? {
      TablesWellFormed();
      var j :| k <= j < 8 && Completes(b, WinningCombos[j], p) && r.value == EmptyCellOf(b, WinningCombos[j]);
      CompletesHasEmptyCell(b, WinningCombos[j], p);
    }
  }

  /**
   * A line that neither player can complete adds no threat score: two
   * marks of one player and none of the other leave the third cell empty.
   */
  lemma QuietLineHasNoThreat(b: seq<Mark>, c: Combo)
    requires |b| == Size && WellFormed(c)
    requires !Completes(b, c, O) && !Completes(b, c, X)
    ensures LineThreat(b, O, c) == 0
  {
  }

  /**
   * Where the scoring path is reached (nothing to complete and nothing to
   * block), no line has two of one player and none of the other, so the
   * threat part of the board value is zero.
   */
  lemma {:induction false} ThreatScoreVanishes(b: seq<Mark>, n: nat)
    requires |b| == Size && n <= 8
    requires FindCompletion(b, O, 0) == None && FindCompletion(b, X, 0) == None
    ensures ThreatScore(b, O, n) == 0
  {
    TablesWellFormed();
    if n > 0 {
      ThreatScoreVanishes(b, n - 1);
      var c := WinningCombos[n - 1];
      assert !Completes(b, c, O) && !Completes(b, c, X);
      QuietLineHasNoThreat(b, c);
    }
  }

  /** In the scoring path the board value is O's position values minus X's. */
  lemma EvaluateBoardInScoringPath(b: seq<Mark>)
    requires |b| == Size
    requires FindCompletion(b, O, 0) == None && FindCompletion(b, X, 0) == None
    ensures EvaluateBoard(b, O) == PositionScore(b, O, Size)
  {
    ThreatScoreVanishes(b, 8);
  }

  // ---------------------------------------------------------------------
  // Scoring every empty cell, ranking, top tier
  // ---------------------------------------------------------------------

  /**
   * The empty cells among the first `n`, in ascending order, each scored
   * as its move score plus the board term of the unchanged board.
   */
  function Candidates(b: seq<Mark>, qo: seq<nat>, n: nat): (r: seq<Candidate>)
    requires |b| == Size && n <= Size
    ensures forall j :: 0 <= j < |r| ==> r[j].index < n && b[r[j].index] == Empty
    ensures forall j :: 0 <= j < |r| ==> r[j].score == MoveScore(b, qo, r[j].index) + EvaluateBoard(b, O)
    ensures forall i, j :: 0 <= i < j < |r| ==> r[i].index < r[j].index
  {
    if n == 0 then []
    else
      var rest := Candidates(b, qo, n - 1);
      if b[n - 1] == Empty then rest + [Candidate(n - 1, MoveScore(b, qo, n - 1) + EvaluateBoard(b, O))]
      else rest
  }

  /** Every empty cell among the first `n` appears as a candidate. */
  lemma {:induction false} CandidatesComplete(b: seq<Mark>, qo: seq<nat>, n: nat, c: nat)
    requires |b| == Size && n <= Size
    requires c < n && b[c] == Empty
    ensures Candidate(c, MoveScore(b, qo, c) + EvaluateBoard(b, O)) in Candidates(b, qo, n)
  {
    if c < n - 1 {
      CandidatesComplete(b, qo, n - 1, c);
    }
  }

  /**
   * Stable insertion of `c` into a list kept in descending score order:
   * `c` goes after every entry whose score is at least its own.
   */
  function InsertByScore(c: Candidate, s: seq<Candidate>): (r: seq<Candidate>)
    ensures |r| == |s| + 1
  {
    if s == [] then [c]
    else if s[0].score >= c.score then [s[0]] + InsertByScore(c, s[1..])
    else [c] + s
  }

  lemma {:induction false} InsertByScorePermutes(c: Candidate, s: seq<Candidate>)
    ensures multiset(InsertByScore(c, s)) == multiset(s) + multiset{c}
  {
    if s != [] && s[0].score >= c.score {
      InsertByScorePermutes(c, s[1..]);
      assert s == [s[0]] + s[1..];
    }
  }

  /**
   * The library's stable sort with comparator `b.score - a.score`:
   * descending by score, entries with equal scores kept in input order.
   */
  function SortByScore(s: seq<Candidate>): (r: seq<Candidate>)
    ensures |r| == |s|
  {
    if s == [] then []
    else InsertByScore(s[|s| - 1], SortByScore(s[..|s| - 1]))
  }

  /** The sort is a permutation of its input. */
  lemma {:induction false} SortByScorePermutes(s: seq<Candidate>)
    ensures multiset(SortByScore(s)) == multiset(s)
  {
    if s != [] {
      SortByScorePermutes(s[..|s| - 1]);
      InsertByScorePermutes(s[|s| - 1], SortByScore(s[..|s| - 1]));
      assert s == s[..|s| - 1] + [s[|s| - 1]];
    }
  }

  /** Higher score first; on equal scores, the lower cell first. */
  predicate Before(x: Candidate, y: Candidate) {
    x.score > y.score || (x.score == y.score && x.index < y.index)
  }

  predicate Ranked(s: seq<Candidate>) {
    forall i, j :: 0 <= i < j < |s| ==> Before(s[i], s[j])
  }

  lemma {:induction false} InsertKeepsRanked(c: Candidate, s: seq<Candidate>)
    requires Ranked(s)
    requires forall j :: 0 <= j < |s| ==> s[j].index < c.index
    ensures Ranked(InsertByScore(c, s))
  {
    if s == [] {
    } else if s[0].score >= c.score {
      var rest := s[1..];
      InsertKeepsRanked(c, rest);
      var t := InsertByScore(c, rest);
      InsertByScorePermutes(c, rest);
      forall j | 0 <= j < |t|
        ensures Before(s[0], t[j])
      {
        assert t[j] in multiset(t);
        if t[j] != c {
          assert t[j] in multiset(rest);
          var k :| 0 <= k < |rest| && rest[k] == t[j];
          assert Before(s[0], s[k + 1]);
        }
      }
      var r := [s[0]] + t;
      assert InsertByScore(c, s) == r;
      forall i, j | 0 <= i < j < |r|
        ensures Before(r[i], r[j])
      {
        if i > 0 {
          assert Before(t[i - 1], t[j - 1]);
        }
      }
    } else {
      var r := [c] + s;
      forall i, j | 0 <= i < j < |r|
        ensures Before(r[i], r[j])
      {
        if i == 0 && j > 1 {
          assert Before(s[0], s[j - 1]);
        }
      }
    }
  }

  /**
   * On input in ascending cell order (as Candidates produces it), the
   * stable sort yields descending scores with ties in ascending cell order.
   */
  lemma {:induction false} SortByScoreRanked(s: seq<Candidate>)
    requires forall i, j :: 0 <= i < j < |s| ==> s[i].index < s[j].index
    ensures Ranked(SortByScore(s))
  {
    if s != [] {
      var init := s[..|s| - 1];
      SortByScoreRanked(init);
      var t := SortByScore(init);
      SortByScorePermutes(init);
      forall j | 0 <= j < |t|
        ensures t[j].index < s[|s| - 1].index
      {
        assert t[j] in multiset(t);
        assert t[j] in init;
      }
      InsertKeepsRanked(s[|s| - 1], t);
    }
  }

  /**
   * The longest prefix of `s` whose scores pass the 70% test. The source
   * compares `score >= bestScore * 0.7` in floating point; with integer
   * scores no larger than `bestScore` this is `10 * score >= 7 * bestScore`.
   */
  function TopTier(s: seq<Candidate>, best: int): (t: seq<Candidate>)
    ensures |t| <= |s| && t == s[..|t|]
    ensures forall j :: 0 <= j < |t| ==> 10 * t[j].score >= 7 * best
  {
    if s == [] || 10 * s[0].score < 7 * best then []
    else [s[0]] + TopTier(s[1..], best)
  }

  /** The tier is the longest passing prefix: the entry right after it fails the test. */
  lemma {:induction false} TopTierIsLongest(s: seq<Candidate>, best: int)
    ensures |TopTier(s, best)| < |s| ==> 10 * s[|TopTier(s, best)|].score < 7 * best
  {
    if s != [] && 10 * s[0].score >= 7 * best {
      TopTierIsLongest(s[1..], best);
    }
  }

  /** The source's `possibleMoves[0]?.score || 0`. */
  function BestScore(ranked: seq<Candidate>): int
  {
    if ranked == [] then 0 else ranked[0].score
  }

  /** `Math.floor(roll * m)` for a random `roll` in [0, 1). */
  function RollIndex(roll: real, m: nat): (r: nat)
    requires 0.0 <= roll < 1.0 && 1 <= m <= 3
    ensures r < m
  {
    var f := (roll * (m as real)).Floor;
    assert 0.0 <= roll * (m as real) < m as real by {
      if m == 1 { } else if m == 2 { } else { }
    }
    f as nat
  }

  function Min(a: nat, b: nat): nat { if a < b then a else b }

  /** The ranked candidate list the scoring path works on. */
  function Ranking(b: seq<Mark>, qo: seq<nat>): seq<Candidate>
    requires |b| == Size
  {
    SortByScore(Candidates(b, qo, Size))
  }

  /**
   * The scoring stage: rank every empty cell, keep the top tier, pick
   * entry `Floor(roll * min(3, |tier|))` of it. None where the source reads
   * an entry of an empty tier and fails. A pick is always an empty cell.
   */
  function ScoringChoice(b: seq<Mark>, qo: seq<nat>, roll: real): (r: Option<nat>)
    requires |b| == Size && 0.0 <= roll < 1.0
    ensures r.Some? ==> r.value < Size && b[r.value] == Empty
  {
    RankingIsEmptyCells(b, qo);
    var ranked := Ranking(b, qo);
    var tier := TopTier(ranked, BestScore(ranked));
    if tier == [] then None
    else Some(tier[RollIndex(roll, Min(3, |tier|))].index)
  }

  /**
   * O's move on board `b` with O's queue `qo`: win, else block, else score.
   * Whatever stage decides, the move is an empty cell of the board.
   */
  function Advise(b: seq<Mark>, qo: seq<nat>, roll: real): (r: Option<nat>)
    requires |b| == Size && 0.0 <= roll < 1.0
    ensures r.Some? ==> r.value < Size && b[r.value] == Empty
  {
    FindCompletionIsEmptyCell(b, O, 0);
    FindCompletionIsEmptyCell(b, X, 0);
    match FindCompletion(b, O, 0)
    case Some(c) => Some(c)
    case None =>
      match FindCompletion(b, X, 0)
      case Some(c) => Some(c)
      case None => ScoringChoice(b, qo, roll)
  }

  /**
   * The scoring stage picks one of the first three entries of the ranking,
   * and that entry passes the 70% test; there is no pick exactly when the
   * ranking is empty or the best score is negative.
   */
  lemma ScoringChoiceInTier(b: seq<Mark>, qo: seq<nat>, roll: real)
    requires |b| == Size && 0.0 <= roll < 1.0
    ensures ScoringChoice(b, qo, roll).None? <==> Ranking(b, qo) == [] || BestScore(Ranking(b, qo)) < 0
    ensures ScoringChoice(b, qo, roll).Some? ==>
              exists r :: (0 <= r < 3 && r < |Ranking(b, qo)|
                           && Ranking(b, qo)[r].index == ScoringChoice(b, qo, roll).value
                           && 10 * Ranking(b, qo)[r].score >= 7 * BestScore(Ranking(b, qo)))
  {
    var ranked := Ranking(b, qo);
    var best := BestScore(ranked);
    var tier := TopTier(ranked, best);
    if tier != [] {
      var r := RollIndex(roll, Min(3, |tier|));
      assert tier[r] == ranked[r];
    }
  }

  /** Every entry of the ranking is an empty cell of the board. */
  lemma RankingIsEmptyCells(b: seq<Mark>, qo: seq<nat>)
    requires |b| == Size
    ensures forall j :: 0 <= j < |Ranking(b, qo)| ==>
              Ranking(b, qo)[j].index < Size && b[Ranking(b, qo)[j].index] == Empty
  {
    var cands := Candidates(b, qo, Size);
    SortByScorePermutes(cands);
    forall j | 0 <= j < |Ranking(b, qo)|
      ensures Ranking(b, qo)[j].index < Size && b[Ranking(b, qo)[j].index] == Empty
    {
      assert Ranking(b, qo)[j] in multiset(cands);
    }
  }

  /** A line O can complete takes priority over everything else. */
  lemma AdviseTakesWin(b: seq<Mark>, qo: seq<nat>, roll: real)
    requires |b| == Size && 0.0 <= roll < 1.0
    requires exists j :: 0 <= j < 8 && Completes(b, WinningCombos[j], O)
    ensures Advise(b, qo, roll) == FindCompletion(b, O, 0)
  {
    assert FindCompletion(b, O, 0).Some?;
  }

  /** With no O line to complete, a line X could complete is blocked. */
  lemma AdviseBlocks(b: seq<Mark>, qo: seq<nat>, roll: real)
    requires |b| == Size && 0.0 <= roll < 1.0
    requires forall j :: 0 <= j < 8 ==> !Completes(b, WinningCombos[j], O)
    requires exists j :: 0 <= j < 8 && Completes(b, WinningCombos[j], X)
    ensures Advise(b, qo, roll) == FindCompletion(b, X, 0)
  {
    assert FindCompletion(b, O, 0).None?;
    assert FindCompletion(b, X, 0).Some?;
  }

  /**
   * In the scoring path with an empty cell on the board, the ranking is
   * non-empty and ordered by descending score with ties in ascending cell
   * order, and the advisor fails to move exactly when the best score is
   * negative.
   */
  lemma AdviseScoring(b: seq<Mark>, qo: seq<nat>, roll: real)
    requires |b| == Size && 0.0 <= roll < 1.0
    requires FindCompletion(b, O, 0) == None && FindCompletion(b, X, 0) == None
    requires exists c :: 0 <= c < Size && b[c] == Empty
    ensures Ranked(Ranking(b, qo))
    ensures |Ranking(b, qo)| > 0
    ensures Advise(b, qo, roll) == ScoringChoice(b, qo, roll)
    ensures Advise(b, qo, roll).None? <==> BestScore(Ranking(b, qo)) < 0
  {
    var cands := Candidates(b, qo, Size);
    SortByScoreRanked(cands);
    var c :| 0 <= c < Size && b[c] == Empty;
    CandidatesComplete(b, qo, Size, c);
    SortByScorePermutes(cands);
    assert |multiset(Ranking(b, qo))| == |multiset(cands)|;
    ScoringChoiceInTier(b, qo, roll);
  }
}

module AdvisorExamples {
  import opened Board
  import opened Advisor

  /** Two O's on the top row with the third cell free: O takes cell 2. */
  lemma TakesWinningCell(roll: real)
    requires 0.0 <= roll < 1.0
    ensures Advise([O, O, Empty, Empty, Empty, Empty, Empty, Empty, Empty], [0, 1], roll) == Some(2)
  {
    var b := [O, O, Empty, Empty, Empty, Empty, Empty, Empty, Empty];
    assert Completes(b, WinningCombos[0], O);
  }

  /** Two X's on the top row and no O line to finish: O blocks at cell 2. */
  lemma BlocksOpponent(roll: real)
    requires 0.0 <= roll < 1.0
    ensures Advise([X, X, Empty, Empty, Empty, Empty, Empty, Empty, Empty], [], roll) == Some(2)
  {
    var b := [X, X, Empty, Empty, Empty, Empty, Empty, Empty, Empty];
    TablesWellFormed();
    forall j | 0 <= j < 8
      ensures !Completes(b, WinningCombos[j], O)
    {
      assert CountInCombo(b, WinningCombos[j], O) == 0;
    }
    assert FindCompletion(b, O, 0) == None;
    assert Completes(b, WinningCombos[0], X);
  }

  /**
   * The win stage counts O's oldest piece as part of the line although
   * placing the third piece removes it: here O holds 0, 1 and 5 (oldest
   * first), the advisor takes cell 2 to finish the top row, and once cell
   * 0 is cleared no line is complete.
   */
  lemma WinningCellLosesOldest(roll: real)
    requires 0.0 <= roll < 1.0
    ensures Advise([O, O, Empty, X, X, O, X, Empty, Empty], [0, 1, 5], roll) == Some(2)
    ensures Place([O, O, Empty, X, X, O, X, Empty, Empty], [0, 1, 5], O, 2).0
            == [Empty, O, O, X, X, O, X, Empty, Empty]
    ensures CheckWinner([Empty, O, O, X, X, O, X, Empty, Empty]) == None
  {
    var b := [O, O, Empty, X, X, O, X, Empty, Empty];
    assert Completes(b, WinningCombos[0], O);
    var after := [Empty, O, O, X, X, O, X, Empty, Empty];
    TablesWellFormed();
    forall j | 0 <= j < 8
      ensures !Complete(after, WinningCombos[j])
    {
    }
  }

  predicate AllEmpty(b: seq<Mark>) {
    |b| == Size && forall i :: 0 <= i < Size ==> b[i] == Empty
  }

  lemma {:induction false} EmptyBoardNoBonus(b: seq<Mark>, i: nat, n: nat)
    requires AllEmpty(b) && n <= 8
    ensures ComboBonus(b, i, n) == 0
  {
    if n > 0 {
      EmptyBoardNoBonus(b, i, n - 1);
      TablesWellFormed();
    }
  }

  lemma {:induction false} EmptyBoardNoThreat(b: seq<Mark>, n: nat)
    requires AllEmpty(b) && n <= 8
    ensures ThreatScore(b, O, n) == 0
  {
    if n > 0 {
      EmptyBoardNoThreat(b, n - 1);
      TablesWellFormed();
    }
  }

  lemma {:induction false} EmptyBoardNoPosition(b: seq<Mark>, n: nat)
    requires AllEmpty(b) && n <= Size
    ensures PositionScore(b, O, n) == 0
  {
    if n > 0 {
      EmptyBoardNoPosition(b, n - 1);
    }
  }

  lemma CandidatesStep(b: seq<Mark>, qo: seq<nat>, k: nat)
    requires |b| == Size && 0 < k <= Size
    ensures Candidates(b, qo, k) == Candidates(b, qo, k - 1)
              + (if b[k - 1] == Empty then [Candidate(k - 1, MoveScore(b, qo, k - 1) + EvaluateBoard(b, O))] else [])
  {
  }

  lemma EmptyBoardCellScore(b: seq<Mark>, i: nat)
    requires AllEmpty(b) && i < Size
    ensures MoveScore(b, [], i) + EvaluateBoard(b, O) == 2 * PositionValues[i]
  {
    EmptyBoardNoBonus(b, i, 8);
    EmptyBoardNoThreat(b, 8);
    EmptyBoardNoPosition(b, Size);
  }

  lemma EmptyBoardCandidateStep(b: seq<Mark>, k: nat)
    requires AllEmpty(b) && 0 < k <= Size
    ensures Candidates(b, [], k) == Candidates(b, [], k - 1) + [Candidate(k - 1, 2 * PositionValues[k - 1])]
  {
    CandidatesStep(b, [], k);
    EmptyBoardCellScore(b, k - 1);
  }

  /** On an empty board every cell is a candidate scored twice its position value. */
  lemma EmptyBoardCandidates(b: seq<Mark>)
    requires AllEmpty(b)
    ensures Candidates(b, [], Size) == [
              Candidate(0, 6), Candidate(1, 4), Candidate(2, 6), Candidate(3, 4), Candidate(4, 8),
              Candidate(5, 4), Candidate(6, 6), Candidate(7, 4), Candidate(8, 6)]
  {
    EmptyBoardCandidateStep(b, 1);
    EmptyBoardCandidateStep(b, 2);
    EmptyBoardCandidateStep(b, 3);
    EmptyBoardCandidateStep(b, 4);
    EmptyBoardCandidateStep(b, 5);
    EmptyBoardCandidateStep(b, 6);
    EmptyBoardCandidateStep(b, 7);
    EmptyBoardCandidateStep(b, 8);
    EmptyBoardCandidateStep(b, 9);
  }

  lemma SortAppend(s: seq<Candidate>, c: Candidate)
    ensures SortByScore(s + [c]) == InsertByScore(c, SortByScore(s))
  {
    assert (s + [c])[..|s|] == s;
  }

  /** The ranking of the first `n` empty-board candidates, one insertion at a time. */
  lemma RankEmptyPrefix1()
    ensures SortByScore([Candidate(0, 6)])
            == [Candidate(0, 6)]
  {
    SortAppend([], Candidate(0, 6));
    assert [] + [Candidate(0, 6)] == [Candidate(0, 6)];
    assert InsertByScore(Candidate(0, 6), [])
        == [Candidate(0, 6)];
  }

  lemma RankEmptyPrefix2()
    ensures SortByScore([Candidate(0, 6), Candidate(1, 4)])
            == [Candidate(0, 6), Candidate(1, 4)]
  {
    RankEmptyPrefix1();
    SortAppend([Candidate(0, 6)], Candidate(1, 4));
    assert [Candidate(0, 6)] + [Candidate(1, 4)] == [Candidate(0, 6), Candidate(1, 4)];
    assert InsertByScore(Candidate(1, 4), [Candidate(0, 6)])
        == [Candidate(0, 6), Candidate(1, 4)];
  }

  lemma RankEmptyPrefix3()
    ensures SortByScore([Candidate(0, 6), Candidate(1, 4), Candidate(2, 6)])
            == [Candidate(0, 6), Candidate(2, 6), Candidate(1, 4)]
  {
    RankEmptyPrefix2();
    SortAppend([Candidate(0, 6), Candidate(1, 4)], Candidate(2, 6));
    assert [Candidate(0, 6), Candidate(1, 4)] + [Candidate(2, 6)] == [Candidate(0, 6), Candidate(1, 4), Candidate(2, 6)];
    assert InsertByScore(Candidate(2, 6), [Candidate(0, 6), Candidate(1, 4)])
        == [Candidate(0, 6), Candidate(2, 6), Candidate(1, 4)];
  }

  lemma RankEmptyPrefix4()
    ensures SortByScore([Candidate(0, 6), Candidate(1, 4), Candidate(2, 6), Candidate(3, 4)])
            == [Candidate(0, 6), Candidate(2, 6), Candidate(1, 4), Candidate(3, 4)]
  {
    RankEmptyPrefix3();
    SortAppend([Candidate(0, 6), Candidate(1, 4), Candidate(2, 6)], Candidate(3, 4));
    assert [Candidate(0, 6), Candidate(1, 4), Candidate(2, 6)] + [Candidate(3, 4)] == [Candidate(0, 6), Candidate(1, 4), Candidate(2, 6), Candidate(3, 4)];
    assert InsertByScore(Candidate(3, 4), [Candidate(0, 6), Candidate(2, 6), Candidate(1, 4)])
        == [Candidate(0, 6), Candidate(2, 6), Candidate(1, 4), Candidate(3, 4)];
  }

  lemma RankEmptyPrefix5()
    ensures SortByScore([Candidate(0, 6), Candidate(1, 4), Candidate(2, 6), Candidate(3, 4), Candidate(4, 8)])
            == [Candidate(4, 8), Candidate(0, 6), Candidate(2, 6), Candidate(1, 4), Candidate(3, 4)]
  {
    RankEmptyPrefix4();
    SortAppend([Candidate(0, 6), Candidate(1, 4), Candidate(2, 6), Candidate(3, 4)], Candidate(4, 8));
    assert [Candidate(0, 6), Candidate(1, 4), Candidate(2, 6), Candidate(3, 4)] + [Candidate(4, 8)] == [Candidate(0, 6), Candidate(1, 4), Candidate(2, 6), Candidate(3, 4), Candidate(4, 8)];
    assert InsertByScore(Candidate(4, 8), [Candidate(0, 6), Candidate(2, 6), Candidate(1, 4), Candidate(3, 4)])
        == [Candidate(4, 8), Candidate(0, 6), Candidate(2, 6), Candidate(1, 4), Candidate(3, 4)];
  }

  lemma RankEmptyPrefix6()
    ensures SortByScore([Candidate(0, 6), Candidate(1, 4), Candidate(2, 6), Candidate(3, 4), Candidate(4, 8), Candidate(5, 4)])
            == [Candidate(4, 8), Candidate(0, 6), Candidate(2, 6), Candidate(1, 4), Candidate(3, 4), Candidate(5, 4)]
  {
    RankEmptyPrefix5();
    SortAppend([Candidate(0, 6), Candidate(1, 4), Candidate(2, 6), Candidate(3, 4), Candidate(4, 8)], Candidate(5, 4));
    assert [Candidate(0, 6), Candidate(1, 4), Candidate(2, 6), Candidate(3, 4), Candidate(4, 8)] + [Candidate(5, 4)] == [Candidate(0, 6), Candidate(1, 4), Candidate(2, 6), Candidate(3, 4), Candidate(4, 8), Candidate(5, 4)];
    assert InsertByScore(Candidate(5, 4), [Candidate(4, 8), Candidate(0, 6), Candidate(2, 6), Candidate(1, 4), Candidate(3, 4)])
        == [Candidate(4, 8), Candidate(0, 6), Candidate(2, 6), Candidate(1, 4), Candidate(3, 4), Candidate(5, 4)];
  }

  lemma RankEmptyPrefix7()
    ensures SortByScore([Candidate(0, 6), Candidate(1, 4), Candidate(2, 6), Candidate(3, 4), Candidate(4, 8), Candidate(5, 4), Candidate(6, 6)])
            == [Candidate(4, 8), Candidate(0, 6), Candidate(2, 6), Candidate(6, 6), Candidate(1, 4), Candidate(3, 4), Candidate(5, 4)]
  {
    RankEmptyPrefix6();
    SortAppend([Candidate(0, 6), Candidate(1, 4), Candidate(2, 6), Candidate(3, 4), Candidate(4, 8), Candidate(5, 4)], Candidate(6, 6));
    assert [Candidate(0, 6), Candidate(1, 4), Candidate(2, 6), Candidate(3, 4), Candidate(4, 8), Candidate(5, 4)] + [Candidate(6, 6)] == [Candidate(0, 6), Candidate(1, 4), Candidate(2, 6), Candidate(3, 4), Candidate(4, 8), Candidate(5, 4), Candidate(6, 6)];
    assert InsertByScore(Candidate(6, 6), [Candidate(4, 8), Candidate(0, 6), Candidate(2, 6), Candidate(1, 4), Candidate(3, 4), Candidate(5, 4)])
        == [Candidate(4, 8), Candidate(0, 6), Candidate(2, 6), Candidate(6, 6), Candidate(1, 4), Candidate(3, 4), Candidate(5, 4)];
  }

  lemma RankEmptyPrefix8()
    ensures SortByScore([Candidate(0, 6), Candidate(1, 4), Candidate(2, 6), Candidate(3, 4), Candidate(4, 8), Candidate(5, 4), Candidate(6, 6), Candidate(7, 4)])
            == [Candidate(4, 8), Candidate(0, 6), Candidate(2, 6), Candidate(6, 6), Candidate(1, 4), Candidate(3, 4), Candidate(5, 4), Candidate(7, 4)]
  {
    RankEmptyPrefix7();
    SortAppend([Candidate(0, 6), Candidate(1, 4), Candidate(2, 6), Candidate(3, 4), Candidate(4, 8), Candidate(5, 4), Candidate(6, 6)], Candidate(7, 4));
    assert [Candidate(0, 6), Candidate(1, 4), Candidate(2, 6), Candidate(3, 4), Candidate(4, 8), Candidate(5, 4), Candidate(6, 6)] + [Candidate(7, 4)] == [Candidate(0, 6), Candidate(1, 4), Candidate(2, 6), Candidate(3, 4), Candidate(4, 8), Candidate(5, 4), Candidate(6, 6), Candidate(7, 4)];
    assert InsertByScore(Candidate(7, 4), [Candidate(4, 8), Candidate(0, 6), Candidate(2, 6), Candidate(6, 6), Candidate(1, 4), Candidate(3, 4), Candidate(5, 4)])
        == [Candidate(4, 8), Candidate(0, 6), Candidate(2, 6), Candidate(6, 6), Candidate(1, 4), Candidate(3, 4), Candidate(5, 4), Candidate(7, 4)];
  }

  /** The ranking of the empty board's candidates: centre, corners, edges. */
  lemma RankEmptyBoard()
    ensures SortByScore([Candidate(0, 6), Candidate(1, 4), Candidate(2, 6), Candidate(3, 4), Candidate(4, 8), Candidate(5, 4), Candidate(6, 6), Candidate(7, 4), Candidate(8, 6)])
            == [Candidate(4, 8), Candidate(0, 6), Candidate(2, 6), Candidate(6, 6), Candidate(8, 6), Candidate(1, 4), Candidate(3, 4), Candidate(5, 4), Candidate(7, 4)]
  {
    RankEmptyPrefix8();
    SortAppend([Candidate(0, 6), Candidate(1, 4), Candidate(2, 6), Candidate(3, 4), Candidate(4, 8), Candidate(5, 4), Candidate(6, 6), Candidate(7, 4)], Candidate(8, 6));
    assert [Candidate(0, 6), Candidate(1, 4), Candidate(2, 6), Candidate(3, 4), Candidate(4, 8), Candidate(5, 4), Candidate(6, 6), Candidate(7, 4)] + [Candidate(8, 6)] == [Candidate(0, 6), Candidate(1, 4), Candidate(2, 6), Candidate(3, 4), Candidate(4, 8), Candidate(5, 4), Candidate(6, 6), Candidate(7, 4), Candidate(8, 6)];
    assert InsertByScore(Candidate(8, 6), [Candidate(4, 8), Candidate(0, 6), Candidate(2, 6), Candidate(6, 6), Candidate(1, 4), Candidate(3, 4), Candidate(5, 4), Candidate(7, 4)])
        == [Candidate(4, 8), Candidate(0, 6), Candidate(2, 6), Candidate(6, 6), Candidate(8, 6), Candidate(1, 4), Candidate(3, 4), Candidate(5, 4), Candidate(7, 4)];
  }

  /** No line of the empty board can be completed by either player. */
  lemma EmptyBoardNothingToComplete(b: seq<Mark>)
    requires AllEmpty(b)
    ensures FindCompletion(b, O, 0) == None && FindCompletion(b, X, 0) == None
  {
    TablesWellFormed();
    forall j | 0 <= j < 8
      ensures !Completes(b, WinningCombos[j], O) && !Completes(b, WinningCombos[j], X)
    {
      assert CountInCombo(b, WinningCombos[j], Empty) == 3;
    }
  }

  lemma EmptyBoardTier()
    ensures TopTier([Candidate(4, 8), Candidate(0, 6), Candidate(2, 6), Candidate(6, 6), Candidate(8, 6),
                     Candidate(1, 4), Candidate(3, 4), Candidate(5, 4), Candidate(7, 4)], 8)
            == [Candidate(4, 8), Candidate(0, 6), Candidate(2, 6), Candidate(6, 6), Candidate(8, 6)]
  {
  }

  lemma RollOfThree(roll: real)
    requires 0.0 <= roll < 1.0
    ensures RollIndex(roll, 3) == if roll < 1.0 / 3.0 then 0 else if roll < 2.0 / 3.0 then 1 else 2
  {
  }

  /**
   * On an empty board the ranking is centre (8), then the corners (6) in
   * cell order, then the edges (4); the tier holds the centre and the four
   * corners, so the move is cell 4, 0 or 2 depending on the roll.
   */
  lemma EmptyBoardChoice(b: seq<Mark>, roll: real)
    requires AllEmpty(b) && 0.0 <= roll < 1.0
    ensures Advise(b, [], roll) == Some(if roll < 1.0 / 3.0 then 4 else if roll < 2.0 / 3.0 then 0 else 2)
  {
    EmptyBoardCandidates(b);
    RankEmptyBoard();
    EmptyBoardNothingToComplete(b);
    EmptyBoardTier();
    RollOfThree(roll);
  }
}
