/**
 * The board of the 3-piece tic-tac-toe variant: cell marks, the static
 * tables (winning combos, position values), win detection and the
 * aging rule that keeps at most three live pieces per player.
 */
module Board {

  datatype Option<T> = None | Some(value: T)

  /** The content of one cell; the source writes '' for an empty cell. */
  datatype Mark = Empty | X | O

  type Player = m: Mark | m != Empty witness X

  function Other(p: Player): (q: Player)
    ensures q != p
  {
    if p == X then O else X
  }

  const Size: nat := 9
  const MaxPieces: nat := 3

  /** One of the eight winning lines, as three cell indices. */
  datatype Combo = Combo(a: nat, b: nat, c: nat)
  {
    predicate Contains(i: nat) { i == a || i == b || i == c }

    /** The three cells in table order (the source's `[a, b, c]`). */

    /** The two cells of the combo other than `i` (the source's `filter(pos => pos !== index)`). */
    function Others(i: nat): (r: seq<nat>)
      requires Contains(i) && a != b && b != c && a != c
      ensures |r| == 2 && !(i in r)
      ensures forall j :: j in r <==> Contains(j) && j != i
    {
      if i == a then [b, c] else if i == b then [a, c] else [a, b]
    }
  }

  /** Rows, then columns, then diagonals: the order in which lines are scanned. */
  const WinningCombos: seq<Combo> := [
    Combo(0, 1, 2), Combo(3, 4, 5), Combo(6, 7, 8),
    Combo(0, 3, 6), Combo(1, 4, 7), Combo(2, 5, 8),
    Combo(0, 4, 8), Combo(2, 4, 6)
  ]

  /** The board at the start of every game. */
  const EmptyBoard: seq<Mark> := [Empty, Empty, Empty, Empty, Empty, Empty, Empty, Empty, Empty]

  /** Strategic weight of each cell: corners 3, edges 2, centre 4. */
  const PositionValues: seq<int> := [3, 2, 3, 2, 4, 2, 3, 2, 3]

  predicate WellFormed(c: Combo) {
    c.a < Size && c.b < Size && c.c < Size && c.a != c.b && c.b != c.c && c.a != c.c
  }

  lemma TablesWellFormed()
    ensures |WinningCombos| == 8 && |PositionValues| == Size
    ensures forall k :: 0 <= k < |WinningCombos| ==> WellFormed(WinningCombos[k])
    ensures forall i :: 0 <= i < Size ==> 2 <= PositionValues[i] <= 4
    ensures forall i :: 0 <= i < Size && i != 4 ==> PositionValues[i] < PositionValues[4]
  {
  }

  /** All three cells of `c` hold the same non-empty mark. */
  predicate Complete(b: seq<Mark>, c: Combo)
    requires |b| == Size && WellFormed(c)
  {
    b[c.a] != Empty && b[c.a] == b[c.b] && b[c.a] == b[c.c]
  }

  /**
   * The mark of the first complete combo at position `k` or later in
   * `WinningCombos`, or None when there is none. A result type of
   * Option<Player> leaves no room for a "draw" answer.
   */
  function WinnerFrom(b: seq<Mark>, k: nat): (w: Option<Player>)
    requires |b| == Size && k <= 8
    ensures w.Some? <==> exists j :: k <= j < 8 && Complete(b, WinningCombos[j])
    ensures w.Some? ==> exists j :: (k <= j < 8 && Complete(b, WinningCombos[j])
                                     && w.value == b[WinningCombos[j].a]
                                     && forall i :: k <= i < j ==> !Complete(b, WinningCombos[i]))
    decreases 8 - k
  {
    TablesWellFormed();
    if k == 8 then None
    else if Complete(b, WinningCombos[k]) then (var m: Player := b[WinningCombos[k].a]; Some(m))
    else WinnerFrom(b, k + 1)
  }

  /**
   * The winner on board `b`: the mark of the first complete combo in table
   * order, and None exactly when no combo is complete.
   */
  function CheckWinner(b: seq<Mark>): (w: Option<Player>)
    requires |b| == Size
    ensures w.Some? <==> exists j :: 0 <= j < 8 && Complete(b, WinningCombos[j])
    ensures w.Some? ==> exists j :: (0 <= j < 8 && Complete(b, WinningCombos[j])
                                     && w.value == b[WinningCombos[j].a]
                                     && forall i :: 0 <= i < j ==> !Complete(b, WinningCombos[i]))
  {
    WinnerFrom(b, 0)
  }

  /**
   * `q` is the placement-ordered queue of player `p`'s live pieces on `b`:
   * at most three distinct cells, holding `p` exactly where `q` says.
   */
  predicate QueueMatches(b: seq<Mark>, p: Player, q: seq<nat>)
  {
    && |b| == Size
    && |q| <= MaxPieces
    && (forall i :: 0 <= i < |q| ==> q[i] < Size)
    && (forall i, j :: 0 <= i < j < |q| ==> q[i] != q[j])
    && (forall c :: 0 <= c < Size ==> (b[c] == p <==> c in q))
  }

  /**
   * Removal of a player's oldest piece: the cell at the head of its queue
   * is cleared and the head leaves the queue. Returns the new board and
   * the new queue.
   */
  function DropOldest(b: seq<Mark>, q: seq<nat>): (r: (seq<Mark>, seq<nat>))
    requires |q| > 0 && q[0] < |b|
    ensures |r.0| == |b| && r.0[q[0]] == Empty
    ensures forall c :: 0 <= c < |b| && c != q[0] ==> r.0[c] == b[c]
    ensures |r.1| == |q| - 1 && forall i :: 0 <= i < |r.1| ==> r.1[i] == q[i + 1]
  {
    (b[q[0] := Empty], q[1..])
  }

  /**
   * Dropping the oldest piece keeps both queues in step with the board:
   * the queue loses its head, the cell becomes empty, and the other
   * player's pieces are untouched.
   */
  lemma DropOldestKeepsQueues(b: seq<Mark>, p: Player, q: seq<nat>, qo: seq<nat>)
    requires QueueMatches(b, p, q) && QueueMatches(b, Other(p), qo) && |q| > 0
    ensures QueueMatches(DropOldest(b, q).0, p, DropOldest(b, q).1)
    ensures QueueMatches(DropOldest(b, q).0, Other(p), qo)
    ensures DropOldest(b, q).0[q[0]] == Empty
    ensures forall c :: 0 <= c < Size && c != q[0] ==> DropOldest(b, q).0[c] == b[c]
  {
    var (b1, q1) := DropOldest(b, q);
    forall c | 0 <= c < Size
      ensures b1[c] == p <==> c in q1
    {
      if c == q[0] {
        assert forall i :: 1 <= i < |q| ==> q[i] != q[0];
      } else if b[c] == p {
        assert c in q && c != q[0];
        var i :| 0 <= i < |q| && q[i] == c;
        assert q1[i - 1] == c;
      }
    }
    assert b[q[0]] == p;
  }

  /**
   * One placement by `p` at cell `k`: when `p` already has three pieces the
   * oldest one is dropped first, then `k` is marked and appended. Returns
   * the new board and the new queue of `p`.
   */
  function Place(b: seq<Mark>, q: seq<nat>, p: Player, k: nat): (r: (seq<Mark>, seq<nat>))
    requires |b| == Size && k < Size
    requires |q| >= MaxPieces ==> q[0] < Size
    ensures |r.0| == Size
  {
    var (b1, q1) := if |q| >= MaxPieces then DropOldest(b, q) else (b, q);
    (b1[k := p], q1 + [k])
  }

  /** Placement on an empty cell keeps both players' queues in step with the board. */
  lemma PlaceKeepsQueues(b: seq<Mark>, p: Player, q: seq<nat>, qo: seq<nat>, k: nat)
    requires QueueMatches(b, p, q) && QueueMatches(b, Other(p), qo)
    requires k < Size && b[k] == Empty
    ensures QueueMatches(Place(b, q, p, k).0, p, Place(b, q, p, k).1)
    ensures QueueMatches(Place(b, q, p, k).0, Other(p), qo)
  {
    var (b2, q2) := Place(b, q, p, k);
    var b1 := if |q| >= MaxPieces then b[q[0] := Empty] else b;
    var q1 := if |q| >= MaxPieces then q[1..] else q;
    assert !(k in q);
    forall c | 0 <= c < Size
      ensures b1[c] == p <==> c in q1
    {
      if |q| >= MaxPieces && c == q[0] {
        assert forall i :: 1 <= i < |q| ==> q[i] != q[0];
      }
    }
    assert QueueMatches(b1, p, q1);
    assert QueueMatches(b1, Other(p), qo);
  }

  /**
   * The aging rule is first-in first-out and local: with three pieces
   * down, placing at empty cell `k` clears exactly the head of the queue,
   * drops it, appends `k`, and leaves every other cell as it was.
   */
  lemma PlaceAgesOldest(b: seq<Mark>, p: Player, q: seq<nat>, k: nat)
    requires QueueMatches(b, p, q) && |q| == MaxPieces
    requires k < Size && b[k] == Empty
    ensures Place(b, q, p, k).1 == q[1..] + [k]
    ensures Place(b, q, p, k).0[q[0]] == Empty && Place(b, q, p, k).0[k] == p
    ensures forall c :: 0 <= c < Size && c != q[0] && c != k ==> Place(b, q, p, k).0[c] == b[c]
    ensures |Place(b, q, p, k).1| == MaxPieces
  {
    assert q[0] != k by { assert b[q[0]] == p; }
  }

  /** Below the cap, placement adds the piece without removing any. */
  lemma PlaceBelowCap(b: seq<Mark>, p: Player, q: seq<nat>, k: nat)
    requires QueueMatches(b, p, q) && |q| < MaxPieces
    requires k < Size && b[k] == Empty
    ensures Place(b, q, p, k).1 == q + [k]
    ensures forall c :: 0 <= c < Size ==> Place(b, q, p, k).0[c] == if c == k then p else b[c]
  {
  }

  /**
   * Placement never completes a line for the other player: every cell that
   * changes becomes empty or `p`, so a combo complete afterwards in any
   * mark but `p` was already complete before.
   */
  lemma PlaceOnlyMoverWins(b: seq<Mark>, q: seq<nat>, p: Player, k: nat)
    requires |b| == Size && k < Size && (|q| >= MaxPieces ==> q[0] < Size)
    requires CheckWinner(b) == None
    ensures CheckWinner(Place(b, q, p, k).0) == None || CheckWinner(Place(b, q, p, k).0) == Some(p)
  {
    TablesWellFormed();
  }

  /** The cells of `b` that hold a mark. */
  function Occupied(b: seq<Mark>): set<nat>
    requires |b| == Size
  {
    set c | 0 <= c < Size && b[c] != Empty
  }

  /** The cells listed in a queue. */
  function Elems(q: seq<nat>): set<nat>
  {
    set x | x in q
  }

  lemma {:induction false} ElemsSize(q: seq<nat>)
    ensures |Elems(q)| <= |q|
  {
    if q != [] {
      ElemsSize(q[1..]);
      assert Elems(q) == {q[0]} + Elems(q[1..]);
    }
  }

  lemma SubsetSize(a: set<nat>, b: set<nat>)
    requires a <= b
    ensures |a| <= |b|
  {
    assert b == a + (b - a);
  }

  lemma OccupiedInQueues(b: seq<Mark>, qx: seq<nat>, qo: seq<nat>)
    requires QueueMatches(b, X, qx) && QueueMatches(b, O, qo)
    ensures Occupied(b) <= Elems(qx) + Elems(qo)
  {
    forall c | c in Occupied(b)
      ensures c in Elems(qx) + Elems(qo)
    {
      if b[c] == X { assert c in qx; } else { assert c in qo; }
    }
  }

  lemma FullBoardOccupied(b: seq<Mark>)
    requires |b| == Size && forall c :: 0 <= c < Size ==> b[c] != Empty
    ensures |Occupied(b)| == Size
  {
    assert Occupied(b) == {0, 1, 2, 3, 4, 5, 6, 7, 8};
  }

  /**
   * With both queues in step with the board at most six cells are
   * occupied, so at least three stay empty: a draw by a full board can
   * never happen.
   */
  lemma EmptyCellsRemain(b: seq<Mark>, qx: seq<nat>, qo: seq<nat>)
    requires QueueMatches(b, X, qx) && QueueMatches(b, O, qo)
    ensures |Occupied(b)| <= 2 * MaxPieces
    ensures exists c :: 0 <= c < Size && b[c] == Empty
  {
    ElemsSize(qx);
    ElemsSize(qo);
    OccupiedInQueues(b, qx, qo);
    SubsetSize(Occupied(b), Elems(qx) + Elems(qo));
    if forall c :: 0 <= c < Size ==> b[c] != Empty {
      FullBoardOccupied(b);
    }
  }
}
