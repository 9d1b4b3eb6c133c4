/** The game of BoardTest.testMove on a 6 x 6 board, replayed through the
    contracts of Board alone: two quiet moves, a move that makes square
    (1, 1) jump into its two neighbours, and the three undos back to the
    fresh board. */
module BoardTests {
  import opened Wrappers
  import opened Sides
  import opened Topology
  import opened Rules
  import opened Boards

  /** The jump of square (1, 1) on a 6 x 6 board reaches (1, 2) and (2, 1),
      in that order; both have three neighbours, so deposits on them stay
      quiet while they hold fewer than three spots. */
  lemma CornerOfSix(sq: seq<Square>)
    requires |sq| == 36 && sq[1].spots < 3 && sq[6].spots < 3
    ensures NeighborCount(6, 0) == 2 && NeighborList(6, 0) == [1, 6]
    ensures Quiet(6, sq, NeighborList(6, 0))
  {
    assert RowOf(6, 0) == 1 && ColOf(6, 0) == 1;
    assert RowOf(6, 1) == 1 && ColOf(6, 1) == 2;
    assert RowOf(6, 6) == 2 && ColOf(6, 6) == 1;
    assert Enumerate(6, 0, 1, 1) == Ok([1, 6]);
    assert NeighborJumpIndex(6, 0) == Ok([1, 6]);
  }

  /** The quiet loop of that jump for red, from counters (34, 1, 1): a white
      (1, 2) with one spot and a blue (2, 1) with two both turn red, and the
      counters end at (33, 3, 0), which shows no winner. */
  lemma CornerDeposits(sq: seq<Square>)
    requires |sq| == 36 && sq[1] == Fresh && sq[6] == Square(Blue, 2)
    ensures QuietSpread(6, sq, Counts(34, 1, 1), [1, 6], Red)
            == (sq[1 := Square(Red, 2)][6 := Square(Red, 3)], Counts(33, 3, 0))
  {
    var sq1 := sq[1 := Square(Red, 2)];
    assert [1, 6][1..] == [6];
    assert QuietSpread(6, sq, Counts(34, 1, 1), [1, 6], Red) == QuietSpread(6, sq1, Counts(33, 2, 1), [6], Red);
  }

  /** addSpot(RED, 1, 1) on the fresh board: square (1, 1) holds 2r. */
  method FirstMove(b: Board)
    requires b.Valid() && b.size == 6 && b.board[0] == Fresh && b.Counters() == Counts(36, 0, 0)
    modifies b, b.board
    ensures b.Valid() && b.size == 6 && b.board == old(b.board) && b.board[..] == old(b.board[..])[0 := Square(Red, 2)]
    ensures b.Counters() == Counts(35, 1, 0)
    ensures b.history == old(b.history) + [GameState(old(b.board[..]), Counts(35, 1, 0), b.spots)]
  {
    assert SqNum(6, 1, 1) == Ok(0) && b.Winner() == None;
    assert Shift(b.Counters(), Red, White) == Counts(35, 1, 0);
    var res, done := b.AddSpot(Red, 1, 1, 1);
  }

  /** addSpot(BLUE, 2, 1): square (2, 1) holds 2b. */
  method SecondMove(b: Board)
    requires b.Valid() && b.size == 6 && b.board[6] == Fresh && b.Counters() == Counts(35, 1, 0)
    modifies b, b.board
    ensures b.Valid() && b.size == 6 && b.board == old(b.board) && b.board[..] == old(b.board[..])[6 := Square(Blue, 2)]
    ensures b.Counters() == Counts(34, 1, 1)
    ensures b.history == old(b.history) + [GameState(old(b.board[..]), Counts(34, 1, 1), b.spots)]
  {
    assert SqNum(6, 2, 1) == Ok(6) && b.Winner() == None;
    assert Shift(b.Counters(), Blue, White) == Counts(34, 1, 1);
    var res, done := b.AddSpot(Blue, 2, 1, 1);
  }

  /** addSpot(RED, 1, 1) again: square (1, 1) now has three spots for two
      neighbours and jumps; (1, 2) and (2, 1) are below their three
      neighbours, take one spot each and turn red, and nobody has won. */
  method ThirdMove(b: Board)
    requires b.Valid() && b.size == 6 && b.Counters() == Counts(34, 1, 1)
    requires b.board[0] == Square(Red, 2) && b.board[1] == Fresh && b.board[6] == Square(Blue, 2)
    modifies b, b.board
    ensures b.Valid() && b.size == 6 && b.board == old(b.board)
    ensures b.board[..] == old(b.board[..])[0 := Square(Red, 1)][1 := Square(Red, 2)][6 := Square(Red, 3)]
    ensures b.Counters() == Counts(33, 3, 0) && b.Winner() == None
    ensures b.history == old(b.history) + [GameState(old(b.board[..]), Counts(34, 1, 1), b.spots)]
  {
    ghost var placed := b.board[..][0 := Square(Red, 1)];
    assert SqNum(6, 1, 1) == Ok(0);
    CornerOfSix(b.board[..]);
    ghost var c0 := b.Counters();
    assert Shift(c0, Red, Red) == c0 && b.Winner() == None;
    var res, done := b.AddSpot(Red, 1, 1, 1);
    assert (b.board[..], b.Counters()) == QuietSpread(6, placed, c0, NeighborList(6, 0), Red);
    CornerDeposits(placed);
  }

  /** testMove from a fresh 6 x 6 board (what the constructor builds):
      the three moves, then three undos, each giving back the board before
      the matching move. The owner counters come back only to the ones the
      first snapshot holds, taken after that move's own recolouring. */
  method MoveAndUndo(b: Board)
    requires b.Valid() && b.size == 6 && b.Counters() == Counts(36, 0, 0)
    requires forall i :: 0 <= i < b.board.Length ==> b.board[i] == Fresh
    modifies b, b.board
    ensures b.Valid() && b.size == 6 && b.board[..] == old(b.board[..]) && b.history == old(b.history)
    ensures b.Counters() == Counts(35, 1, 0)
  {
    ghost var b0 := b.board[..];
    FirstMove(b);
    ghost var b1 := b.board[..];
    assert b1 == b0[0 := Square(Red, 2)] && b1[6] == Fresh;
    SecondMove(b);
    ghost var b2 := b.board[..];
    assert b2 == b1[6 := Square(Blue, 2)] && b2[0] == Square(Red, 2) && b2[1] == Fresh && b2[6] == Square(Blue, 2);
    ThirdMove(b);
    var res := b.Undo();
    assert b.board[..] == b2;
    res := b.Undo();
    assert b.board[..] == b1;
    res := b.Undo();
  }
}
