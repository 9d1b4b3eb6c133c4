/** Owner counting, the spot total, turn order, the winner and move legality. */
module Rules {
  import opened Wrappers
  import opened Sides
  import opened Topology

  /** The three owner counters of a board (_white, _red, _blue). */
  datatype Counts = Counts(white: int, red: int, blue: int)
  {
    function Of(s: Side): int
    {
      match s
      case White => white
      case Red => red
      case Blue => blue
    }

    function Sum(): int
    {
      white + red + blue
    }
  }

  /** colorCount(newSide, oldSide): the counters after a square changes owner
      from oldSide to newSide. */
  function Shift(c: Counts, newSide: Side, oldSide: Side): (r: Counts)
    ensures r.Sum() == c.Sum()
    ensures newSide == oldSide ==> r == c
    ensures newSide != oldSide ==>
      r.Of(newSide) == c.Of(newSide) + 1 && r.Of(oldSide) == c.Of(oldSide) - 1
    ensures forall s: Side :: s != newSide && s != oldSide ==> r.Of(s) == c.Of(s)
  {
    match newSide
    case White =>
      if oldSide == Red then Counts(c.white + 1, c.red - 1, c.blue)
      else if oldSide == Blue then Counts(c.white + 1, c.red, c.blue - 1)
      else c
    case Red =>
      if oldSide == White then Counts(c.white - 1, c.red + 1, c.blue)
      else if oldSide == Blue then Counts(c.white, c.red + 1, c.blue - 1)
      else c
    case Blue =>
      if oldSide == Red then Counts(c.white, c.red - 1, c.blue + 1)
      else if oldSide == White then Counts(c.white - 1, c.red, c.blue + 1)
      else c
  }

  /** The number of squares of sq owned by s. */
  function CountOf(sq: seq<Square>, s: Side): nat
  {
    if sq == [] then 0
    else CountOf(sq[..|sq| - 1], s) + (if sq[|sq| - 1].side == s then 1 else 0)
  }

  /** The owner counters that describe sq exactly. */
  function CountsOf(sq: seq<Square>): Counts
  {
    Counts(CountOf(sq, White), CountOf(sq, Red), CountOf(sq, Blue))
  }

  /** The number of spots on all squares of sq. */
  function Total(sq: seq<Square>): int
  {
    if sq == [] then 0 else Total(sq[..|sq| - 1]) + sq[|sq| - 1].spots
  }

  /** Every square has exactly one owner. */
  lemma {:induction false} CountsSum(sq: seq<Square>)
    ensures CountsOf(sq).Sum() == |sq|
  {
    if sq != [] {
      CountsSum(sq[..|sq| - 1]);
    }
  }

  /** Replacing square i by x moves one unit of owner count from the old
      owner to x's, exactly as colorCount does. */
  lemma CountsOfUpdate(sq: seq<Square>, i: int, x: Square)
    requires 0 <= i < |sq|
    ensures CountsOf(sq[i := x]) == Shift(CountsOf(sq), x.side, sq[i].side)
  {
    CountOfUpdate(sq, i, x, White);
    CountOfUpdate(sq, i, x, Red);
    CountOfUpdate(sq, i, x, Blue);
  }

  lemma {:induction false} CountOfUpdate(sq: seq<Square>, i: int, x: Square, s: Side)
    requires 0 <= i < |sq|
    ensures CountOf(sq[i := x], s) ==
      CountOf(sq, s) - (if sq[i].side == s then 1 else 0) + (if x.side == s then 1 else 0)
  {
    var last := |sq| - 1;
    if i == last {
      assert sq[i := x][..last] == sq[..last];
    } else {
      CountOfUpdate(sq[..last], i, x, s);
      assert sq[i := x][..last] == sq[..last][i := x];
    }
  }

  /** How far counters c are from the owner counts of sq, side by side. */
  function Drift(c: Counts, sq: seq<Square>): Counts
  {
    Counts(c.white - CountOf(sq, White), c.red - CountOf(sq, Red), c.blue - CountOf(sq, Blue))
  }

  /** Counters without drift are exactly the owner counts. */
  lemma DriftZero(c: Counts, sq: seq<Square>)
    ensures Drift(c, sq) == Counts(0, 0, 0) <==> c == CountsOf(sq)
  {
  }

  /** Recolouring square i together with the matching counter shift (what
      colorCount does before internalSet) keeps the drift. */
  lemma DriftShift(c: Counts, sq: seq<Square>, i: int, x: Square)
    requires 0 <= i < |sq|
    ensures Drift(Shift(c, x.side, sq[i].side), sq[i := x]) == Drift(c, sq)
  {
    CountsOfUpdate(sq, i, x);
  }

  /** Changing the spots of a square but not its owner keeps the drift. */
  lemma DriftKeep(c: Counts, sq: seq<Square>, i: int, x: Square)
    requires 0 <= i < |sq| && x.side == sq[i].side
    ensures Drift(c, sq[i := x]) == Drift(c, sq)
  {
    CountsOfUpdate(sq, i, x);
  }

  /** Replacing square i by x changes the spot total by the difference. */
  lemma {:induction false} TotalUpdate(sq: seq<Square>, i: int, x: Square)
    requires 0 <= i < |sq|
    ensures Total(sq[i := x]) == Total(sq) - sq[i].spots + x.spots
  {
    var last := |sq| - 1;
    if i == last {
      assert sq[i := x][..last] == sq[..last];
    } else {
      TotalUpdate(sq[..last], i, x);
      assert sq[i := x][..last] == sq[..last][i := x];
    }
  }

  /** Side s owns every square exactly when its count is the number of squares. */
  lemma {:induction false} CountOfAll(sq: seq<Square>, s: Side)
    ensures CountOf(sq, s) == |sq| <==> forall i :: 0 <= i < |sq| ==> sq[i].side == s
  {
    if sq != [] {
      var last := |sq| - 1;
      CountOfAll(sq[..last], s);
      assert CountOf(sq[..last], s) <= last by { CountOfBound(sq[..last], s); }
      if CountOf(sq, s) == |sq| {
        forall i | 0 <= i < |sq| ensures sq[i].side == s {
          if i < last { assert sq[..last][i] == sq[i]; }
        }
      }
      if forall i :: 0 <= i < |sq| ==> sq[i].side == s {
        forall i | 0 <= i < last ensures sq[..last][i].side == s {
          assert sq[..last][i] == sq[i];
        }
      }
    }
  }

  lemma {:induction false} CountOfBound(sq: seq<Square>, s: Side)
    ensures CountOf(sq, s) <= |sq|
  {
    if sq != [] {
      CountOfBound(sq[..|sq| - 1], s);
    }
  }

  /** whoseMove(): Red when spots + N is even, Blue otherwise. Java's
      `& 1` and Dafny's Euclidean `% 2` agree on negative numbers too. */
  function Turn(spots: int, N: int): (s: Side)
    ensures s != White
  {
    if (spots + N) % 2 == 0 then Red else Blue
  }

  /** A fresh board (N*N spots) has Red to move. */
  lemma {:induction false} TurnAtStart(N: nat)
    ensures Turn(N * N, N) == Red
  {
    if N > 0 {
      TurnAtStart(N - 1);
      assert N * N == (N - 1) * (N - 1) + 2 * (N - 1) + 1;
    }
  }

  /** Each added spot passes the move to the other player. */
  lemma TurnAlternates(spots: int, N: int)
    ensures Turn(spots + 1, N) != Turn(spots, N)
    ensures Turn(spots + 2, N) == Turn(spots, N)
  {
  }

  /** getWinner(): Blue if Blue owns all n2 squares, else Red if Red does. */
  function WinnerOf(n2: int, c: Counts): (w: Option<Side>)
    ensures w != Some(White)
    ensures w.Some? <==> c.blue == n2 || c.red == n2
  {
    if c.blue == n2 then Some(Blue)
    else if c.red == n2 then Some(Red)
    else None
  }

  /** With counters that describe the board, the winner is the side owning
      every square, and there is none while any two owners coexist. */
  lemma {:induction false} WinnerOwnsAll(sq: seq<Square>, s: Side)
    requires |sq| > 0
    ensures WinnerOf(|sq|, CountsOf(sq)) == Some(s) <==>
      s != White && forall i :: 0 <= i < |sq| ==> sq[i].side == s
  {
    CountOfAll(sq, s);
    CountOfAll(sq, Blue);
    CountOfAll(sq, Red);
    if CountOf(sq, Blue) == |sq| && s == Red {
      assert sq[0].side == Blue;
    }
    if s == Blue && CountOf(sq, Red) == |sq| {
      assert sq[0].side == Red;
    }
  }

  /** isLegal(player): it is player's turn and nobody has won. */
  predicate Legal(player: Side, turn: Side, winner: Option<Side>)
  {
    turn == player && winner == None
  }

  /** Every square holds no more spots than it has neighbours. */
  ghost predicate Settled(N: int, sq: seq<Square>)
    requires N > 0
  {
    forall i :: 0 <= i < |sq| ==> sq[i].spots <= NeighborCount(N, i)
  }

  /** Settled, except possibly at square n. */
  ghost predicate SettledExcept(N: int, sq: seq<Square>, n: int)
    requires N > 0
  {
    forall i :: 0 <= i < |sq| && i != n ==> sq[i].spots <= NeighborCount(N, i)
  }
}
