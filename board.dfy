/** The Jump61 board: an N x N array of squares in row-major order, owner
    and spot counters, the overflow cascade and the undo history. */
module Boards {
  import opened Wrappers
  import opened Errors
  import opened Sides
  import opened Topology
  import opened Rules
  import opened Dump

  /** An undo snapshot (GameState): a copy of the squares and the counters. */
  datatype GameState = GameState(squares: seq<Square>, counts: Counts, spots: int)

  /** Every square of after is the one of before or is owned by p. */
  ghost predicate Touched(before: seq<Square>, after: seq<Square>, p: Side)
  {
    |before| == |after| && forall i :: 0 <= i < |after| ==> after[i] == before[i] || after[i].side == p
  }

  /** Every square of sq whose number is listed in idx is owned by p. */
  ghost predicate OwnedBy(sq: seq<Square>, idx: seq<int>, p: Side)
  {
    forall i :: 0 <= i < |sq| && i in idx ==> sq[i].side == p
  }

  /** The squares numbered idx[0], ..., idx[j - 1] are owned by p. */
  ghost predicate OwnedPrefix(sq: seq<Square>, idx: seq<int>, j: int, p: Side)
  {
    0 <= j <= |idx| && forall t :: 0 <= t < j ==> 0 <= idx[t] < |sq| && sq[idx[t]].side == p
  }

  /** A step that only touches squares for p keeps p's squares, and adds
      idx[j] when it leaves that square to p. */
  lemma OwnedStep(before: seq<Square>, after: seq<Square>, p: Side, idx: seq<int>, j: int)
    requires Touched(before, after, p) && OwnedPrefix(before, idx, j, p) && j < |idx|
    requires 0 <= idx[j] < |after| && after[idx[j]].side == p
    ensures OwnedPrefix(after, idx, j + 1, p)
  {
  }

  lemma OwnedAll(sq: seq<Square>, idx: seq<int>, p: Side)
    requires OwnedPrefix(sq, idx, |idx|, p)
    ensures OwnedBy(sq, idx, p)
  {
    forall i | 0 <= i < |sq| && i in idx ensures sq[i].side == p {
      var t :| 0 <= t < |idx| && idx[t] == i;
    }
  }

  /** after is before with one more spot, owned by p, on each square listed
      in idx: one overflow step whose deposits set off no further jump. */
  ghost predicate Deposited(before: seq<Square>, after: seq<Square>, idx: seq<int>, p: Side)
  {
    |after| == |before|
    && forall i :: 0 <= i < |after| ==>
         after[i] == (if i in idx then Square(p, before[i].spots + 1) else before[i])
  }

  /** No square listed in idx overflows when it receives one more spot. */
  ghost predicate Quiet(N: int, sq: seq<Square>, idx: seq<int>)
    requires N > 0
  {
    forall t :: 0 <= t < |idx| ==> 0 <= idx[t] < |sq| && sq[idx[t]].spots < NeighborCount(N, idx[t])
  }

  /** No square number is listed twice. */
  ghost predicate Distinct(idx: seq<int>)
  {
    forall t, u :: 0 <= t < u < |idx| ==> idx[t] != idx[u]
  }

  /** sq with one more spot, owned by p, put on each square listed in idx
      in turn: what the loop of jump leaves when no deposit sets off a
      further jump. (A number off the board is passed over; wherever the
      model uses Deposit, QuietSteps or Quiet keeps the numbers on it.) */
  function Deposit(sq: seq<Square>, idx: seq<int>, p: Side): (r: seq<Square>)
    ensures |r| == |sq|
    decreases |idx|
  {
    if idx == [] then sq
    else if 0 <= idx[0] < |sq| then Deposit(sq[idx[0] := Square(p, sq[idx[0]].spots + 1)], idx[1..], p)
    else Deposit(sq, idx[1..], p)
  }

  /** Every deposit made by Deposit(sq, idx, p) finds its square below its
      neighbour count, so that jumpSet sets off no jump. */
  ghost predicate QuietSteps(N: int, sq: seq<Square>, idx: seq<int>, p: Side)
    requires N > 0
    decreases |idx|
  {
    idx == []
    || (0 <= idx[0] < |sq| && sq[idx[0]].spots < NeighborCount(N, idx[0])
        && QuietSteps(N, sq[idx[0] := Square(p, sq[idx[0]].spots + 1)], idx[1..], p))
  }

  /** Squares listed once each and all below their neighbour count take
      their deposits without a jump, and the board that results has exactly
      those squares one spot up and owned by p. */
  lemma {:induction false} QuietDeposit(N: int, sq: seq<Square>, idx: seq<int>, p: Side)
    requires N > 0 && Quiet(N, sq, idx) && Distinct(idx)
    ensures QuietSteps(N, sq, idx, p)
    ensures Deposited(sq, Deposit(sq, idx, p), idx, p)
    decreases |idx|
  {
    if idx != [] {
      var i, rest := idx[0], idx[1..];
      var next := sq[i := Square(p, sq[i].spots + 1)];
      assert i !in rest by {
        forall u | 0 <= u < |rest| ensures rest[u] != i {
          assert rest[u] == idx[u + 1];
        }
      }
      assert Quiet(N, next, rest) && Distinct(rest) by {
        forall t | 0 <= t < |rest| ensures rest[t] == idx[t + 1] { }
      }
      QuietDeposit(N, next, rest, p);
      var r := Deposit(sq, idx, p);
      forall k | 0 <= k < |r| ensures r[k] == (if k in idx then Square(p, sq[k].spots + 1) else sq[k]) {
        assert k in idx <==> k == i || k in rest;
      }
    }
  }

  /** The loop of jump over the squares listed in idx when none of them
      overflows, on an N x N board whose counters are c: while c shows no
      winner, each listed square in turn gets one more spot and owner p,
      and c moves that square from its old owner to p; once c shows a
      winner, jumpSet leaves everything as it is. The result is the board
      and the counters. */
  function QuietSpread(N: int, sq: seq<Square>, c: Counts, idx: seq<int>, p: Side): (r: (seq<Square>, Counts))
    ensures |r.0| == |sq| && r.1.Sum() == c.Sum()
    decreases |idx|
  {
    if idx == [] || WinnerOf(N * N, c).Some? then (sq, c)
    else if 0 <= idx[0] < |sq| then
      QuietSpread(N, sq[idx[0] := Square(p, sq[idx[0]].spots + 1)], Shift(c, p, sq[idx[0]].side), idx[1..], p)
    else QuietSpread(N, sq, c, idx[1..], p)
  }

  /** A quiet run that ends with no winner made every deposit: its board is
      Deposit's; and a run that starts with a winner changes nothing. */
  lemma {:induction false} QuietSpreadDeposits(N: int, sq: seq<Square>, c: Counts, idx: seq<int>, p: Side)
    ensures WinnerOf(N * N, QuietSpread(N, sq, c, idx, p).1) == None ==>
      QuietSpread(N, sq, c, idx, p).0 == Deposit(sq, idx, p)
    ensures WinnerOf(N * N, c).Some? ==> QuietSpread(N, sq, c, idx, p) == (sq, c)
    decreases |idx|
  {
    if idx != [] && WinnerOf(N * N, c) == None {
      if 0 <= idx[0] < |sq| {
        QuietSpreadDeposits(N, sq[idx[0] := Square(p, sq[idx[0]].spots + 1)], Shift(c, p, sq[idx[0]].side), idx[1..], p);
      } else {
        QuietSpreadDeposits(N, sq, c, idx[1..], p);
      }
    }
  }

  /** One pass of the quiet loop: jumpSet on the first listed square either
      changed nothing (the counters already show a winner) or made that
      deposit; the rest of the run goes on from there. */
  lemma QuietSpreadStep(N: int, sq: seq<Square>, c: Counts, after: seq<Square>, c': Counts, idx: seq<int>, p: Side)
    requires idx != [] && 0 <= idx[0] < |sq|
    requires WinnerOf(N * N, c).Some? ==> after == sq && c' == c
    requires WinnerOf(N * N, c) == None ==>
      after == sq[idx[0] := Square(p, sq[idx[0]].spots + 1)] && c' == Shift(c, p, sq[idx[0]].side)
    ensures QuietSpread(N, after, c', idx[1..], p) == QuietSpread(N, sq, c, idx, p)
  {
    if WinnerOf(N * N, c).Some? {
      QuietSpreadDeposits(N, sq, c, idx[1..], p);
    }
  }

  /** What jump(S) keeps, read back from the board before S released its
      spots: the loop's results on the released board carry over to the
      board jump started from. */
  lemma ReleaseThenSpread(N: int, start: seq<Square>, released: seq<Square>, final: seq<Square>, S: int,
                          done: bool, open: bool, c: Counts, fc: Counts)
    requires N > 1 && ExistsSq(N, S) && |start| == N * N
    requires released == start[S := Square(start[S].side, start[S].spots - NeighborCount(N, S))]
    requires Touched(released, final, start[S].side)
    requires done && open ==> Total(final) == Total(released) + NeighborCount(N, S)
    requires done && Settled(N, released) ==> Settled(N, final)
    requires Quiet(N, released, NeighborList(N, S)) && Distinct(NeighborList(N, S)) ==>
      done && (final, fc) == QuietSpread(N, released, c, NeighborList(N, S), start[S].side)
    ensures Touched(start, final, start[S].side)
    ensures done && open ==> Total(final) == Total(start)
    ensures done && SettledExcept(N, start, S) && start[S].spots == NeighborCount(N, S) + 1 ==> Settled(N, final)
    ensures Quiet(N, start, NeighborList(N, S)) ==>
      done && (final, fc) == QuietSpread(N, start[S := Square(start[S].side, start[S].spots - NeighborCount(N, S))],
                                         c, NeighborList(N, S), start[S].side)
  {
    TotalUpdate(start, S, released[S]);
    if Quiet(N, start, NeighborList(N, S)) {
      ReleaseQuiet(N, start, S, released[S]);
    }
  }

  /** jump(n) run right after setSquare put num spots of player on n: what
      it keeps, read back from the board before the set. */
  lemma PlaceThenJump(N: int, before: seq<Square>, placed: seq<Square>, final: seq<Square>, n: int,
                      player: Side, num: int, done: bool, c: Counts, fc: Counts)
    requires N > 1 && ExistsSq(N, n) && |before| == N * N
    requires placed == before[n := Square(player, num)]
    requires Touched(placed, final, player)
    requires done && SettledExcept(N, placed, n) && num == NeighborCount(N, n) + 1 ==> Settled(N, final)
    requires Quiet(N, placed, NeighborList(N, n)) ==>
      done && (final, fc) == QuietSpread(N, placed[n := Square(placed[n].side, placed[n].spots - NeighborCount(N, n))],
                                         c, NeighborList(N, n), placed[n].side)
    ensures Touched(before, final, player)
    ensures done && SettledExcept(N, before, n) && num == NeighborCount(N, n) + 1 ==> Settled(N, final)
    ensures Quiet(N, before, NeighborList(N, n)) ==>
      done && (final, fc) == QuietSpread(N, before[n := Square(player, num - NeighborCount(N, n))],
                                         c, NeighborList(N, n), player)
  {
    if Quiet(N, before, NeighborList(N, n)) {
      ReleaseQuiet(N, before, n, Square(player, num));
      assert placed[n := Square(player, num - NeighborCount(N, n))]
          == before[n := Square(player, num - NeighborCount(N, n))];
    }
  }

  /** The neighbours of S are listed once each, and releasing the spots of S
      leaves them as quiet as they were. */
  lemma ReleaseQuiet(N: int, sq: seq<Square>, S: int, x: Square)
    requires N > 1 && ExistsSq(N, S) && |sq| == N * N
    requires Quiet(N, sq, NeighborList(N, S))
    ensures Distinct(NeighborList(N, S)) && Quiet(N, sq[S := x], NeighborList(N, S))
  {
    NeighborListExact(N, S);
    NeighborListInRange(N, S);
  }


  /** The squares of a freshly initialised board of n squares. */
  function FreshSquares(n: nat): (sq: seq<Square>)
    ensures |sq| == n && forall i :: 0 <= i < n ==> sq[i] == Fresh
  {
    seq(n, _ => Fresh)
  }

  /** A fresh board is all white with one spot per square: its counters
      (N*N, 0, 0) and its spot counter N*N describe it exactly. */
  lemma {:induction false} FreshCounts(n: nat)
    ensures CountsOf(FreshSquares(n)) == Counts(n, 0, 0)
    ensures Total(FreshSquares(n)) == n
  {
    if n > 0 {
      FreshCounts(n - 1);
      assert FreshSquares(n)[..n - 1] == FreshSquares(n - 1);
    }
  }

  /** A fresh board of side N > 1 is settled. */
  lemma FreshSettled(N: int)
    requires N > 1
    ensures Settled(N, FreshSquares(N * N))
  {
    forall i | 0 <= i < N * N ensures FreshSquares(N * N)[i].spots <= NeighborCount(N, i) {
      assert ExistsSq(N, i);
    }
  }

  /** An array of n fresh squares, filled one by one as boardIntialize does;
      until then every entry holds the empty white square. */
  method NewFreshArray(n: nat) returns (a: array<Square>)
    ensures fresh(a) && a[..] == FreshSquares(n)
  {
    a := new Square[n](_ => Square(White, 0));
    for i := 0 to n
      invariant forall j :: 0 <= j < i ==> a[j] == Fresh
    {
      a[i] := Fresh;
    }
  }

  class Board {
    var size: int
    var board: array<Square>
    var white: int
    var red: int
    var blue: int
    var spots: int
    var history: seq<GameState>

    /** The invariant every public operation keeps. */
    ghost predicate Valid()
      reads this
    {
      && size > 1
      && board.Length == size * size
      && white + red + blue == size * size
      && forall h :: h in history ==> |h.squares| == size * size && h.counts.Sum() == size * size
    }

    function Counters(): Counts
      reads this
    {
      Counts(white, red, blue)
    }

    /** The owner counters describe the squares exactly. */
    ghost predicate CountsExact()
      reads this, board
    {
      Counters() == CountsOf(board[..])
    }

    /** The spot counter is the number of spots on the squares. */
    ghost predicate SpotsExact()
      reads this, board
    {
      spots == Total(board[..])
    }

    /** Board(N): an N x N board in its initial configuration. */
    constructor (N: int)
      requires N > 1
      ensures Valid() && fresh(board)
      ensures size == N && board[..] == FreshSquares(N * N)
      ensures Counters() == Counts(N * N, 0, 0) && spots == N * N && history == []
      ensures CountsExact() && SpotsExact() && Settled(N, board[..])
    {
      var a := NewFreshArray(N * N);
      size := N;
      board := a;
      white, red, blue := N * N, 0, 0;
      spots := N * N;
      history := [];
      new;
      FreshCounts(N * N);
      FreshSettled(N);
    }

    /** Board(): the default 6 x 6 board. */
    constructor Default()
      ensures Valid() && fresh(board)
      ensures size == 6 && board[..] == FreshSquares(36)
      ensures Counters() == Counts(36, 0, 0) && spots == 36 && history == []
    {
      var a := NewFreshArray(36);
      size := 6;
      board := a;
      white, red, blue := 36, 0, 0;
      spots := 36;
      history := [];
    }

    /** Board(N) with its size check: N <= 1 raises the exception. */
    static method Create(N: int) returns (r: Result<Board, GameError>)
      ensures r.Err? <==> N <= 1
      ensures r.Err? ==> r.error == BadSize
      ensures r.Ok? ==> fresh(r.value) && fresh(r.value.board) && r.value.Valid()
      ensures r.Ok? ==> r.value.size == N && r.value.board[..] == FreshSquares(N * N)
      ensures r.Ok? ==> r.value.Counters() == Counts(N * N, 0, 0) && r.value.spots == N * N
      ensures r.Ok? ==> r.value.history == []
    {
      if N <= 1 {
        r := Err(BadSize);
      } else {
        var b := new Board(N);
        r := Ok(b);
      }
    }

    /** Board(board0): a board with board0's contents and an empty history. */
    constructor FromBoard(board0: Board)
      requires board0.Valid()
      ensures Valid() && fresh(board)
      ensures size == board0.size && board[..] == board0.board[..]
      ensures Counters() == board0.Counters() && spots == board0.spots && history == []
    {
      size := board0.size;
      var a := new Square[board0.board.Length](_ => Fresh);
      for i := 0 to a.Length
        invariant forall j :: 0 <= j < i ==> a[j] == board0.board[j]
      {
        a[i] := board0.board[i];
      }
      board := a;
      white, red, blue := board0.white, board0.red, board0.blue;
      spots := board0.spots;
      history := [];
    }

    /** clear(N): reinitialise to a fresh N x N board with no history. */
    method Clear(N: int)
      requires Valid() && N > 1
      modifies this
      ensures Valid() && fresh(board)
      ensures size == N && board[..] == FreshSquares(N * N)
      ensures Counters() == Counts(N * N, 0, 0) && spots == N * N && history == []
      ensures CountsExact() && SpotsExact() && Settled(N, board[..])
    {
      size := N;
      board := NewFreshArray(N * N);
      white, red, blue := N * N, 0, 0;
      spots := N * N;
      history := [];
      FreshCounts(N * N);
      FreshSettled(N);
    }

    /** copy(other): adopt other's squares, counters and size; empty the history. */
    method Copy(other: Board)
      requires Valid() && other.Valid() && other != this
      modifies this
      ensures Valid() && fresh(board)
      ensures size == other.size && board[..] == other.board[..]
      ensures Counters() == other.Counters() && spots == other.spots && history == []
    {
      var a := new Square[other.board.Length](_ => Fresh);
      for i := 0 to a.Length
        invariant forall j :: 0 <= j < i ==> a[j] == other.board[j]
      {
        a[i] := other.board[i];
      }
      board := a;
      white, red, blue := other.white, other.red, other.blue;
      spots := other.spots;
      size := other.size;
      history := [];
    }

    /** internalCopy(other): adopt other's squares and counters in place,
        keeping the history; both boards have the same size. */
    method InternalCopy(other: Board)
      requires Valid() && other.Valid() && other.size == size
      modifies board, this`white, this`red, this`blue, this`spots
      ensures Valid() && board == old(board) && history == old(history)
      ensures board[..] == old(other.board[..])
      ensures Counters() == old(other.Counters()) && spots == old(other.spots)
    {
      var n := board.Length;
      for i := 0 to n
        invariant forall j :: 0 <= j < i ==> board[j] == old(other.board[j])
        invariant forall j :: i <= j < n ==> other.board[j] == old(other.board[j])
        invariant Counters() == old(Counters()) && spots == old(spots)
        invariant other.Counters() == old(other.Counters()) && other.spots == old(other.spots)
      {
        board[i] := other.board[i];
      }
      white, red, blue := other.white, other.red, other.blue;
      spots := other.spots;
    }

    function NumSquares(): (n: int)
      reads this
      requires Valid()
      ensures n == board.Length
    {
      size * size
    }

    /** get(n): the square numbered n, which get(r, c) finds at row(n), col(n). */
    function Get(n: int): (s: Square)
      reads this, board
      requires Valid() && 0 <= n < board.Length
      ensures GetAt(RowOf(size, n), ColOf(size, n)) == Ok(s)
    {
      IndexToCoords(size, n);
      board[n]
    }

    /** get(r, c): the square at row r, column c, or sqNum's exception. */
    function GetAt(r: int, c: int): (s: Result<Square, GameError>)
      reads this, board
      requires Valid()
      ensures s.Ok? <==> ExistsAt(size, r, c)
      ensures s.Ok? ==> s.value == board[Index(size, r, c)]
      ensures s.Err? ==> s.error == NoIndex
    {
      var n := SqNum(size, r, c);
      if n.Err? then Err(n.error) else Ok(board[n.value])
    }

    /** whoseMove(): the side to move, by the parity of spots + N. */
    function WhoseMove(): (s: Side)
      reads this
      ensures s != White
      ensures s == Red <==> (spots + size) % 2 == 0
    {
      Turn(spots, size)
    }

    /** getWinner(): the side owning all N*N squares by the counters, if any. */
    function Winner(): (w: Option<Side>)
      reads this
      ensures w != Some(White)
      ensures w == Some(Blue) <==> blue == size * size
      ensures w == Some(Red) <==> red == size * size && blue != size * size
    {
      WinnerOf(size * size, Counters())
    }

    /** numOfSide(s): the counter of side s; with exact counters, the number
        of squares s owns. */
    function NumOfSide(s: Side): (k: int)
      reads this, board
      requires Valid()
      ensures CountsExact() ==> k == CountOf(board[..], s)
    {
      Counters().Of(s)
    }

    /** isLegal(player): player is to move and nobody has won. */
    function IsLegal(player: Side): (ok: bool)
      reads this
      ensures ok ==> player != White && player == WhoseMove()
      ensures Winner().Some? ==> !ok
      ensures Winner() == None && player == WhoseMove() ==> ok
    {
      Legal(player, WhoseMove(), Winner())
    }

    /** isLegal(player, n): IsLegal(player) and square n is white or player's;
        like the source's `&&`, square n is read only when the player may move. */
    function IsLegalAt(player: Side, n: int): (ok: bool)
      reads this, board
      requires Valid() && (IsLegal(player) ==> 0 <= n < board.Length)
      ensures !IsLegal(player) ==> !ok
      ensures ok ==> IsLegal(player) && board[n].side != Turn(spots + 1, size)
      ensures IsLegal(player) ==> (ok <==> board[n].side != Turn(spots + 1, size))
    {
      IsLegal(player) && (board[n].side == player || board[n].side == White)
    }

    /** isLegal(player, r, c): IsLegalAt at sqNum(r, c), or sqNum's exception. */
    function IsLegalRC(player: Side, r: int, c: int): (ok: Result<bool, GameError>)
      reads this, board
      requires Valid()
      ensures ok.Err? <==> !ExistsAt(size, r, c)
      ensures ok.Ok? ==> (ok.value <==> IsLegalAt(player, Index(size, r, c)))
    {
      var n := SqNum(size, r, c);
      if n.Err? then Err(n.error) else Ok(IsLegalAt(player, n.value))
    }

    /** colorCount(newSide, oldSide): move one unit of owner count from
        oldSide to newSide; returns newSide's count. */
    method ColorCount(newSide: Side, oldSide: Side) returns (count: int)
      modifies this`white, this`red, this`blue
      ensures Counters() == Shift(old(Counters()), newSide, oldSide)
      ensures count == Counters().Of(newSide)
    {
      match newSide
      case White =>
        if oldSide == Red {
          red, white := red - 1, white + 1;
        } else if oldSide == Blue {
          blue, white := blue - 1, white + 1;
        }
        count := white;
      case Red =>
        if oldSide == White {
          white, red := white - 1, red + 1;
        } else if oldSide == Blue {
          blue, red := blue - 1, red + 1;
        }
        count := red;
      case Blue =>
        if oldSide == Red {
          red, blue := red - 1, blue + 1;
        } else if oldSide == White {
          white, blue := white - 1, blue + 1;
        }
        count := blue;
    }

    /** increaseSpots(n, newSpots): raise the spot counter by the change that
        setting square n to newSpots makes; newSpots <= 0 is refused. */
    method IncreaseSpots(n: int, newSpots: int) returns (res: Outcome<GameError>)
      requires 0 <= n < board.Length
      modifies this`spots
      ensures newSpots <= 0 ==> res == Fail(BadSetValue) && spots == old(spots)
      ensures newSpots > 0 ==> res == Pass && spots == old(spots) + newSpots - board[n].spots
    {
      if newSpots <= 0 {
        res := Fail(BadSetValue);
      } else {
        spots := spots + (newSpots - board[n].spots);
        res := Pass;
      }
    }

    /** markUndo(): push a snapshot of the current squares and counters. */
    method MarkUndo()
      requires Valid()
      modifies this`history
      ensures Valid()
      ensures history == old(history) + [GameState(board[..], Counters(), spots)]
    {
      history := history + [GameState(board[..], Counters(), spots)];
    }

    /** The subtraction half of neighborJumpIndex(curr): square curr gives
        up one spot per neighbour and keeps its owner; the neighbours are
        returned in the board's order. */
    method ReleaseSpots(curr: int) returns (nbrs: seq<int>)
      requires Valid() && 0 <= curr < board.Length
      modifies board
      ensures nbrs == NeighborList(size, curr)
      ensures board[..] == old(board[..])[curr := Square(old(board[curr].side), old(board[curr].spots) - |nbrs|)]
    {
      nbrs := NeighborList(size, curr);
      board[curr] := Square(board[curr].side, board[curr].spots - |nbrs|);
    }

    /** internalSet(n, num, player): square n becomes (player, num); if that
        is more spots than it has neighbours, it jumps. The cascade is cut
        off, with done false, once it nests deeper than fuel. */
    method InternalSet(n: int, num: int, player: Side, fuel: nat) returns (done: bool)
      requires Valid() && 0 <= n < board.Length
      modifies this, board
      decreases fuel, 1
      ensures Valid() && size == old(size) && board == old(board)
      ensures spots == old(spots) && history == old(history)
      ensures old(Winner()).Some? ==> Counters() == old(Counters())
      ensures Touched(old(board[..]), board[..], player) && board[n].side == player
      ensures num <= NeighborCount(size, n) ==>
        done && board[..] == old(board[..])[n := Square(player, num)] && Counters() == old(Counters())
      ensures Drift(Counters(), board[..]) == Drift(old(Counters()), old(board[..])[n := Square(player, num)])
      ensures CountsOf(old(board[..])[n := Square(player, num)]) == old(Counters()) ==> CountsExact()
      ensures done && Winner() == None ==>
        Total(board[..]) == old(Total(board[..])) - old(board[n].spots) + num
      ensures done && SettledExcept(size, old(board[..]), n) && num <= NeighborCount(size, n) + 1 ==>
        Settled(size, board[..])
      ensures done && Winner() == None && num > NeighborCount(size, n) ==>
        OwnedBy(board[..], NeighborList(size, n), player)
      ensures fuel > 0 && num > NeighborCount(size, n) && Quiet(size, old(board[..]), NeighborList(size, n)) ==>
        done && (board[..], Counters())
                == QuietSpread(size, old(board[..])[n := Square(player, num - NeighborCount(size, n))],
                               old(Counters()), NeighborList(size, n), player)
    {
      ghost var before := board[..];
      board[n] := Square(player, num);
      ghost var placed := board[..];
      assert placed == before[n := Square(player, num)];
      TotalUpdate(before, n, Square(player, num));
      if num > NeighborCount(size, n) {
        if fuel == 0 {
          done := false;
        } else {
          done := Jump(n, fuel - 1);
          PlaceThenJump(size, before, placed, board[..], n, player, num, done, old(Counters()), Counters());
        }
      } else {
        done := true;
      }
    }

    /** jump(S): the overfull square S gives one spot to each neighbour in
        the board's order, each deposit passing through jumpSet with S's
        owner; a neighbour made overfull jumps before the next deposit. */
    method Jump(S: int, fuel: nat) returns (done: bool)
      requires Valid() && 0 <= S < board.Length
      modifies this, board
      decreases fuel, 5
      ensures Valid() && size == old(size) && board == old(board)
      ensures spots == old(spots) && history == old(history)
      ensures old(Winner()).Some? ==> Counters() == old(Counters())
      ensures Touched(old(board[..]), board[..], old(board[S].side)) && board[S].side == old(board[S].side)
      ensures Drift(Counters(), board[..]) == old(Drift(Counters(), board[..]))
      ensures old(CountsExact()) ==> CountsExact()
      ensures done && Winner() == None ==> Total(board[..]) == old(Total(board[..]))
      ensures done && Winner() == None ==> OwnedBy(board[..], NeighborList(size, S), old(board[S].side))
      ensures done && SettledExcept(size, old(board[..]), S) && old(board[S].spots) == NeighborCount(size, S) + 1 ==>
        Settled(size, board[..])
      ensures Quiet(size, old(board[..]), NeighborList(size, S)) ==>
        done && (board[..], Counters()) == QuietSpread(size,
          old(board[..])[S := Square(old(board[S].side), old(board[S].spots) - NeighborCount(size, S))],
          old(Counters()), NeighborList(size, S), old(board[S].side))
    {
      ghost var start := board[..];
      var nbrs := ReleaseSpots(S);
      assert forall t :: 0 <= t < |nbrs| ==> 0 <= nbrs[t] < board.Length by {
        NeighborListInRange(size, S);
      }
      ghost var released := board[..];
      assert released == start[S := Square(start[S].side, start[S].spots - NeighborCount(size, S))];
      DriftKeep(Counters(), start, S, board[S]);
      done := Spread(S, nbrs, fuel);
      ReleaseThenSpread(size, start, released, board[..], S, done, Winner() == None, old(Counters()), Counters());
      DriftZero(old(Counters()), old(board[..]));
      DriftZero(Counters(), board[..]);
    }

    /** The loop of jump(S), once S has given up its spots: one jumpSet
        per neighbour in nbrs, each adding a spot of S's owner. */
    method Spread(S: int, nbrs: seq<int>, fuel: nat) returns (done: bool)
      requires Valid() && 0 <= S < board.Length
      requires forall t :: 0 <= t < |nbrs| ==> 0 <= nbrs[t] < board.Length
      modifies this, board
      decreases fuel, 4
      ensures Valid() && size == old(size) && board == old(board)
      ensures spots == old(spots) && history == old(history)
      ensures old(Winner()).Some? ==> Counters() == old(Counters())
      ensures Touched(old(board[..]), board[..], old(board[S].side)) && board[S].side == old(board[S].side)
      ensures Drift(Counters(), board[..]) == old(Drift(Counters(), board[..]))
      ensures done && Winner() == None ==> Total(board[..]) == old(Total(board[..])) + |nbrs|
      ensures done && Winner() == None ==> OwnedBy(board[..], nbrs, old(board[S].side))
      ensures done && old(Settled(size, board[..])) ==> Settled(size, board[..])
      ensures Quiet(size, old(board[..]), nbrs) && Distinct(nbrs) ==>
        done && (board[..], Counters()) == QuietSpread(size, old(board[..]), old(Counters()), nbrs, old(board[S].side))
    {
      ghost var start := board[..];
      ghost var p, w0, c0 := board[S].side, Winner(), Counters();
      ghost var d0 := Drift(c0, start);
      assert Quiet(size, start, nbrs) && Distinct(nbrs) ==> QuietSteps(size, start, nbrs, p) by {
        if Quiet(size, start, nbrs) && Distinct(nbrs) {
          QuietDeposit(size, start, nbrs, p);
        }
      }
      assert nbrs[0..] == nbrs;
      done := true;
      for j := 0 to |nbrs|
        invariant Valid() && size == old(size) && board == old(board)
        invariant spots == old(spots) && history == old(history)
        invariant w0.Some? ==> Counters() == c0
        invariant Touched(start, board[..], p) && board[S].side == p
        invariant Drift(Counters(), board[..]) == d0
        invariant done && Winner() == None ==> Total(board[..]) == Total(start) + j
        invariant done && Winner() == None ==> OwnedPrefix(board[..], nbrs, j, p)
        invariant done && Settled(size, start) ==> Settled(size, board[..])
        invariant QuietSteps(size, start, nbrs, p) ==>
          done && (Winner() == None ==> QuietSteps(size, board[..], nbrs[j..], p))
          && QuietSpread(size, board[..], Counters(), nbrs[j..], p) == QuietSpread(size, start, c0, nbrs, p)
      {
        done := SpreadStep(S, nbrs, j, fuel, done, start, c0);
      }
      assert nbrs[|nbrs|..] == [];
      if done && Winner() == None {
        OwnedAll(board[..], nbrs, p);
      }
    }

    /** One pass of the loop in `jump`: the neighbour nbrs[j] gets one more
        spot and the colour of S; done stays true while no cascade has been
        cut off. The clauses carry the loop's invariants from j to j + 1. */
    method SpreadStep(S: int, nbrs: seq<int>, j: int, fuel: nat, done: bool, ghost start: seq<Square>, ghost c0: Counts)
      returns (done': bool)
      requires Valid() && 0 <= S < board.Length && 0 <= j < |nbrs|
      requires forall t :: 0 <= t < |nbrs| ==> 0 <= nbrs[t] < board.Length
      requires Touched(start, board[..], board[S].side)
      requires done && Winner() == None ==> Total(board[..]) == Total(start) + j
      requires done && Winner() == None ==> OwnedPrefix(board[..], nbrs, j, board[S].side)
      requires done && Settled(size, start) ==> Settled(size, board[..])
      requires QuietSteps(size, start, nbrs, board[S].side) ==>
        done && (Winner() == None ==> QuietSteps(size, board[..], nbrs[j..], board[S].side))
        && QuietSpread(size, board[..], Counters(), nbrs[j..], board[S].side) == QuietSpread(size, start, c0, nbrs, board[S].side)
      modifies this, board
      decreases fuel, 3
      ensures Valid() && size == old(size) && board == old(board)
      ensures spots == old(spots) && history == old(history)
      ensures old(Winner()).Some? ==> Counters() == old(Counters())
      ensures Touched(start, board[..], old(board[S].side)) && board[S].side == old(board[S].side)
      ensures Drift(Counters(), board[..]) == old(Drift(Counters(), board[..]))
      ensures done' && Winner() == None ==> Total(board[..]) == Total(start) + j + 1
      ensures done' && Winner() == None ==> OwnedPrefix(board[..], nbrs, j + 1, old(board[S].side))
      ensures done' && Settled(size, start) ==> Settled(size, board[..])
      ensures QuietSteps(size, start, nbrs, old(board[S].side)) ==>
        done' && (Winner() == None ==> QuietSteps(size, board[..], nbrs[j + 1..], old(board[S].side)))
        && QuietSpread(size, board[..], Counters(), nbrs[j + 1..], old(board[S].side))
           == QuietSpread(size, start, c0, nbrs, old(board[S].side))
    {
      var i, p := nbrs[j], board[S].side;
      ghost var w1 := Winner();
      ghost var b1 := board[..];
      ghost var k1 := Counters();
      if QuietSteps(size, start, nbrs, p) {
        assert nbrs[j..][0] == i && nbrs[j..][1..] == nbrs[j + 1..];
      }
      var d := JumpSet(i, board[i].spots + 1, p, fuel);
      if QuietSteps(size, start, nbrs, p) {
        QuietSpreadStep(size, b1, k1, board[..], Counters(), nbrs[j..], p);
      }
      assert w1.Some? ==> Winner().Some?;
      if done && d && Winner() == None {
        OwnedStep(b1, board[..], p, nbrs, j);
      }
      done' := done && d;
    }

    method JumpSet(n: int, num: int, player: Side, fuel: nat) returns (done: bool)
      requires Valid() && 0 <= n < board.Length
      modifies this, board
      decreases fuel, 2
      ensures Valid() && size == old(size) && board == old(board)
      ensures spots == old(spots) && history == old(history)
      ensures old(Winner()).Some? ==> done && board[..] == old(board[..]) && Counters() == old(Counters())
      ensures Touched(old(board[..]), board[..], player)
      ensures old(Winner()) == None ==> board[n].side == player
      ensures old(Winner()) == None && num <= NeighborCount(size, n) ==>
        done && board[..] == old(board[..])[n := Square(player, num)]
        && Counters() == Shift(old(Counters()), player, old(board[n].side))
      ensures Drift(Counters(), board[..]) == old(Drift(Counters(), board[..]))
      ensures old(CountsExact()) ==> CountsExact()
      ensures done && Winner() == None ==>
        Total(board[..]) == old(Total(board[..])) - old(board[n].spots) + num
      ensures done && Settled(size, old(board[..])) && num <= NeighborCount(size, n) + 1 ==>
        Settled(size, board[..])
    {
      if Winner() == None {
        DriftShift(Counters(), board[..], n, Square(player, num));
        var _ := ColorCount(player, board[n].side);
        done := InternalSet(n, num, player, fuel);
        DriftZero(old(Counters()), old(board[..]));
        DriftZero(Counters(), board[..]);
      } else {
        done := true;
      }
    }

    /** set(r, c, num, player): unless the game is won, put num spots of
        player on square (r, c) and run the cascade. The spot and owner
        counters are updated before the undo snapshot is pushed, so the
        snapshot holds the squares before the move and the counters after
        this first step. */
    method Set(r: int, c: int, num: int, player: Side, fuel: nat) returns (res: Outcome<GameError>, done: bool)
      requires Valid()
      modifies this, board
      ensures Valid() && size == old(size) && board == old(board)
      ensures old(Winner()).Some? || res.Fail? ==>
        board[..] == old(board[..]) && Counters() == old(Counters())
        && spots == old(spots) && history == old(history)
      ensures old(Winner()).Some? ==> res == Pass
      ensures Drift(Counters(), board[..]) == old(Drift(Counters(), board[..]))
      ensures old(Winner()) == None && !ExistsAt(size, r, c) ==> res == Fail(NoIndex)
      ensures old(Winner()) == None && ExistsAt(size, r, c) && num <= 0 ==> res == Fail(BadSetValue)
      ensures old(Winner()) == None && SqNum(size, r, c).Ok? && num > 0 ==>
        var n := SqNum(size, r, c).value;
        && res == Pass
        && spots == old(spots) + num - old(board[n].spots)
        && history == old(history) + [GameState(old(board[..]), Shift(old(Counters()), player, old(board[n].side)), spots)]
        && Touched(old(board[..]), board[..], player) && board[n].side == player
        && (num <= NeighborCount(size, n) ==>
              done && board[..] == old(board[..])[n := Square(player, num)]
              && Counters() == Shift(old(Counters()), player, old(board[n].side)))
        && (old(CountsExact()) ==> CountsExact())
        && (old(SpotsExact()) && done && Winner() == None ==> SpotsExact())
        && (old(Settled(size, board[..])) && num <= NeighborCount(size, n) + 1 && done ==> Settled(size, board[..]))
        && (num > NeighborCount(size, n) && done && Winner() == None ==>
              OwnedBy(board[..], NeighborList(size, n), player))
        && (fuel > 0 && num > NeighborCount(size, n) && Quiet(size, old(board[..]), NeighborList(size, n)) ==>
              done && (board[..], Counters())
                      == QuietSpread(size, old(board[..])[n := Square(player, num - NeighborCount(size, n))],
                                     Shift(old(Counters()), player, old(board[n].side)), NeighborList(size, n), player))
    {
      done := true;
      if Winner() == None {
        var sq := SqNum(size, r, c);
        if sq.Err? {
          res := Fail(sq.error);
          return;
        }
        var n := sq.value;
        res := IncreaseSpots(n, num);
        if res.Fail? {
          return;
        }
        assert board[..] == old(board[..]) && Counters() == old(Counters());
        done := Place(n, num, player, fuel);
      } else {
        res := Pass;
      }
    }

    /** The part of set(r, c, num, player) after the spot counter has
        moved: colorCount, markUndo and internalSet on square n. */
    method Place(n: int, num: int, player: Side, fuel: nat) returns (done: bool)
      requires Valid() && 0 <= n < board.Length
      modifies this, board
      ensures Valid() && size == old(size) && board == old(board) && spots == old(spots)
      ensures history == old(history) + [GameState(old(board[..]), Shift(old(Counters()), player, old(board[n].side)), spots)]
      ensures Drift(Counters(), board[..]) == old(Drift(Counters(), board[..]))
      ensures Touched(old(board[..]), board[..], player) && board[n].side == player
      ensures num <= NeighborCount(size, n) ==>
        done && board[..] == old(board[..])[n := Square(player, num)]
        && Counters() == Shift(old(Counters()), player, old(board[n].side))
      ensures old(CountsExact()) ==> CountsExact()
      ensures done && Winner() == None ==> Total(board[..]) == old(Total(board[..])) - old(board[n].spots) + num
      ensures done && SettledExcept(size, old(board[..]), n) && num <= NeighborCount(size, n) + 1 ==>
        Settled(size, board[..])
      ensures done && Winner() == None && num > NeighborCount(size, n) ==>
        OwnedBy(board[..], NeighborList(size, n), player)
      ensures fuel > 0 && num > NeighborCount(size, n) && Quiet(size, old(board[..]), NeighborList(size, n)) ==>
        done && (board[..], Counters())
                == QuietSpread(size, old(board[..])[n := Square(player, num - NeighborCount(size, n))],
                               Shift(old(Counters()), player, old(board[n].side)), NeighborList(size, n), player)
    {
      ghost var b0, c0 := board[..], Counters();
      ghost var snap := GameState(b0, Shift(c0, player, b0[n].side), spots);
      DriftShift(c0, b0, n, Square(player, num));
      var _ := ColorCount(player, board[n].side);
      MarkUndo();
      assert history == old(history) + [snap] && board[..] == b0;
      done := InternalSet(n, num, player, fuel);
      assert Drift(Counters(), board[..]) == Drift(c0, b0);
      DriftZero(c0, b0);
      DriftZero(Counters(), board[..]);
    }

    /** addSpot(player, r, c): set(r, c, spots + 1, player); a bad (r, c)
        raises sqNum's exception even once the game is won. */
    method AddSpot(player: Side, r: int, c: int, fuel: nat) returns (res: Outcome<GameError>, done: bool)
      requires Valid()
      modifies this, board
      ensures Valid() && size == old(size) && board == old(board)
      ensures !ExistsAt(size, r, c) ==> res == Fail(NoIndex)
      ensures !ExistsAt(size, r, c) || old(Winner()).Some? ==>
        board[..] == old(board[..]) && Counters() == old(Counters())
        && spots == old(spots) && history == old(history)
      ensures ExistsAt(size, r, c) && old(Winner()).Some? ==> res == Pass
      ensures Drift(Counters(), board[..]) == old(Drift(Counters(), board[..]))
      ensures SqNum(size, r, c).Ok? && old(Winner()) == None && old(board[SqNum(size, r, c).value].spots) < 0 ==>
        res == Fail(BadSetValue)
        && board[..] == old(board[..]) && Counters() == old(Counters())
        && spots == old(spots) && history == old(history)
      ensures SqNum(size, r, c).Ok? && old(Winner()) == None && old(board[SqNum(size, r, c).value].spots) >= 0 ==>
        var n := SqNum(size, r, c).value;
        var num := old(board[n].spots) + 1;
        && res == Pass
        && spots == old(spots) + 1 && WhoseMove() != old(WhoseMove())
        && history == old(history) + [GameState(old(board[..]), Shift(old(Counters()), player, old(board[n].side)), spots)]
        && Touched(old(board[..]), board[..], player) && board[n].side == player
        && (num <= NeighborCount(size, n) ==>
              board[..] == old(board[..])[n := Square(player, num)]
              && Counters() == Shift(old(Counters()), player, old(board[n].side)))
        && (old(CountsExact()) ==> CountsExact())
        && (old(SpotsExact()) && done && Winner() == None ==> SpotsExact())
        && (old(Settled(size, board[..])) && done ==> Settled(size, board[..]))
        && (num > NeighborCount(size, n) && done && Winner() == None ==>
              OwnedBy(board[..], NeighborList(size, n), player))
        && (fuel > 0 && num > NeighborCount(size, n) && Quiet(size, old(board[..]), NeighborList(size, n)) ==>
              done && (board[..], Counters())
                      == QuietSpread(size, old(board[..])[n := Square(player, num - NeighborCount(size, n))],
                                     Shift(old(Counters()), player, old(board[n].side)), NeighborList(size, n), player))
    {
      var sq := GetAt(r, c);
      if sq.Err? {
        res, done := Fail(sq.error), true;
        return;
      }
      CoordsToIndex(size, r, c);
      ghost var n := Index(size, r, c);
      assert SqNum(size, r, c) == Ok(n) && sq.value == board[n];
      assert old(Settled(size, board[..])) ==> sq.value.spots <= NeighborCount(size, n);
      TurnAlternates(spots, size);
      res, done := Set(r, c, sq.value.spots + 1, player, fuel);
    }

    /** addSpot(player, n): addSpot(player, row(n), col(n)); a bad n raises
        row's exception. */
    method AddSpotAt(player: Side, n: int, fuel: nat) returns (res: Outcome<GameError>, done: bool)
      requires Valid()
      modifies this, board
      ensures Valid() && size == old(size) && board == old(board)
      ensures !ExistsSq(size, n) ==> res == Fail(NoRow)
      ensures ExistsSq(size, n) && old(Winner()).Some? ==> res == Pass
      ensures !ExistsSq(size, n) || old(Winner()).Some? ==>
        board[..] == old(board[..]) && Counters() == old(Counters())
        && spots == old(spots) && history == old(history)
      ensures Drift(Counters(), board[..]) == old(Drift(Counters(), board[..]))
      ensures ExistsSq(size, n) && old(Winner()) == None && old(board[n].spots) < 0 ==>
        res == Fail(BadSetValue)
        && board[..] == old(board[..]) && Counters() == old(Counters())
        && spots == old(spots) && history == old(history)
      ensures ExistsSq(size, n) && old(Winner()) == None && old(board[n].spots) >= 0 ==>
        var num := old(board[n].spots) + 1;
        && res == Pass
        && spots == old(spots) + 1 && WhoseMove() != old(WhoseMove())
        && history == old(history) + [GameState(old(board[..]), Shift(old(Counters()), player, old(board[n].side)), spots)]
        && Touched(old(board[..]), board[..], player) && board[n].side == player
        && (num <= NeighborCount(size, n) ==>
              board[..] == old(board[..])[n := Square(player, num)]
              && Counters() == Shift(old(Counters()), player, old(board[n].side)))
        && (old(CountsExact()) ==> CountsExact())
        && (old(SpotsExact()) && done && Winner() == None ==> SpotsExact())
        && (old(Settled(size, board[..])) && done ==> Settled(size, board[..]))
        && (num > NeighborCount(size, n) && done && Winner() == None ==>
              OwnedBy(board[..], NeighborList(size, n), player))
        && (fuel > 0 && num > NeighborCount(size, n) && Quiet(size, old(board[..]), NeighborList(size, n)) ==>
              done && (board[..], Counters())
                      == QuietSpread(size, old(board[..])[n := Square(player, num - NeighborCount(size, n))],
                                     Shift(old(Counters()), player, old(board[n].side)), NeighborList(size, n), player))
    {
      var row := Row(size, n);
      if row.Err? {
        res, done := Fail(row.error), true;
        return;
      }
      RowColRoundTrip(size, n);
      res, done := AddSpot(player, row.value, Col(size, n).value, fuel);
    }

    /** undo(): restore the latest snapshot and drop it; an empty history
        raises the exception. */
    method Undo() returns (res: Outcome<GameError>)
      requires Valid()
      modifies this
      ensures Valid() && size == old(size)
      ensures old(history) == [] ==>
        res == Fail(NoHistory) && board == old(board) && Counters() == old(Counters())
        && spots == old(spots) && history == old(history)
      ensures old(history) != [] ==>
        var last := old(history)[|old(history)| - 1];
        && res == Pass && fresh(board)
        && board[..] == last.squares && Counters() == last.counts && spots == last.spots
        && history == old(history)[..|old(history)| - 1]
    {
      if history == [] {
        res := Fail(NoHistory);
      } else {
        var prev := history[|history| - 1];
        assert prev in history;
        board := new Square[|prev.squares|](i requires 0 <= i < |prev.squares| => prev.squares[i]);
        white, red, blue := prev.counts.white, prev.counts.red, prev.counts.blue;
        spots := prev.spots;
        history := history[..|history| - 1];
        res := Pass;
      }
    }

    /** equals(other): the same number of squares and the same (spots,
        owner) at every index. */
    method Equals(other: Board) returns (eq: bool)
      requires Valid() && other.Valid()
      ensures eq <==> board.Length == other.board.Length && board[..] == other.board[..]
    {
      if NumSquares() != other.NumSquares() {
        eq := false;
      } else if this == other {
        eq := true;
      } else {
        eq := DeepCheck(other);
      }
    }

    /** deepCheck(other): compare the squares index by index. */
    method DeepCheck(other: Board) returns (eq: bool)
      requires board.Length == other.board.Length
      ensures eq <==> board[..] == other.board[..]
    {
      var n := board.Length;
      for i := 0 to n
        invariant forall j :: 0 <= j < i ==> board[j] == other.board[j]
      {
        if board[i].spots != other.board[i].spots || board[i].side != other.board[i].side {
          assert board[..][i] != other.board[..][i];
          return false;
        }
      }
      assert board[..] == other.board[..];
      return true;
    }

    /** toString(): the dump, built square by square; a row's line break and
        indent are written when its first square is reached. */
    method ToString() returns (text: string)
      requires Valid()
      ensures text == DumpText(size, board[..])
    {
      ghost var sq := board[..];
      var total := "===";
      var newRow := size;
      var i := 0;
      while i < board.Length
        invariant 0 <= i <= board.Length
        invariant 1 <= newRow <= size
        invariant i == 0 ==> newRow == size
        invariant i > 0 ==> newRow == LastRowLength(size, sq[..i])
        invariant total == "===" + RowsText(size, sq[..i])
      {
        ghost var before, t0 := sq[..i], total;
        RowsTextSnoc(size, before, board[i]);
        LastRowSnoc(size, before, board[i]);
        assert sq[..i + 1] == before + [board[i]];
        if newRow == size {
          total := total + "\n   ";
          newRow := 0;
        }
        total := total + Token(board[i]);
        assert total == t0 + Break(size, before) + Token(board[i]);
        DumpGrows(t0, RowsText(size, before), RowsText(size, sq[..i + 1]), Break(size, before), Token(board[i]));
        newRow := newRow + 1;
        i := i + 1;
      }
      assert sq[..i] == sq;
      text := total + "\n===";
    }

    /** addSpot followed by undo: the squares and the history are as before,
        but the snapshot was taken after increaseSpots and colorCount, so the
        spot counter stays one higher and the owner counters keep the target
        square's recolouring (and only that: the cascade's are undone). */
    method AddSpotThenUndo(player: Side, r: int, c: int, fuel: nat) returns (res: Outcome<GameError>)
      requires Valid()
      modifies this, board
      ensures Valid() && size == old(size)
      ensures SqNum(size, r, c).Ok? && old(Winner()) == None && old(board[SqNum(size, r, c).value].spots) < 0 ==>
        res == Fail(BadSetValue)
        && board[..] == old(board[..]) && Counters() == old(Counters())
        && spots == old(spots) && history == old(history)
      ensures SqNum(size, r, c).Ok? && old(Winner()) == None && old(board[SqNum(size, r, c).value].spots) >= 0 ==>
        var n := SqNum(size, r, c).value;
        && res == Pass
        && board[..] == old(board[..]) && history == old(history)
        && spots == old(spots) + 1
        && Counters() == Shift(old(Counters()), player, old(board[n].side))
    {
      var done;
      res, done := AddSpot(player, r, c, fuel);
      if res.Fail? {
        return;
      }
      res := Undo();
    }
  }
}
