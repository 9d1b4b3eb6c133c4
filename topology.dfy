/** Square numbering and grid topology of an N x N board.

    Squares are numbered row by row: row r (1-based) and column c (1-based)
    is square number (c - 1) + (r - 1) * N. */
module Topology {
  import opened Wrappers
  import opened Errors

  /** exists(r, c): row r and column c denote a square. */
  predicate ExistsAt(N: int, r: int, c: int)
  {
    1 <= r <= N && 1 <= c <= N
  }

  /** exists(s): s is a square number. */
  predicate ExistsSq(N: int, s: int)
  {
    0 <= s < N * N
  }

  /** The row arithmetic of row(n), without its range check. */
  function RowOf(N: int, n: int): int
    requires N > 0 && n >= 0
  {
    n / N + 1
  }

  /** The column arithmetic of col(n), without its range check. */
  function ColOf(N: int, n: int): int
    requires N > 0 && n >= 0
  {
    n % N + 1
  }

  /** The square-number arithmetic of sqNum(r, c), without its range check. */
  function Index(N: int, r: int, c: int): int
  {
    (c - 1) + (r - 1) * N
  }

  /** k * N is at least N for k >= 1 and N >= 0. */
  lemma MulAtLeast(k: int, N: int)
    requires k >= 1 && N >= 0
    ensures k * N >= N
  {
    assert k * N == (k - 1) * N + N;
    assert (k - 1) * N >= 0;
  }

  /** Multiplying by N >= 0 keeps the order. */
  lemma MulMono(a: int, b: int, N: int)
    requires a >= b && N >= 0
    ensures a * N >= b * N
  {
    if a > b {
      MulAtLeast(a - b, N);
      assert a * N == b * N + (a - b) * N;
    }
  }

  /** Euclidean division of q * N + m by N, for a remainder 0 <= m < N. */
  lemma DivMod(N: int, q: int, m: int)
    requires N > 0 && 0 <= m < N
    ensures (q * N + m) / N == q && (q * N + m) % N == m
  {
    var n := q * N + m;
    var d, e := n / N, n % N;
    assert d * N + e == q * N + m;
    assert (d - q) * N == m - e;
    if d > q {
      MulAtLeast(d - q, N);
    } else if d < q {
      MulAtLeast(q - d, N);
    }
  }

  /** Row and column of a square number built from (r, c) are r and c. */
  lemma {:induction false} CoordsToIndex(N: int, r: int, c: int)
    requires N > 0 && ExistsAt(N, r, c)
    ensures ExistsSq(N, Index(N, r, c))
    ensures RowOf(N, Index(N, r, c)) == r && ColOf(N, Index(N, r, c)) == c
  {
    DivMod(N, r - 1, c - 1);
    assert (r - 1) * N <= (N - 1) * N;
    assert (N - 1) * N + N == N * N;
  }

  /** Every square number is the square number of its own row and column. */
  lemma {:induction false} IndexToCoords(N: int, n: int)
    requires N > 0 && ExistsSq(N, n)
    ensures ExistsAt(N, RowOf(N, n), ColOf(N, n))
    ensures Index(N, RowOf(N, n), ColOf(N, n)) == n
  {
    var q := n / N;
    assert n == q * N + n % N;
    if q >= N {
      MulMono(q, N, N);
    }
  }

  /** row(n): the row of square n, or the exception for a bad number. */
  function Row(N: int, n: int): (r: Result<int, GameError>)
    requires N > 0
    ensures r.Ok? <==> ExistsSq(N, n)
    ensures r.Ok? ==> 1 <= r.value <= N
    ensures r.Err? ==> r.error == NoRow
  {
    if !ExistsSq(N, n) then Err(NoRow)
    else IndexToCoords(N, n); Ok(RowOf(N, n))
  }

  /** col(n): the column of square n, or the exception for a bad number. */
  function Col(N: int, n: int): (r: Result<int, GameError>)
    requires N > 0
    ensures r.Ok? <==> ExistsSq(N, n)
    ensures r.Ok? ==> 1 <= r.value <= N
    ensures r.Err? ==> r.error == NoColumn
  {
    if !ExistsSq(N, n) then Err(NoColumn)
    else IndexToCoords(N, n); Ok(ColOf(N, n))
  }

  /** sqNum(r, c): the number of square (r, c), or the exception for a bad pair. */
  function SqNum(N: int, r: int, c: int): (s: Result<int, GameError>)
    requires N > 0
    ensures s.Ok? <==> ExistsAt(N, r, c)
    ensures s.Ok? ==> ExistsSq(N, s.value) && s.value == Index(N, r, c)
    ensures s.Err? ==> s.error == NoIndex
  {
    if !ExistsAt(N, r, c) then Err(NoIndex)
    else CoordsToIndex(N, r, c); Ok(Index(N, r, c))
  }

  /** row(sqNum(r, c)) == r and col(sqNum(r, c)) == c for every square. */
  lemma {:induction false} SqNumRoundTrip(N: int, r: int, c: int)
    requires N > 0 && ExistsAt(N, r, c)
    ensures SqNum(N, r, c).Ok?
    ensures Row(N, SqNum(N, r, c).value) == Ok(r)
    ensures Col(N, SqNum(N, r, c).value) == Ok(c)
  {
    CoordsToIndex(N, r, c);
  }

  /** sqNum(row(n), col(n)) == n for every square number. */
  lemma {:induction false} RowColRoundTrip(N: int, n: int)
    requires N > 0 && ExistsSq(N, n)
    ensures Row(N, n).Ok? && Col(N, n).Ok?
    ensures SqNum(N, Row(N, n).value, Col(N, n).value) == Ok(n)
  {
    IndexToCoords(N, n);
  }

  /** neighbors(r, c): how many of the four orthogonal squares exist; on a
      board larger than 1 x 1 every square has at least two. */
  function Neighbors(N: int, r: int, c: int): (k: int)
    ensures 0 <= k <= 4
    ensures N > 1 && ExistsAt(N, r, c) ==> 2 <= k
  {
    (if r > 1 then 1 else 0) + (if c > 1 then 1 else 0)
    + (if r < N then 1 else 0) + (if c < N then 1 else 0)
  }

  /** neighbors(n) for a square number n: neighbors(row(n), col(n)). */
  function NeighborCount(N: int, n: int): (k: int)
    requires N > 0 && n >= 0
    ensures 0 <= k <= 4
    ensures N > 1 && ExistsSq(N, n) ==> 2 <= k
  {
    assert ExistsSq(N, n) ==> ExistsAt(N, RowOf(N, n), ColOf(N, n)) by {
      if ExistsSq(N, n) {
        IndexToCoords(N, n);
      }
    }
    Neighbors(N, RowOf(N, n), ColOf(N, n))
  }

  predicate IsCorner(N: int, r: int, c: int)
  {
    (r == 1 || r == N) && (c == 1 || c == N)
  }

  predicate IsInterior(N: int, r: int, c: int)
  {
    1 < r < N && 1 < c < N
  }

  /** On a board of side N > 1, a square has 2 neighbours at a corner, 4 inside
      and 3 on the rest of the border. */
  lemma NeighborsByPosition(N: int, r: int, c: int)
    requires N > 1 && ExistsAt(N, r, c)
    ensures IsCorner(N, r, c) <==> Neighbors(N, r, c) == 2
    ensures IsInterior(N, r, c) <==> Neighbors(N, r, c) == 4
    ensures !IsCorner(N, r, c) && !IsInterior(N, r, c) <==> Neighbors(N, r, c) == 3
  {
  }

  /** The neighbour list of neighborJumpIndex(curr), or the exception it
      raises: the range check of row(curr), then the enumeration. */
  function NeighborJumpIndex(N: int, n: int): (r: Result<seq<int>, GameError>)
    requires N > 0
    ensures !ExistsSq(N, n) ==> r == Err(NoRow)
    ensures ExistsSq(N, n) && r.Err? ==> r.error == BadNeighborCount
    ensures r.Ok? ==> 2 <= |r.value| <= 4 && forall j :: 0 <= j < |r.value| ==> r.value[j] != n
  {
    if !ExistsSq(N, n) then Err(NoRow)
    else Enumerate(N, n, RowOf(N, n), ColOf(N, n))
  }

  /** The case analysis of neighborJumpIndex for square n at row r, column c. */
  function Enumerate(N: int, n: int, r: int, c: int): Result<seq<int>, GameError>
  {
    var k := Neighbors(N, r, c);
    if k == 4 then Ok([n - 1, n + 1, n - N, n + N])
    else if k == 3 then
      if r == 1 then Ok([n - 1, n + 1, n + N])
      else if r == N then Ok([n - 1, n + 1, n - N])
      else if c == 1 then Ok([n - N, n + N, n + 1])
      else if c == N then Ok([n - N, n + N, n - 1])
      else Err(BadNeighborCount)
    else if k == 2 then
      if r == 1 && c == 1 then Ok([n + 1, n + N])
      else if r == N && c == N then Ok([n - 1, n - N])
      else if r == 1 && c == N then Ok([n - 1, n + N])
      else if r == N && c == 1 then Ok([n + 1, n - N])
      else Err(BadNeighborCount)
    else Err(BadNeighborCount)
  }

  lemma EnumerateFails(N: int, n: int, r: int, c: int)
    requires N > 0 && ExistsAt(N, r, c)
    ensures Enumerate(N, n, r, c).Err? <==> N == 1
    ensures Enumerate(N, n, r, c).Ok? ==> |Enumerate(N, n, r, c).value| == Neighbors(N, r, c)
  {
  }

  lemma EnumerateFailsAt(N: int, n: int, r: int, c: int, e: Result<seq<int>, GameError>)
    requires N > 0 && n >= 0 && ExistsAt(N, r, c) && r == RowOf(N, n) && c == ColOf(N, n)
    requires e == Enumerate(N, n, r, c)
    ensures e.Err? <==> N == 1
    ensures e.Ok? ==> |e.value| == NeighborCount(N, n)
  {
    EnumerateFails(N, n, r, c);
  }

  /** neighborJumpIndex fails exactly for a bad square number or a board of side 1. */
  lemma {:induction false} NeighborJumpIndexFails(N: int, n: int)
    requires N > 0
    ensures NeighborJumpIndex(N, n).Err? <==> !ExistsSq(N, n) || N == 1
    ensures NeighborJumpIndex(N, n).Ok? ==> |NeighborJumpIndex(N, n).value| == NeighborCount(N, n)
  {
    if ExistsSq(N, n) {
      IndexToCoords(N, n);
      var r, c := RowOf(N, n), ColOf(N, n);
      assert NeighborJumpIndex(N, n) == Enumerate(N, n, r, c);
      EnumerateFailsAt(N, n, r, c, NeighborJumpIndex(N, n));
    } else {
      assert NeighborJumpIndex(N, n) == Err(NoRow);
    }
  }

  /** The neighbours of square n on a board of side N > 1, in the board's order. */
  function NeighborList(N: int, n: int): (l: seq<int>)
    requires N > 1 && ExistsSq(N, n)
    ensures |l| == NeighborCount(N, n)
    ensures NeighborJumpIndex(N, n) == Ok(l)
  {
    NeighborJumpIndexFails(N, n);
    NeighborJumpIndex(N, n).value
  }

  function Dist(a: int, b: int): nat
  {
    if a <= b then b - a else a - b
  }

  /** Squares a and b exist and share a side. */
  predicate Adjacent(N: int, a: int, b: int)
    requires N > 0
  {
    ExistsSq(N, a) && ExistsSq(N, b)
    && Dist(RowOf(N, a), RowOf(N, b)) + Dist(ColOf(N, a), ColOf(N, b)) == 1
  }

  /** Every listed neighbour is a square of the board other than n. */
  lemma NeighborListInRange(N: int, n: int)
    requires N > 1 && ExistsSq(N, n)
    ensures forall j :: 0 <= j < |NeighborList(N, n)| ==>
      ExistsSq(N, NeighborList(N, n)[j]) && NeighborList(N, n)[j] != n
  {
    NeighborListExact(N, n);
    forall j | 0 <= j < |NeighborList(N, n)|
      ensures ExistsSq(N, NeighborList(N, n)[j]) && NeighborList(N, n)[j] != n
    {
      assert NeighborList(N, n)[j] in NeighborList(N, n);
    }
  }

  /** Square numbers of the four orthogonal moves from (r, c). */
  lemma Steps(N: int, r: int, c: int)
    ensures Index(N, r, c) - 1 == Index(N, r, c - 1)
    ensures Index(N, r, c) + 1 == Index(N, r, c + 1)
    ensures Index(N, r, c) - N == Index(N, r - 1, c)
    ensures Index(N, r, c) + N == Index(N, r + 1, c)
  {
    assert (r - 1) * N - N == (r - 2) * N;
    assert (r - 1) * N + N == r * N;
  }

  /** m is one step up, down, left or right of square n at (r, c), on the board. */
  predicate Near(N: int, n: int, r: int, c: int, m: int)
  {
    || (r > 1 && m == n - N) || (r < N && m == n + N)
    || (c > 1 && m == n - 1) || (c < N && m == n + 1)
  }

  /** The case analysis of neighborJumpIndex lists every step on the board, once. */
  lemma EnumerateNear(N: int, n: int, r: int, c: int)
    requires N > 1 && ExistsAt(N, r, c)
    ensures Enumerate(N, n, r, c).Ok?
    ensures forall m :: m in Enumerate(N, n, r, c).value <==> Near(N, n, r, c, m)
    ensures var l := Enumerate(N, n, r, c).value;
      forall i, j :: 0 <= i < j < |l| ==> l[i] != l[j]
  {
  }

  /** A step from n that stays on the board reaches an adjacent square. */
  lemma NearIsAdjacent(N: int, n: int, m: int)
    requires N > 1 && ExistsSq(N, n) && Near(N, n, RowOf(N, n), ColOf(N, n), m)
    ensures Adjacent(N, n, m)
  {
    var r, c := RowOf(N, n), ColOf(N, n);
    IndexToCoords(N, n);
    Steps(N, r, c);
    if r > 1 && m == n - N {
      CoordsToIndex(N, r - 1, c);
    } else if r < N && m == n + N {
      CoordsToIndex(N, r + 1, c);
    } else if c > 1 && m == n - 1 {
      CoordsToIndex(N, r, c - 1);
    } else {
      CoordsToIndex(N, r, c + 1);
    }
  }

  /** Every square adjacent to n is one step away from it. */
  lemma AdjacentIsNear(N: int, n: int, m: int)
    requires N > 1 && Adjacent(N, n, m)
    ensures Near(N, n, RowOf(N, n), ColOf(N, n), m)
  {
    var r, c := RowOf(N, n), ColOf(N, n);
    var r2, c2 := RowOf(N, m), ColOf(N, m);
    IndexToCoords(N, n);
    IndexToCoords(N, m);
    Steps(N, r, c);
    if r2 == r - 1 {
      assert m == Index(N, r - 1, c);
    } else if r2 == r + 1 {
      assert m == Index(N, r + 1, c);
    } else if c2 == c - 1 {
      assert m == Index(N, r, c - 1);
    } else {
      assert m == Index(N, r, c + 1);
    }
  }

  /** The neighbour list holds exactly the squares adjacent to n, each once. */
  lemma {:induction false} NeighborListExact(N: int, n: int)
    requires N > 1 && ExistsSq(N, n)
    ensures forall m :: m in NeighborList(N, n) <==> Adjacent(N, n, m)
    ensures forall i, j :: 0 <= i < j < |NeighborList(N, n)| ==> NeighborList(N, n)[i] != NeighborList(N, n)[j]
  {
    var l := NeighborList(N, n);
    var r, c := RowOf(N, n), ColOf(N, n);
    IndexToCoords(N, n);
    EnumerateNear(N, n, r, c);
    assert l == Enumerate(N, n, r, c).value;
    forall m
      ensures m in l <==> Adjacent(N, n, m)
    {
      if m in l {
        NearIsAdjacent(N, n, m);
      }
      if Adjacent(N, n, m) {
        AdjacentIsNear(N, n, m);
      }
    }
  }

  /** The neighbour lists of the corners, some edge squares and an inner
      square of a 4 x 4 board. */
  lemma NeighborListsOnFour()
    ensures NeighborJumpIndex(4, 0) == Ok([1, 4]) && NeighborJumpIndex(4, 3) == Ok([2, 7])
    ensures NeighborJumpIndex(4, 12) == Ok([13, 8]) && NeighborJumpIndex(4, 15) == Ok([14, 11])
    ensures NeighborJumpIndex(4, 1) == Ok([0, 2, 5]) && NeighborJumpIndex(4, 14) == Ok([13, 15, 10])
    ensures NeighborJumpIndex(4, 8) == Ok([4, 12, 9]) && NeighborJumpIndex(4, 7) == Ok([3, 11, 6])
    ensures NeighborJumpIndex(4, 5) == Ok([4, 6, 1, 9])
  {
  }
}
