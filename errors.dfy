/** The conditions under which the board raises its GameException. */
module Errors {

  datatype GameError =
    | BadSize           // Board(N) with N <= 1
    | NoRow             // row(n) outside 0 <= n < N*N
    | NoColumn          // col(n) outside 0 <= n < N*N
    | NoIndex           // sqNum(r, c) outside 1 <= r, c <= N
    | BadSetValue       // set(..., num, ...) with num <= 0
    | NoHistory         // undo with an empty history
    | BadNeighborCount  // neighborJumpIndex reached an impossible case
}
