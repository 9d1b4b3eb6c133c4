/** The text dump of a board (Board.toString). */
module Dump {
  import opened Sides
  import opened Topology

  function DigitChar(d: int): char
    requires 0 <= d < 10
  {
    ('0' as int + d) as char
  }

  /** Decimal digits of a natural number, most significant first. */
  function NatToString(n: nat): (s: string)
    ensures |s| >= 1
    ensures forall i :: 0 <= i < |s| ==> '0' <= s[i] <= '9'
  {
    if n < 10 then [DigitChar(n)] else NatToString(n / 10) + [DigitChar(n % 10)]
  }

  /** The decimal digits read back as a number. */
  function DigitsValue(s: string): int
  {
    if s == [] then 0 else 10 * DigitsValue(s[..|s| - 1]) + (s[|s| - 1] as int - '0' as int)
  }

  /** Java's decimal rendering of an int: a minus sign for negatives. */
  function IntToString(i: int): string
  {
    if i < 0 then "-" + NatToString(-i) else NatToString(i)
  }

  /** The decimal rendering reads back as the number it renders. */
  lemma {:induction false} NatToStringValue(n: nat)
    ensures DigitsValue(NatToString(n)) == n
  {
    if n >= 10 {
      var q, d := n / 10, n % 10;
      NatToStringValue(q);
      var s := NatToString(n);
      assert s == NatToString(q) + [DigitChar(d)];
      assert s[..|s| - 1] == NatToString(q);
      assert n == 10 * q + d;
    }
  }

  /** One square of the dump: a space, its spots, its glyph. */
  function Token(sq: Square): string
  {
    " " + IntToString(sq.spots) + [Glyph(sq.side)]
  }

  /** The tokens of a run of squares, left to right. */
  function RowText(s: seq<Square>): string
  {
    if s == [] then "" else RowText(s[..|s| - 1]) + Token(s[|s| - 1])
  }

  /** The squares cut into rows of N from the left, each row on its own
      line indented by three spaces; the last row may be shorter. */
  function RowsText(N: int, sq: seq<Square>): string
    requires N > 0
    decreases |sq|
  {
    if sq == [] then ""
    else if |sq| <= N then "\n   " + RowText(sq)
    else "\n   " + RowText(sq[..N]) + RowsText(N, sq[N..])
  }

  /** The number of squares on the last row of RowsText(N, sq). */
  function LastRowLength(N: int, sq: seq<Square>): int
    requires N > 0
    decreases |sq|
  {
    if |sq| <= N then |sq| else LastRowLength(N, sq[N..])
  }

  lemma RowTextSnoc(s: seq<Square>, x: Square)
    ensures RowText(s + [x]) == RowText(s) + Token(x)
  {
    assert (s + [x])[..|s|] == s;
  }

  /** A row is one to N squares long; appending a square lengthens the last
      row, or starts a new one when the last row is full. */
  lemma {:induction false} LastRowSnoc(N: int, sq: seq<Square>, x: Square)
    requires N > 0
    ensures sq != [] ==> 1 <= LastRowLength(N, sq) <= N
    ensures LastRowLength(N, sq + [x])
      == if sq == [] || LastRowLength(N, sq) == N then 1 else LastRowLength(N, sq) + 1
    decreases |sq|
  {
    var s := sq + [x];
    if |sq| == N {
      assert s[N..] == [x];
    } else if |sq| > N {
      LastRowSnoc(N, sq[N..], x);
      assert s[N..] == sq[N..] + [x];
    }
  }

  /** Appending a square to no squares starts the first row. */
  lemma RowsTextSnocEmpty(N: int, x: Square)
    requires N > 0
    ensures RowsText(N, [x]) == "\n   " + Token(x)
  {
    RowTextSnoc([], x);
    assert [] + [x] == [x];
  }

  /** Appending a square to a short first row lengthens it. */
  lemma RowsTextSnocShort(N: int, sq: seq<Square>, x: Square)
    requires N > 0 && 0 < |sq| < N
    ensures RowsText(N, sq + [x]) == RowsText(N, sq) + Token(x)
  {
    RowTextSnoc(sq, x);
    calc {
      RowsText(N, sq + [x]);
      "\n   " + RowText(sq + [x]);
      "\n   " + (RowText(sq) + Token(x));
      ("\n   " + RowText(sq)) + Token(x);
    }
  }

  /** Appending a square to one full row starts the second row. */
  lemma RowsTextSnocFull(N: int, sq: seq<Square>, x: Square)
    requires N > 0 && |sq| == N
    ensures RowsText(N, sq + [x]) == RowsText(N, sq) + "\n   " + Token(x)
  {
    var s := sq + [x];
    assert s[..N] == sq && s[N..] == [x];
    RowsTextSnocEmpty(N, x);
    calc {
      RowsText(N, s);
      "\n   " + RowText(sq) + RowsText(N, [x]);
      "\n   " + RowText(sq) + ("\n   " + Token(x));
    }
  }

  /** The line break, if any, written before the token of the square that
      follows sq. */
  function Break(N: int, sq: seq<Square>): string
    requires N > 0
  {
    if sq == [] || LastRowLength(N, sq) == N then "\n   " else ""
  }

  /** Appending a square appends its token, after a line break when the
      last row is full (or there is none). */
  lemma {:induction false} RowsTextSnoc(N: int, sq: seq<Square>, x: Square)
    requires N > 0
    ensures RowsText(N, sq + [x]) == RowsText(N, sq) + (Break(N, sq) + Token(x))
    decreases |sq|, 1
  {
    if sq == [] {
      RowsTextSnocEmpty(N, x);
      assert sq + [x] == [x];
    } else if |sq| < N {
      RowsTextSnocShort(N, sq, x);
    } else if |sq| == N {
      RowsTextSnocFull(N, sq, x);
    } else {
      RowsTextSnocLong(N, sq, x);
    }
  }

  /** Appending a square past the first row: the first row is unchanged and
      the rest follows by induction. */
  lemma {:induction false} RowsTextSnocLong(N: int, sq: seq<Square>, x: Square)
    requires N > 0 && |sq| > N
    ensures RowsText(N, sq + [x]) == RowsText(N, sq) + (Break(N, sq) + Token(x))
    decreases |sq|, 0
  {
    var s := sq + [x];
    var rest := sq[N..];
    var head := "\n   " + RowText(sq[..N]);
    var tail := Break(N, sq) + Token(x);
    RowsTextSnoc(N, rest, x);
    assert s[..N] == sq[..N] && s[N..] == rest + [x];
    assert Break(N, rest) == Break(N, sq);
    Regroup(RowsText(N, s), RowsText(N, sq), head, RowsText(N, rest), RowsText(N, rest + [x]), tail);
  }

  /** Regrouping a concatenation: if whole is head + (before + tail) and
      part is head + before, then whole is part + tail. */
  lemma Regroup(whole: string, part: string, head: string, before: string, after: string, tail: string)
    requires whole == head + after && after == before + tail && part == head + before
    ensures whole == part + tail
  {
  }

  /** The dump text built so far grows by the same text as its rows. */
  lemma DumpGrows(text: string, rows: string, rows2: string, sep: string, token: string)
    requires text == "===" + rows && rows2 == rows + (sep + token)
    ensures text + sep + token == "===" + rows2
  {
  }

  /** The dump of a board of side N: "===", its N rows, then "\n===". */
  function DumpText(N: int, sq: seq<Square>): string
    requires N > 0 && |sq| == N * N
  {
    "===" + RowsText(N, sq) + "\n==="
  }
}
