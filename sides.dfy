/** Players and squares. */
module Sides {

  /** The owner of a square: White is the neutral colour. */
  datatype Side = White | Red | Blue

  /** An immutable square: an owner and a number of spots. */
  datatype Square = Square(side: Side, spots: int)

  /** The content of a square on a fresh board. The board builds its squares
      as square(WHITE, 0) while starting its spot counter at N*N and showing
      them as "1-"; the model fixes the reading every observer agrees on: one
      white spot. */
  const Fresh := Square(White, 1)

  /** The side's name, through which the board compares sides. */
  function Name(s: Side): string
  {
    match s
    case White => "white"
    case Red => "red"
    case Blue => "blue"
  }

  /** The one-letter glyph of a side in the board dump (toSingle). */
  function Glyph(s: Side): (g: char)
    ensures g in {'-', 'r', 'b'}
  {
    match s
    case White => '-'
    case Red => 'r'
    case Blue => 'b'
  }

  /** Comparing two sides by their names is the same as comparing the sides. */
  lemma NameInjective(a: Side, b: Side)
    ensures Name(a) == Name(b) <==> a == b
  {
  }

  /** Distinct sides have distinct glyphs, so the dump determines every owner. */
  lemma GlyphInjective(a: Side, b: Side)
    ensures Glyph(a) == Glyph(b) <==> a == b
  {
  }
}
