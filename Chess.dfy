/**
 * The board squares of the chess library that slackchess calls into.
 * That library is not part of this model; its `Square.String()` is taken to be
 * algebraic naming: square `i` (0 = a1, 1 = b1, ..., 8 = a2, ..., 63 = h8) is
 * the file letter of `i % 8` followed by the rank digit of `i / 8`.
 */
module Chess {
  import opened Wrappers

  /** `chess.Square`: an index into the 8x8 board. */
  type Square = i: int | 0 <= i < 64

  const FileLetters: string := "abcdefgh"
  const RankDigits: string := "12345678"

  /**
   * `Square.String()`: the algebraic label of a square, always a file letter a-h
   * followed by a rank digit 1-8, so never containing a comma or a space.
   */
  function SquareString(sq: Square): (r: string)
    ensures |r| == 2
    ensures 'a' <= r[0] <= 'h' && '1' <= r[1] <= '8'
    ensures ',' !in r && ' ' !in r
  {
    [FileLetters[sq % 8], RankDigits[sq / 8]]
  }

  /**
   * Reference decoder, independent of any search over the board: reads file and
   * rank straight off the two characters, case-sensitively.
   */
  function ParseSquare(text: string): (r: Option<Square>)
    ensures r.Some? ==> |text| == 2
  {
    if |text| == 2 && 'a' <= text[0] <= 'h' && '1' <= text[1] <= '8' then
      Some((text[1] as int - '1' as int) * 8 + (text[0] as int - 'a' as int))
    else
      None
  }

  /** The label of a square decodes back to that square. */
  lemma ParseSquareString(sq: Square)
    ensures ParseSquare(SquareString(sq)) == Some(sq)
  {
  }

  /** A label that decodes to a square is that square's label. */
  lemma SquareStringOfParse(text: string, sq: Square)
    requires ParseSquare(text) == Some(sq)
    ensures SquareString(sq) == text
  {
  }

  /** The label map and the decoder are inverse to each other, in both directions. */
  lemma ParseSquareIff(text: string, sq: Square)
    ensures ParseSquare(text) == Some(sq) <==> SquareString(sq) == text
  {
    if ParseSquare(text) == Some(sq) {
      SquareStringOfParse(text, sq);
    }
    if SquareString(sq) == text {
      ParseSquareString(sq);
    }
  }

  /** Distinct squares have distinct labels. */
  lemma SquareStringInjective(a: Square, b: Square)
    requires SquareString(a) == SquareString(b)
    ensures a == b
  {
  }
}
