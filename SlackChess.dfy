/**
 * The self-contained logic of the slackchess HTTP server: the listen address
 * derived from the PORT setting, the position string handed to the chess
 * library for a board image request, and the `markSquares` highlight list.
 */
module SlackChess {
  import opened Wrappers
  import opened GoStrings
  import opened Chess

  // ---------------------------------------------------------------------------
  // determineListenAddress
  // ---------------------------------------------------------------------------

  const PortNotSet: string := "$PORT not set"

  /**
   * `determineListenAddress`, with the value of the PORT environment variable as
   * its argument: an unset (empty) port is an error, otherwise the server listens
   * on every interface at that port.
   */
  function DetermineListenAddress(port: string): (r: Result<string, string>)
    ensures r.Failure? <==> port == ""
    ensures r.Failure? ==> r.error == PortNotSet
    ensures r.Success? ==> HasPrefix(r.value, ":") && TrimPrefix(r.value, ":") == port
  {
    if port == "" then Failure(PortNotSet) else Success(":" + port)
  }

  // ---------------------------------------------------------------------------
  // The position string of a board image request
  // ---------------------------------------------------------------------------

  const BoardRoute: string := "/board/"
  const ImageExtension: string := ".png"

  // The trailing fields of Forsyth-Edwards Notation (section 16.1 of the PGN
  // standard) that the image URL leaves out, with the values the server assumes.
  const DefaultSideToMove: string := "w"
  const DefaultCastling: string := "KQkq"
  const DefaultEnPassant: string := "-"
  const DefaultHalfMoveClock: string := "0"
  const DefaultFullMoveNumber: string := "1"
  const DefaultFenFields: string := " w KQkq - 0 1"

  /**
   * The piece placement carried by an image URL path: one route prefix and one
   * extension removed. It is an unchanged run of the path's characters, starting
   * just after the route prefix when there is one.
   */
  function PathPlacement(urlPath: string): (r: string)
    ensures
      var lead := if HasPrefix(urlPath, BoardRoute) then BoardRoute else "";
      var trail := if HasSuffix(urlPath[|lead|..], ImageExtension) then ImageExtension else "";
      urlPath == lead + r + trail
  {
    TrimSuffix(TrimPrefix(urlPath, BoardRoute), ImageExtension)
  }

  /**
   * The position string `boardImgHandler` hands to the chess library's FEN
   * decoder. `urlPath` is the request's URL path after percent-decoding, as the
   * HTTP server delivers it. The result is the path with at most one leading
   * route prefix and at most one trailing extension taken off, followed by the
   * default fields; no other character of the path changes.
   */
  function BoardFen(urlPath: string): (r: string)
    ensures HasSuffix(r, DefaultFenFields)
    ensures r[..|r| - |DefaultFenFields|] == PathPlacement(urlPath)
  {
    PathPlacement(urlPath) + DefaultFenFields
  }

  /** The image URL path of a placement, the shape the `/board/` route serves. */
  function BoardImagePath(placement: string): (r: string)
  {
    BoardRoute + placement + ImageExtension
  }

  /** An image path built from a placement yields that placement and the default fields. */
  lemma BoardFenOfImagePath(placement: string)
    ensures BoardFen(BoardImagePath(placement)) == placement + DefaultFenFields
  {
    var p := BoardImagePath(placement);
    assert p[..|BoardRoute|] == BoardRoute;
    assert TrimPrefix(p, BoardRoute) == placement + ImageExtension;
  }

  /**
   * The default fields are appended whatever the path already carries: a placement
   * that already ends in a side-to-move field gets a second one.
   */
  lemma BoardFenAppendsAllFields(placement: string)
    ensures BoardFen(BoardImagePath(placement + " w")) == placement + " w w KQkq - 0 1"
  {
    BoardFenOfImagePath(placement + " w");
    assert placement + " w" + DefaultFenFields == placement + " w w KQkq - 0 1";
  }

  /** Each trim happens once only: a doubled route prefix and a doubled extension keep their second copies. */
  lemma BoardFenTrimsOnce(placement: string)
    ensures BoardFen(BoardImagePath(BoardImagePath(placement)))
         == BoardRoute + placement + ImageExtension + DefaultFenFields
  {
    BoardFenOfImagePath(BoardImagePath(placement));
  }

  /** A path with neither the route prefix nor the extension is kept whole and only gets the default fields. */
  lemma BoardFenBarePlacement(urlPath: string)
    requires !HasPrefix(urlPath, BoardRoute) && !HasSuffix(urlPath, ImageExtension)
    ensures BoardFen(urlPath) == urlPath + DefaultFenFields
  {
  }


  /**
   * For a path without spaces, the position string has the six space-separated
   * fields of the notation: the placement from the path, white to move, full
   * castling rights, no en-passant target, half-move clock 0, full-move number 1.
   */
  lemma BoardFenFields(urlPath: string)
    requires ' ' !in urlPath
    ensures Split(BoardFen(urlPath), ' ')
         == [PathPlacement(urlPath), DefaultSideToMove, DefaultCastling,
             DefaultEnPassant, DefaultHalfMoveClock, DefaultFullMoveNumber]
  {
    PathPlacementNoSpace(urlPath);
    DefaultFieldsSplit(PathPlacement(urlPath));
  }

  /** Trimming only removes characters, so a path without spaces gives a placement without spaces. */
  lemma PathPlacementNoSpace(urlPath: string)
    requires ' ' !in urlPath
    ensures ' ' !in PathPlacement(urlPath)
  {
  }

  /** The default fields split into the five trailing fields after any space-free placement. */
  lemma DefaultFieldsSplit(placement: string)
    requires ' ' !in placement
    ensures Split(placement + DefaultFenFields, ' ')
         == [placement, DefaultSideToMove, DefaultCastling,
             DefaultEnPassant, DefaultHalfMoveClock, DefaultFullMoveNumber]
  {
    var fields := [placement, DefaultSideToMove, DefaultCastling,
                   DefaultEnPassant, DefaultHalfMoveClock, DefaultFullMoveNumber];
    assert Join(fields[5..], ' ') == "1";
    assert Join(fields[4..], ' ') == "0 1";
    assert Join(fields[3..], ' ') == "- 0 1";
    assert Join(fields[2..], ' ') == "KQkq - 0 1";
    assert Join(fields[1..], ' ') == "w KQkq - 0 1";
    assert Join(fields, ' ') == placement + DefaultFenFields;
    SplitJoin(fields, ' ');
  }

  // ---------------------------------------------------------------------------
  // squaresFromString
  // ---------------------------------------------------------------------------

  /**
   * The first square at index `i` or later whose label is `token`: the scan of the
   * inner loop. It finds the square the token decodes to exactly when that square
   * lies at or after `i`.
   */
  function FirstMatchFrom(token: string, i: int): (r: Option<Square>)
    requires 0 <= i <= 64
    ensures r.Some? ==> i <= r.value && SquareString(r.value) == token
    ensures r == if ParseSquare(token).Some? && ParseSquare(token).value >= i then ParseSquare(token) else None
    decreases 64 - i
  {
    if i == 64 then None
    else if SquareString(i) == token then
      ParseSquareString(i);
      Some(i)
    else
      ParseSquareIff(token, i);
      FirstMatchFrom(token, i + 1)
  }

  /** The square, scanning the whole board from a1, whose label is `token`: exactly the decoded token. */
  function FirstMatch(token: string): (r: Option<Square>)
    ensures r.Some? ==> SquareString(r.value) == token
    ensures r == ParseSquare(token)
  {
    FirstMatchFrom(token, 0)
  }

  /** What one comma-separated token contributes: nothing when empty or unmatched, else its one square. */
  function TokenSquares(token: string): (r: seq<Square>)
    ensures |r| <= 1
    ensures r == [] <==> ParseSquare(token).None?
    ensures r != [] ==> r[0] == ParseSquare(token).value && SquareString(r[0]) == token
  {
    if token == "" then []
    else match FirstMatch(token)
      case Some(sq) => [sq]
      case None => []
  }

  /**
   * The squares of a token list, built up token by token from the left as the
   * outer loop does: at most one square per token, each named exactly by a
   * non-empty token.
   */
  function ResolveTokens(tokens: seq<string>): (r: seq<Square>)
    ensures |r| <= |tokens|
    ensures forall k :: 0 <= k < |r| ==> SquareString(r[k]) in tokens && SquareString(r[k]) != ""
  {
    if tokens == [] then []
    else ResolveTokens(tokens[..|tokens| - 1]) + TokenSquares(tokens[|tokens| - 1])
  }

  /** The specification of `squaresFromString`: the squares named by the comma-separated tokens of `s`. */
  function SquaresOf(s: string): (r: seq<Square>)
    ensures |r| <= |Split(s, ',')|
    ensures forall k :: 0 <= k < |r| ==> SquareString(r[k]) in Split(s, ',')
  {
    ResolveTokens(Split(s, ','))
  }

  /**
   * Reference definition, independent of the board scan: keep, in order, the
   * squares that the tokens decode to.
   */
  function DecodeTokens(tokens: seq<string>): (r: seq<Square>)
  {
    if tokens == [] then []
    else
      (match ParseSquare(tokens[0])
       case Some(sq) => [sq]
       case None => [])
      + DecodeTokens(tokens[1..])
  }

  /** The labels of a list of squares, in order. */
  function Labels(sqs: seq<Square>): (r: seq<string>)
    ensures |r| == |sqs|
    ensures forall k :: 0 <= k < |sqs| ==> r[k] == SquareString(sqs[k])
  {
    if sqs == [] then [] else [SquareString(sqs[0])] + Labels(sqs[1..])
  }

  /** `squaresFromString`: the squares named in a comma-separated `markSquares` value. */
  method SquaresFromString(s: string) returns (sqs: seq<Square>)
    ensures sqs == SquaresOf(s)
    ensures |sqs| <= |Split(s, ',')|
    ensures forall k :: 0 <= k < |sqs| ==> SquareString(sqs[k]) in Split(s, ',')
  {
    var tokens := Split(s, ',');
    sqs := [];
    for n := 0 to |tokens|
      invariant sqs == ResolveTokens(tokens[..n])
    {
      var token := tokens[n];
      ResolveTokensStep(tokens, n);
      if token == "" {
        continue;
      }
      ghost var before := sqs;
      for i := 0 to 64
        invariant FirstMatch(token) == FirstMatchFrom(token, i)
        invariant sqs == before
      {
        if SquareString(i) == token {
          assert TokenSquares(token) == [i];
          sqs := sqs + [i];
          break;
        }
      }
      assert sqs == before + TokenSquares(token) by {
        if sqs == before {
          assert TokenSquares(token) == [];
        }
      }
    }
    assert tokens[..|tokens|] == tokens;
  }

  /** One more token extends the resolved list by what that token contributes. */
  lemma ResolveTokensStep(tokens: seq<string>, n: int)
    requires 0 <= n < |tokens|
    ensures ResolveTokens(tokens[..n + 1]) == ResolveTokens(tokens[..n]) + TokenSquares(tokens[n])
  {
    assert tokens[..n + 1][..n] == tokens[..n];
  }

  /** A token matches a square exactly when it is that square's label, character for character. */
  lemma FirstMatchIff(token: string, sq: Square)
    ensures FirstMatch(token) == Some(sq) <==> SquareString(sq) == token
  {
    ParseSquareIff(token, sq);
  }

  /** Tokens that are no square's label (wrong letter case, rank 9, letters only) are dropped. */
  lemma UnknownTokensDropped()
    ensures TokenSquares("zz") == [] && TokenSquares("a9") == [] && TokenSquares("A1") == []
    ensures TokenSquares("a1 ") == [] && TokenSquares("a") == []
  {
  }

  /** Resolving a list of tokens is resolving each part and concatenating: token order is kept. */
  lemma {:induction false} ResolveTokensAppend(a: seq<string>, b: seq<string>)
    ensures ResolveTokens(a + b) == ResolveTokens(a) + ResolveTokens(b)
    decreases |b|
  {
    if b == [] {
      assert a + b == a;
    } else {
      var b', last := b[..|b| - 1], b[|b| - 1];
      assert (a + b)[..|a + b| - 1] == a + b' && (a + b)[|a + b| - 1] == last;
      assert ResolveTokens(a + b) == ResolveTokens(a + b') + TokenSquares(last);
      assert ResolveTokens(b) == ResolveTokens(b') + TokenSquares(last);
      ResolveTokensAppend(a, b');
    }
  }

  /** The scanning definition agrees with the reference decoder. */
  lemma {:induction false} ResolveTokensIsDecode(tokens: seq<string>)
    ensures ResolveTokens(tokens) == DecodeTokens(tokens)
  {
    if tokens != [] {
      ResolveTokensIsDecode(tokens[1..]);
      ResolveTokensAppend([tokens[0]], tokens[1..]);
      assert [tokens[0]] + tokens[1..] == tokens;
      assert [tokens[0]][..0] == [];
      assert ResolveTokens([tokens[0]]) == TokenSquares(tokens[0]);
    }
  }

  /** An empty value splits to one empty token and gives no squares. */
  lemma SquaresOfEmpty()
    ensures Split("", ',') == [""]
    ensures SquaresOf("") == []
  {
    assert ResolveTokens([""]) == ResolveTokens([]) + TokenSquares("");
  }

  /** A square's own label resolves to that square alone. */
  lemma SquaresOfLabel(sq: Square)
    ensures SquaresOf(SquareString(sq)) == [sq]
  {
    var name := SquareString(sq);
    SplitNoSeparator(name, ',');
    assert [name][..0] == [];
    assert ResolveTokens([name]) == ResolveTokens([]) + TokenSquares(name);
    FirstMatchIff(name, sq);
    assert TokenSquares(name) == [sq];
  }

  /** The reference decoder takes a list of labels back to its squares, duplicates included. */
  lemma {:induction false} DecodeLabels(sqs: seq<Square>)
    ensures DecodeTokens(Labels(sqs)) == sqs
  {
    if sqs != [] {
      DecodeLabels(sqs[1..]);
      ParseSquareString(sqs[0]);
      assert Labels(sqs)[1..] == Labels(sqs[1..]);
    }
  }

  /**
   * Round trip: the labels of any list of squares, joined with commas, give back
   * that list in the same order and with the same repetitions.
   */
  lemma SquaresOfJoinedLabels(sqs: seq<Square>)
    ensures SquaresOf(Join(Labels(sqs), ',')) == sqs
  {
    if sqs == [] {
      SquaresOfEmpty();
    } else {
      forall k | 0 <= k < |sqs| ensures ',' !in Labels(sqs)[k] {
      }
      SplitJoin(Labels(sqs), ',');
      ResolveTokensIsDecode(Labels(sqs));
      DecodeLabels(sqs);
    }
  }

  /** The highlight list `a1,b2,,zz,c3` gives a1, b2 and c3, in that order. */
  lemma SquaresOfExample()
    ensures SquaresOf("a1,b2,,zz,c3") == [0, 9, 18]
  {
    var tokens := ["a1", "b2", "", "zz", "c3"];
    ExampleTokens();
    ResolveTokensIsDecode(tokens);
    ExampleDecode();
  }

  /** The comma split of the example value: five tokens, one of them empty. */
  lemma ExampleTokens()
    ensures Split("a1,b2,,zz,c3", ',') == ["a1", "b2", "", "zz", "c3"]
  {
    var tokens := ["a1", "b2", "", "zz", "c3"];
    assert Join(tokens[4..], ',') == "c3";
    assert Join(tokens[3..], ',') == "zz,c3";
    assert Join(tokens[2..], ',') == ",zz,c3";
    assert Join(tokens[1..], ',') == "b2,,zz,c3";
    assert Join(tokens, ',') == "a1,b2,,zz,c3";
    SplitJoin(tokens, ',');
  }

  /** The reference decoder on the example tokens keeps a1, b2 and c3 only. */
  lemma ExampleDecode()
    ensures DecodeTokens(["a1", "b2", "", "zz", "c3"]) == [0, 9, 18]
  {
  }
}
