# slackchess: verified model of the server's string logic

slackchess is a chat slash-command server for playing chess. Its HTTP entry
point, `cmd/slackchess/main.go`, is mostly wiring: it routes requests to the
command handler and the board-image handler. Three pieces of it are
self-contained string logic, and this project models and proves them.

- **Listen address** (`determineListenAddress`). The value of the `PORT`
  setting becomes the address `":" + port`. An empty value is the error
  `$PORT not set`.
- **Board image position** (`boardImgHandler`). The URL path
  `/board/<placement>.png` becomes the position string handed to the chess
  library. One leading `/board/` is removed if present. One trailing `.png` is
  removed if present. Then the default trailing fields of Forsyth–Edwards
  Notation (section 16.1 of the PGN standard) are appended: ` w KQkq - 0 1`.
  That is white to move, full castling rights, no en-passant target,
  half-move clock 0 and full-move number 1.
- **Highlighted squares** (`squaresFromString`). The `markSquares` query value,
  such as `a1,b2,c3`, is split on commas. Empty tokens are skipped. Each other
  token is compared with the labels of squares 0 to 63 in order. The first
  square whose label equals the token is appended. Tokens that name no square
  are dropped.

Files:

- `Wrappers.dfy`: `Option` and `Result`.
- `GoStrings.dfy`: Go's `strings.Split` and `strings.Join` for a
  one-character separator, and `strings.TrimPrefix` and `strings.TrimSuffix`
  for any prefix or suffix, with their round trips.
- `Chess.dfy`: the chess library's `Square` and its label. It also holds an
  independent decoder, `ParseSquare`, proved inverse to the label map.
- `SlackChess.dfy`: the three pieces of `main.go`. `SquaresFromString` is a
  method with the source's two nested loops, `continue` and `break`. It is
  proved equal to the function `SquaresOf`. The lemmas state what
  `SquaresOf` and `BoardFen` guarantee.

Assumption about the chess library: `Square.String()` is not part of this
model. Square `i` is taken to be labelled with the file letter
`"abcdefgh"[i % 8]` followed by the rank digit `"12345678"[i / 8]`. This is
algebraic naming (0 = a1, 7 = h1, 8 = a2, 63 = h8), as the format comment at
`cmd/slackchess/main.go:126` (`a1,b2,c3`) presumes.

The server appends all five default fields unconditionally, so a path that
already carries ` w` gets a second copy: `/board/8/8/8/8/8/8/8/8 w.png` gives
`8/8/8/8/8/8/8/8 w w KQkq - 0 1`.

## Model

| member | source | states |
|---|---|---|
| SlackChess.DetermineListenAddress | cmd/slackchess/main.go:26-32 | An error exactly when the port is empty, and then the message is `$PORT not set`; otherwise the address is `:` followed by the port unchanged |
| SlackChess.PathPlacement | cmd/slackchess/main.go:105-106 | The placement is the path with one leading `/board/` removed if present, then one trailing `.png` removed if present: the path equals that optional prefix, the placement and that optional extension, in order |
| SlackChess.BoardFen | cmd/slackchess/main.go:105-107 | The position string ends with ` w KQkq - 0 1`, and what precedes those fields is exactly the path's placement |
| SlackChess.BoardFenAppendsAllFields | cmd/slackchess/main.go:105-107 | The default fields are appended whatever the path already carries: for any placement ending in ` w`, the image path gives that placement followed by ` w w KQkq - 0 1` |
| SlackChess.BoardFenTrimsOnce | cmd/slackchess/main.go:105-107 | Each trim happens once: for any placement, a path with a doubled `/board/` and a doubled `.png` keeps one copy of each before the default fields |
| SlackChess.BoardFenBarePlacement | cmd/slackchess/main.go:105-107 | A path with neither the `/board/` prefix nor the `.png` extension is kept whole, followed by the default fields |
| SlackChess.BoardFenOfImagePath | cmd/slackchess/main.go:105-107 | Round trip: for any placement, the image path `/board/<placement>.png` gives back exactly that placement followed by the default fields |
| SlackChess.BoardFenFields | cmd/slackchess/main.go:105-107 | For a path without spaces, the position string has six space-separated fields: the placement from the path, then `w`, `KQkq`, `-`, `0`, `1` |
| SlackChess.PathPlacementNoSpace | cmd/slackchess/main.go:105-106 | Trimming removes characters only, so a path without spaces gives a placement without spaces |
| SlackChess.DefaultFieldsSplit | cmd/slackchess/main.go:107 | After any placement without spaces, the appended text splits into exactly the five default fields |
| SlackChess.SquaresFromString | cmd/slackchess/main.go:127-143 | The nested loops return exactly `SquaresOf(s)`; there are at most as many squares as tokens, and each square's label is one of the tokens |
| SlackChess.ResolveTokensStep | cmd/slackchess/main.go:130-140 | One more token extends the result by exactly what that token contributes: nothing if empty or unmatched, else its one square |
| SlackChess.FirstMatchFrom | cmd/slackchess/main.go:134-140 | The scan from index `i` returns a square at or after `i` whose label is the token; it returns the square the token decodes to when that square is at `i` or later, and nothing otherwise |
| SlackChess.FirstMatch | cmd/slackchess/main.go:134-140 | The full 0..63 scan returns exactly the square given by the independent decoder, and a returned square's label equals the token |
| SlackChess.TokenSquares | cmd/slackchess/main.go:131-140 | A token contributes at most one square; it contributes nothing exactly when it does not decode to a square (the empty token included), and otherwise the square whose label it is |
| SlackChess.ResolveTokens | cmd/slackchess/main.go:130-141 | At most one square per token, and every square's label is a non-empty token of the list |
| SlackChess.SquaresOf | cmd/slackchess/main.go:127-143 | No more squares than comma-separated tokens of the value, and every square's label is one of those tokens |
| SlackChess.FirstMatchIff | cmd/slackchess/main.go:136-138 | A token matches square `sq` if and only if it equals `sq`'s label exactly, case-sensitively; the first match is the only one |
| SlackChess.UnknownTokensDropped | cmd/slackchess/main.go:134-140 | Tokens naming no square (`zz`, `a9`, `A1`, `a1 `, `a`) contribute nothing and raise no error |
| SlackChess.ResolveTokensAppend | cmd/slackchess/main.go:130-141 | Output follows input order: the squares of two token lists joined are the squares of each, concatenated, with no de-duplication |
| SlackChess.ResolveTokensIsDecode | cmd/slackchess/main.go:130-141 | The loop's result equals the reference definition: the decoded squares of the tokens that decode, in token order |
| SlackChess.SquaresOfEmpty | cmd/slackchess/main.go:128-133 | The empty value splits to one empty token and gives no squares |
| SlackChess.SquaresOfLabel | cmd/slackchess/main.go:126-143 | Round trip: a square's own label gives exactly that square |
| SlackChess.DecodeLabels | cmd/slackchess/main.go:126 | The reference decoder takes the labels of any list of squares back to that list |
| SlackChess.SquaresOfJoinedLabels | cmd/slackchess/main.go:126-143 | Round trip: any list of squares, labelled and joined with commas, gives back the same list in the same order with the same repetitions |
| SlackChess.SquaresOfExample | cmd/slackchess/main.go:126-143 | `a1,b2,,zz,c3` gives a1, b2, c3 (squares 0, 9, 18) in that order |
| SlackChess.ExampleTokens | cmd/slackchess/main.go:128 | `a1,b2,,zz,c3` splits into the five tokens `a1`, `b2`, the empty token, `zz`, `c3` |
| SlackChess.ExampleDecode | cmd/slackchess/main.go:131-140 | Of those five tokens, the empty one and `zz` contribute nothing |
| GoStrings.Split | cmd/slackchess/main.go:128 | Splitting yields at least one piece, and no piece contains the separator |
| GoStrings.SplitNoSeparator | cmd/slackchess/main.go:128 | A string without the separator is a single piece |
| GoStrings.SplitLeadingField | cmd/slackchess/main.go:128 | A separator-free field followed by the separator is split off as the first piece |
| GoStrings.JoinSplit | cmd/slackchess/main.go:128 | Joining the pieces of a split gives back the original string |
| GoStrings.SplitJoin | cmd/slackchess/main.go:128 | Splitting a join of one or more separator-free pieces gives back the pieces |
| GoStrings.TrimPrefix | cmd/slackchess/main.go:105 | When the prefix is present, prefix + result is the input; otherwise the input is unchanged |
| GoStrings.TrimSuffix | cmd/slackchess/main.go:106 | When the suffix is present, result + suffix is the input; otherwise the input is unchanged |
| Chess.ParseSquare | cmd/slackchess/main.go:126 | The reference decoder accepts only two-character labels |
| Chess.SquareString | cmd/slackchess/main.go:135-136 | Every label is two characters, a file letter a-h then a rank digit 1-8, so it contains no comma or space |
| Chess.ParseSquareString | cmd/slackchess/main.go:135-136 | Every square's label decodes back to that square |
| Chess.SquareStringOfParse | cmd/slackchess/main.go:135-136 | A string that decodes to a square is that square's label |
| Chess.ParseSquareIff | cmd/slackchess/main.go:135-136 | Decoding and labelling are inverse, in both directions |
| Chess.SquareStringInjective | cmd/slackchess/main.go:134-138 | Distinct squares have distinct labels, so at most one square matches a token |

## Left out

- `main`, `logHandler`, `upHandler` and the method and status-code branches of `commandHandler` and `boardImgHandler`: HTTP routing and transport.
- Flag parsing and the `token`/`url` checks in `main`, and all logging: process start-up and I/O.
- `os.Getenv("PORT")`: the environment read is not modelled; `DetermineListenAddress` takes the value as its argument (an unset variable reads as the empty string in Go).
- `chess.FEN`, `chess.NewGame` and `g.Position()`: the chess library is not part of this model. Only the string handed to `chess.FEN` is modelled, not its decoding or its errors.
- `Square.String()`: it is in the chess library; its algebraic labelling is an assumption stated above.
- `imageutil.WritePNG`: image rendering is not part of this model.
- `slack.SlashCmd.Response`, `slack.SetBaseURL` and `slack.SetStockfishPath`: the command, session and engine logic is not part of this model.
- `schema.NewDecoder().Decode` and `json.NewEncoder`: form decoding and JSON encoding are library calls.
- The form slicing `r.Form["text"][1:]` at `cmd/slackchess/main.go:76`: transport-shape handling; it would panic on a missing `text` field.
- `r.URL.Query().Get("markSquares")`: query decoding is not modelled; the method takes the decoded value.
- `r.URL.Path`: the HTTP server percent-decodes the request path before `boardImgHandler` sees it; that decoding is not modelled, and `BoardFen` takes the decoded path.
- Strings are modelled as sequences of characters. Go strings are bytes, and `Split`, `TrimPrefix` and `TrimSuffix` work on bytes; for the ASCII separators, prefixes and labels involved the two agree.
