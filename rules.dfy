/** The fixed rules of the game: colours, sizes, pieces, the capture test and
    the eight winning lines of the 3x3 board. Everything here is pure. */
module Rules {

  datatype Option<T> = None | Some(value: T)

  /** The two players; black moves first. */
  datatype Color = Black | White

  /** Piece sizes, ranked small < medium < large. */
  datatype Size = Small | Medium | Large

  datatype Piece = Piece(color: Color, size: Size)

  /** A board cell holds one piece or nothing (`null` in the source). */
  type Cell = Option<Piece>

  /** The nine cells are numbered 0..8, row by row. */
  type CellIndex = i: int | 0 <= i < 9

  /** Three cells that win when all hold pieces of one colour. */
  datatype Line = Line(a: CellIndex, b: CellIndex, c: CellIndex)

  /** The three rows, the three columns and the two diagonals, in the
      order in which the win check visits them. */
  const WinLines: seq<Line> := [
    Line(0, 1, 2), Line(3, 4, 5), Line(6, 7, 8),
    Line(0, 3, 6), Line(1, 4, 7), Line(2, 5, 8),
    Line(0, 4, 8), Line(2, 4, 6)
  ]

  /** The player who is not `c`. */
  function Other(c: Color): (r: Color)
    ensures r != c
  {
    if c == Black then White else Black
  }

  function Rank(z: Size): (r: int)
    ensures 1 <= r <= 3
  {
    match z
    case Small => 1
    case Medium => 2
    case Large => 3
  }

  /** A piece of size `newSize` may cover a piece of size `existingSize`
      exactly when it is strictly larger; colours play no part. */
  function CanCapture(newSize: Size, existingSize: Size): (r: bool)
    ensures r <==> ((existingSize == Small && newSize != Small)
                    || (existingSize == Medium && newSize == Large))
  {
    Rank(newSize) > Rank(existingSize)
  }

  /** Larger pieces cover smaller ones, never the other way round, never an
      equal one, and covering composes. */
  lemma CaptureIsStrictOrder(x: Size, y: Size, z: Size)
    ensures !CanCapture(x, x)
    ensures CanCapture(x, y) ==> !CanCapture(y, x)
    ensures CanCapture(x, y) && CanCapture(y, z) ==> CanCapture(x, z)
    ensures x != y ==> CanCapture(x, y) || CanCapture(y, x)
  {
  }

  /** A line wins when its first cell is occupied and the other two hold
      pieces of that same colour (an empty cell never matches a colour). */
  predicate LineWins(board: seq<Cell>, l: Line)
    requires |board| == 9
  {
    board[l.a].Some? && board[l.b].Some? && board[l.c].Some?
    && board[l.a].value.color == board[l.b].value.color
    && board[l.a].value.color == board[l.c].value.color
  }

  /** Some line among the eight is completed. */
  predicate HasWin(board: seq<Cell>)
    requires |board| == 9
  {
    exists k :: 0 <= k < |WinLines| && LineWins(board, WinLines[k])
  }

  /** The first winning line at or after position `from` of the fixed
      enumeration, as the source's scan finds it. */
  function FirstWinLine(board: seq<Cell>, from: nat): (r: Option<nat>)
    requires |board| == 9 && from <= |WinLines|
    ensures r.Some? ==> from <= r.value < |WinLines| && LineWins(board, WinLines[r.value])
    ensures r.Some? ==> forall j :: from <= j < r.value ==> !LineWins(board, WinLines[j])
    ensures r.None? <==> forall j :: from <= j < |WinLines| ==> !LineWins(board, WinLines[j])
    decreases |WinLines| - from
  {
    if from == |WinLines| then None
    else if LineWins(board, WinLines[from]) then Some(from)
    else FirstWinLine(board, from + 1)
  }

  /** The colour of the first completed line, if any. The source does not
      store a winner; it only shows this colour in its message. */
  function Winner(board: seq<Cell>): (r: Option<Color>)
    requires |board| == 9
    ensures r.Some? <==> HasWin(board)
    ensures r.Some? ==> exists k :: 0 <= k < |WinLines| && LineWins(board, WinLines[k])
                                     && board[WinLines[k].a].value.color == r.value
  {
    match FirstWinLine(board, 0)
    case None => None
    case Some(k) => Some(board[WinLines[k].a].value.color)
  }

  /** A board holding pieces of colour `c` on line `k` and nothing else. */
  function FilledLine(k: nat, c: Color, z: Size): (board: seq<Cell>)
    requires k < |WinLines|
    ensures |board| == 9
  {
    var l := WinLines[k];
    seq(9, i => if i == l.a || i == l.b || i == l.c then Some(Piece(c, z)) else None)
  }

  /** Each of the eight lines, filled with one colour, wins for that colour. */
  lemma EachLineWins(k: nat, c: Color, z: Size)
    requires k < |WinLines|
    ensures HasWin(FilledLine(k, c, z))
    ensures Winner(FilledLine(k, c, z)) == Some(c)
  {
  }
}
