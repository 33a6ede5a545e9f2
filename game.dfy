/** The game as a state machine over values: the whole engine state, the
    four operations as transitions, the invariant every reachable state
    keeps, and the laws relating the operations. The class in `Engine`
    implements each transition in place. */
module Game {
  import opened Rules

  /** Remaining pieces of one colour, `pieces[color]` in the source. */
  datatype Stock = Stock(large: int, medium: int, small: int) {

    function Get(z: Size): int
    {
      match z
      case Large => large
      case Medium => medium
      case Small => small
    }

    /** One piece of size `z` fewer, the other sizes untouched. */
    function Take(z: Size): (r: Stock)
      ensures r.Get(z) == Get(z) - 1
      ensures forall y :: y != z ==> r.Get(y) == Get(y)
    {
      match z
      case Large => this.(large := large - 1)
      case Medium => this.(medium := medium - 1)
      case Small => this.(small := small - 1)
    }
  }

  /** What each colour starts a game with: two large, three medium, three small. */
  const FullStock := Stock(2, 3, 3)

  /** The `pieces` table: remaining count per colour and size. */
  datatype Inventory = Inventory(black: Stock, white: Stock) {

    function Get(c: Color, z: Size): int
    {
      if c == Black then black.Get(z) else white.Get(z)
    }

    /** `pieces[c][z]--`: that one count drops by one, no other changes. */
    function Take(c: Color, z: Size): (r: Inventory)
      ensures r.Get(c, z) == Get(c, z) - 1
      ensures forall d, y :: d != c || y != z ==> r.Get(d, y) == Get(d, y)
      ensures r.Total() == Total() - 1
    {
      if c == Black then this.(black := black.Take(z)) else this.(white := white.Take(z))
    }

    function Total(): int
    {
      Get(Black, Large) + Get(Black, Medium) + Get(Black, Small)
      + Get(White, Large) + Get(White, Medium) + Get(White, Small)
    }

    ghost predicate NonNegative()
    {
      forall c, z :: Get(c, z) >= 0
    }
  }

  const FullInventory := Inventory(FullStock, FullStock)

  /** Pieces taken from the inventory since the last reset. */
  function Used(pieces: Inventory): int
  {
    FullInventory.Total() - pieces.Total()
  }

  /** One history record: the cell a placement wrote and what it held before. */
  datatype Entry = Entry(index: CellIndex, previous: Cell)

  /** The source's six module-level variables. */
  datatype State = State(
    board: seq<Cell>,
    pieces: Inventory,
    history: seq<Entry>,
    player: Color,
    selected: Option<Piece>,
    active: bool)

  /** The reasons an operation is refused (the source's error messages). */
  datatype Error = GameInactive | WrongTurn | PieceExhausted | NoPieceSelected | IllegalCapture | NothingToUndo

  datatype Outcome = Ok | Err(error: Error)

  datatype Transition = Transition(next: State, outcome: Outcome)

  const EmptyBoard: seq<Cell> := [None, None, None, None, None, None, None, None, None]

  /** The state at load time and after every reset. */
  function Initial(): State
  {
    State(EmptyBoard, FullInventory, [], Black, None, true)
  }

  /** `selectPiece(color, size)`. */
  function Select(s: State, c: Color, z: Size): (r: Transition)
    ensures r.outcome.Err? ==> r.next == s
    ensures r.outcome == Err(GameInactive) <==> !s.active
    ensures r.outcome == Err(WrongTurn) <==> s.active && c != s.player
    ensures r.outcome == Err(PieceExhausted) <==> s.active && c == s.player && s.pieces.Get(c, z) <= 0
    ensures r.outcome.Ok? <==> s.active && c == s.player && s.pieces.Get(c, z) > 0
    ensures r.outcome.Ok? ==> r.next == s.(selected := Some(Piece(c, z)))
  {
    if !s.active then Transition(s, Err(GameInactive))
    else if s.player != c then Transition(s, Err(WrongTurn))
    else if s.pieces.Get(c, z) > 0 then Transition(s.(selected := Some(Piece(c, z))), Ok)
    else Transition(s, Err(PieceExhausted))
  }

  /** `handleCellClick` on cell `i`: put the selected piece there if the cell
      is empty or holds a strictly smaller piece, record what was there,
      spend the piece, then end the game on a completed line or pass the turn. */
  function Place(s: State, i: CellIndex): (r: Transition)
    requires |s.board| == 9
    ensures r.outcome.Err? ==> r.next == s
    ensures r.outcome == Err(GameInactive) <==> !s.active
    ensures r.outcome == Err(NoPieceSelected) <==> s.active && s.selected.None?
    ensures r.outcome == Err(IllegalCapture) <==>
      s.active && s.selected.Some? && s.board[i].Some?
      && !CanCapture(s.selected.value.size, s.board[i].value.size)
    ensures r.outcome.Ok? <==> (s.active && s.selected.Some?
                                && (s.board[i].None? || CanCapture(s.selected.value.size, s.board[i].value.size)))
    ensures r.outcome.Ok? ==>
      var p := s.selected.value;
      && r.next.history == s.history + [Entry(i, s.board[i])]
      && r.next.board == s.board[i := Some(p)]
      && r.next.pieces == s.pieces.Take(p.color, p.size)
      && r.next.selected == None
      && r.next.active == !HasWin(r.next.board)
      && r.next.player == (if r.next.active then Other(s.player) else s.player)
  {
    if !s.active then Transition(s, Err(GameInactive))
    else if s.selected.None? then Transition(s, Err(NoPieceSelected))
    else
      var p := s.selected.value;
      if s.board[i].Some? && !CanCapture(p.size, s.board[i].value.size) then
        Transition(s, Err(IllegalCapture))
      else
        var board := s.board[i := Some(p)];
        var active := !HasWin(board);
        Transition(State(board, s.pieces.Take(p.color, p.size), s.history + [Entry(i, s.board[i])],
                         if active then Other(s.player) else s.player, None, active), Ok)
  }

  /** `undoMove`: pop the last record, put back what the cell held and pass
      the turn. Inventory and selection are left as they are. */
  function Undo(s: State): (r: Transition)
    requires |s.board| == 9
    ensures r.outcome.Err? ==> r.next == s
    ensures r.outcome == Err(GameInactive) <==> !s.active
    ensures r.outcome == Err(NothingToUndo) <==> s.active && s.history == []
    ensures r.outcome.Ok? <==> s.active && s.history != []
    ensures r.outcome.Ok? ==>
      var e := s.history[|s.history| - 1];
      && r.next.history == s.history[..|s.history| - 1]
      && r.next.board == s.board[e.index := e.previous]
      && r.next.player == Other(s.player)
      && r.next.pieces == s.pieces && r.next.selected == s.selected && r.next.active
  {
    if !s.active then Transition(s, Err(GameInactive))
    else if |s.history| > 0 then
      var e := s.history[|s.history| - 1];
      Transition(s.(board := s.board[e.index := e.previous], history := s.history[..|s.history| - 1],
                    player := Other(s.player)), Ok)
    else Transition(s, Err(NothingToUndo))
  }

  /** `resetGame`: succeeds from any state. */
  function Reset(s: State): (r: Transition)
    ensures r.outcome == Ok
    ensures |r.next.board| == 9 && forall j :: 0 <= j < 9 ==> r.next.board[j] == None
    ensures forall c :: r.next.pieces.Get(c, Large) == 2 && r.next.pieces.Get(c, Medium) == 3
                        && r.next.pieces.Get(c, Small) == 3
    ensures r.next.history == [] && r.next.selected == None
    ensures r.next.player == Black && r.next.active
  {
    Transition(Initial(), Ok)
  }

  /** The calls the presentation layer can make. */
  datatype Action = SelectPiece(color: Color, size: Size) | ClickCell(index: CellIndex) | UndoMove | ResetGame

  function Step(s: State, a: Action): (r: Transition)
    requires |s.board| == 9
    ensures |r.next.board| == 9
  {
    match a
    case SelectPiece(c, z) => Select(s, c, z)
    case ClickCell(i) => Place(s, i)
    case UndoMove => Undo(s)
    case ResetGame => Reset(s)
  }

  /** The state after a sequence of calls. */
  function Run(s: State, actions: seq<Action>): (r: State)
    requires |s.board| == 9
    ensures |r.board| == 9
    decreases |actions|
  {
    if actions == [] then s else Run(Step(s, actions[0]).next, actions[1..])
  }

  /** The board after taking back the last `k` placements of `history`. */
  function Unwind(board: seq<Cell>, history: seq<Entry>, k: nat): (r: seq<Cell>)
    requires |board| == 9 && k <= |history|
    ensures |r| == 9
    decreases k
  {
    if k == 0 then board
    else
      var e := history[|history| - 1];
      Unwind(board[e.index := e.previous], history[..|history| - 1], k - 1)
  }

  /** What every reachable state satisfies:
      - no count is negative, and a selected piece is still in stock;
      - each history record stands for a piece taken from stock;
      - the game is active exactly while no line is completed;
      - while it is active, no board that undo can lead back to is a won one. */
  ghost predicate Inv(s: State)
  {
    && |s.board| == 9
    && s.pieces.NonNegative()
    && (s.selected.Some? ==> s.pieces.Get(s.selected.value.color, s.selected.value.size) > 0)
    && |s.history| <= Used(s.pieces)
    && (s.active <==> !HasWin(s.board))
    && (s.active ==> forall k :: 0 <= k <= |s.history| ==> !HasWin(Unwind(s.board, s.history, k)))
  }

  lemma InitialInv()
    ensures Inv(Initial())
  {
  }

  lemma SelectPreservesInv(s: State, c: Color, z: Size)
    requires Inv(s)
    ensures Inv(Select(s, c, z).next)
  {
  }

  /** Undoing the record a placement just pushed gives back the board it
      wrote over, so the unwinding of the new history continues that of the old. */
  lemma UnwindAfterPlace(board: seq<Cell>, history: seq<Entry>, i: CellIndex, p: Piece, k: nat)
    requires |board| == 9 && 1 <= k <= |history| + 1
    ensures Unwind(board[i := Some(p)], history + [Entry(i, board[i])], k) == Unwind(board, history, k - 1)
  {
    var h := history + [Entry(i, board[i])];
    assert h[..|h| - 1] == history;
    assert board[i := Some(p)][i := board[i]] == board;
  }

  lemma PlacePreservesInv(s: State, i: CellIndex)
    requires Inv(s)
    ensures Inv(Place(s, i).next)
  {
    var r := Place(s, i);
    if r.outcome.Ok? {
      var t := r.next;
      var p := s.selected.value;
      assert t.pieces.NonNegative() by {
        forall c, z ensures t.pieces.Get(c, z) >= 0 {
          assert s.pieces.Get(c, z) >= 0;
        }
      }
      if t.active {
        forall k | 0 <= k <= |t.history| ensures !HasWin(Unwind(t.board, t.history, k)) {
          if k > 0 {
            UnwindAfterPlace(s.board, s.history, i, p, k);
          }
        }
      }
    }
  }

  lemma UndoPreservesInv(s: State)
    requires Inv(s)
    ensures Inv(Undo(s).next)
  {
    var r := Undo(s);
    if r.outcome.Ok? {
      var t := r.next;
      assert Unwind(s.board, s.history, 1) == t.board;
      forall k | 0 <= k <= |t.history| ensures !HasWin(Unwind(t.board, t.history, k)) {
        assert Unwind(s.board, s.history, k + 1) == Unwind(t.board, t.history, k);
      }
    }
  }

  lemma ResetPreservesInv(s: State)
    ensures Inv(Reset(s).next)
  {
    InitialInv();
  }

  lemma StepPreservesInv(s: State, a: Action)
    requires Inv(s)
    ensures Inv(Step(s, a).next)
  {
    match a
    case SelectPiece(c, z) => SelectPreservesInv(s, c, z);
    case ClickCell(i) => PlacePreservesInv(s, i);
    case UndoMove => UndoPreservesInv(s);
    case ResetGame => ResetPreservesInv(s);
  }

  lemma {:induction false} RunPreservesInv(s: State, actions: seq<Action>)
    requires Inv(s)
    ensures Inv(Run(s, actions))
    decreases |actions|
  {
    if actions != [] {
      StepPreservesInv(s, actions[0]);
      RunPreservesInv(Step(s, actions[0]).next, actions[1..]);
    }
  }

  /** In every state reachable from the start, whatever the calls: no count
      is negative, a selected piece is in stock, history never outgrows the
      sixteen pieces, and the game is over exactly when a line is complete. */
  lemma Reachable(actions: seq<Action>)
    ensures var s := Run(Initial(), actions);
      && (forall c, z :: s.pieces.Get(c, z) >= 0)
      && (s.selected.Some? ==> s.pieces.Get(s.selected.value.color, s.selected.value.size) >= 1)
      && |s.history| <= 16
      && (s.active <==> !HasWin(s.board))
  {
    InitialInv();
    RunPreservesInv(Initial(), actions);
  }

  /** Once the game is over, every call but reset is refused with no change. */
  lemma EndedIsTerminal(s: State, a: Action)
    requires |s.board| == 9 && !s.active && !a.ResetGame?
    ensures Step(s, a) == Transition(s, Err(GameInactive))
  {
  }

  /** A placement that does not end the game, followed by undo, gives back
      the board, the history and the player to move; the spent piece is not
      refunded and the selection stays cleared. */
  lemma PlaceThenUndo(s: State, i: CellIndex)
    requires |s.board| == 9
    requires Place(s, i).outcome.Ok? && Place(s, i).next.active
    ensures var u := Undo(Place(s, i).next);
      && u.outcome == Ok
      && u.next.board == s.board
      && u.next.history == s.history
      && u.next.player == s.player
      && u.next.active
      && u.next.pieces == s.pieces.Take(s.selected.value.color, s.selected.value.size)
      && u.next.pieces != s.pieces
      && u.next.selected == None
  {
  }

  /** The placement that ends the game completes a line of the placed
      piece's colour through the cell it was put on, so the winner shown
      is the owner of that piece. */
  lemma WinnerIsMover(s: State, i: CellIndex)
    requires Inv(s)
    requires Place(s, i).outcome.Ok? && !Place(s, i).next.active
    ensures Winner(Place(s, i).next.board) == Some(s.selected.value.color)
    ensures forall k :: 0 <= k < |WinLines| && LineWins(Place(s, i).next.board, WinLines[k]) ==>
              i in {WinLines[k].a, WinLines[k].b, WinLines[k].c}
  {
  }

  /** The opening move: black selects a large piece and plays the top-left
      corner, cell 0; white is to move, cell 0 holds a black large piece and black
      has one large piece left. */
  lemma OpeningMove()
    ensures var s1 := Select(Initial(), Black, Large);
      && s1.outcome == Ok
      && var s2 := Place(s1.next, 0);
      && s2.outcome == Ok
      && s2.next.player == White
      && s2.next.board[0] == Some(Piece(Black, Large))
      && s2.next.pieces.Get(Black, Large) == 1
  {
  }
}
