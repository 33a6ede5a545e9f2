/** The engine as the source keeps it: mutable fields updated in place by
    each operation, with the nine cells in an array. Each operation leaves
    the engine in the state that the matching transition of `Game`
    prescribes, so every law proved there holds of the engine. */
module Engine {
  import opened Rules
  import opened Game

  class GameEngine {
    var board: array<Cell>
    var pieces: Inventory
    var history: seq<Entry>
    var currentPlayer: Color
    var selectedPiece: Option<Piece>
    var gameActive: bool

    /** The engine's fields as one value. */
    ghost function Snapshot(): State
      reads this, board
    {
      State(board[..], pieces, history, currentPlayer, selectedPiece, gameActive)
    }

    ghost predicate Valid()
      reads this, board
    {
      board.Length == 9 && Inv(Snapshot())
    }

    /** The state the page starts in: empty board, full stock, black to move. */
    constructor ()
      ensures Valid() && fresh(board)
      ensures Snapshot() == Initial()
    {
      board := new Cell[9](j => None);
      pieces := FullInventory;
      history := [];
      currentPlayer := Black;
      selectedPiece := None;
      gameActive := true;
      new;
      assert board[..] == EmptyBoard;
      InitialInv();
    }

    /** `selectPiece`: only the selection can change. */
    method SelectPiece(color: Color, size: Size) returns (outcome: Outcome)
      requires Valid()
      modifies this`selectedPiece
      ensures Valid()
      ensures Transition(Snapshot(), outcome) == Select(old(Snapshot()), color, size)
    {
      SelectPreservesInv(Snapshot(), color, size);
      if !gameActive {
        return Err(GameInactive);
      }
      if currentPlayer != color {
        return Err(WrongTurn);
      }
      if pieces.Get(color, size) > 0 {
        selectedPiece := Some(Piece(color, size));
        outcome := Ok;
      } else {
        outcome := Err(PieceExhausted);
      }
    }

    /** `switchPlayer`. */
    method SwitchPlayer()
      modifies this`currentPlayer
      ensures currentPlayer == Other(old(currentPlayer))
    {
      currentPlayer := Other(currentPlayer);
    }

    /** `checkWin`: scan the eight lines in order and end the game at the
        first completed one; otherwise leave the status alone. */
    method CheckWin()
      requires board.Length == 9
      modifies this`gameActive
      ensures gameActive == (old(gameActive) && !HasWin(board[..]))
    {
      for k := 0 to |WinLines|
        invariant forall j :: 0 <= j < k ==> !LineWins(board[..], WinLines[j])
      {
        var l := WinLines[k];
        var a, b, c := board[l.a], board[l.b], board[l.c];
        if a.Some? && b.Some? && c.Some? && a.value.color == b.value.color && a.value.color == c.value.color {
          assert LineWins(board[..], l);
          gameActive := false;
          return;
        }
      }
    }

    /** `handleCellClick` on cell `index`. */
    method HandleCellClick(index: CellIndex) returns (outcome: Outcome)
      requires Valid()
      modifies this, board
      ensures Valid() && board == old(board)
      ensures Transition(Snapshot(), outcome) == Place(old(Snapshot()), index)
    {
      PlacePreservesInv(Snapshot(), index);
      if !gameActive {
        return Err(GameInactive);
      }
      if selectedPiece.None? {
        return Err(NoPieceSelected);
      }
      var piece := selectedPiece.value;
      var existing := board[index];
      if existing.Some? && !CanCapture(piece.size, existing.value.size) {
        return Err(IllegalCapture);
      }
      history := history + [Entry(index, existing)];
      board[index] := Some(piece);
      pieces := pieces.Take(piece.color, piece.size);
      selectedPiece := None;
      CheckWin();
      if gameActive {
        SwitchPlayer();
      }
      outcome := Ok;
    }

    /** `undoMove`. */
    method UndoMove() returns (outcome: Outcome)
      requires Valid()
      modifies this, board
      ensures Valid() && board == old(board)
      ensures Transition(Snapshot(), outcome) == Undo(old(Snapshot()))
    {
      UndoPreservesInv(Snapshot());
      if !gameActive {
        return Err(GameInactive);
      }
      if |history| > 0 {
        var last := history[|history| - 1];
        history := history[..|history| - 1];
        board[last.index] := last.previous;
        SwitchPlayer();
        outcome := Ok;
      } else {
        outcome := Err(NothingToUndo);
      }
    }

    /** `resetGame`: clear the same board array in place and restore the rest. */
    method ResetGame()
      requires board.Length == 9
      modifies this, board
      ensures Valid() && board == old(board)
      ensures Transition(Snapshot(), Ok) == Reset(old(Snapshot()))
    {
      for k := 0 to board.Length
        invariant board == old(board)
        invariant forall j :: 0 <= j < k ==> board[j] == None
      {
        board[k] := None;
      }
      pieces := FullInventory;
      history := [];
      selectedPiece := None;
      currentPlayer := Black;
      gameActive := true;
      assert board[..] == EmptyBoard;
      InitialInv();
    }
  }
}
