/**
  The game object: the board as a two-dimensional array that moves write
  into, and the number of the player to move. A ghost field mirrors the
  board as a grid of rows, and each operation is proved against the
  value-level rules of module Rules on that grid.
 */
module Game {
  import opened Rules
  import Properties

  /** A new h-by-w board with every cell holding the string "null". */
  method MakeBoard(h: nat, w: nat) returns (grid: array2<Cell>)
    ensures fresh(grid)
    ensures grid.Length0 == h && grid.Length1 == w
    ensures forall y, x :: 0 <= y < h && 0 <= x < w ==> grid[y, x] == EmptyGrid(h, w)[y][x]
  {
    grid := new Cell[h, w];
    for rows := 0 to h
      invariant forall y, x :: 0 <= y < rows && 0 <= x < w ==> grid[y, x] == NullString
    {
      for column := 0 to w
        invariant forall y, x :: 0 <= y < rows && 0 <= x < w ==> grid[y, x] == NullString
        invariant forall x :: 0 <= x < column ==> grid[rows, x] == NullString
      {
        grid[rows, column] := NullString;
      }
    }
  }

  class ConnectFour {
    var board: array2<Cell>
    var currPlayer: int

    // The board as a grid of rows, for the specification.
    ghost var cells: Grid

    /** The board has the game's size and holds what cells says. */
    ghost predicate Mirrors()
      reads this, board
    {
      board.Length0 == HEIGHT && board.Length1 == WIDTH && WellFormed(cells) &&
      forall y, x :: InBounds(y, x) ==> board[y, x] == cells[y][x]
    }

    /** Besides, the player to move is 1 or 2 and the pieces in every
        column are stacked from the bottom. */
    ghost predicate Valid()
      reads this, board
    {
      Mirrors() && IsPlayer(currPlayer) && Settled(cells)
    }

    /** The state the script sets up when it loads: an empty board and
        player 1 to move. */
    constructor ()
      ensures Valid() && fresh(board)
      ensures cells == EmptyGrid(HEIGHT, WIDTH) && currPlayer == 1
    {
      var grid := MakeBoard(HEIGHT, WIDTH);
      board := grid;
      currPlayer := 1;
      cells := EmptyGrid(HEIGHT, WIDTH);
      Properties.EmptyGridSettled();
    }

    /** Every listed cell is on the board and holds the piece of the player
        to move. */
    predicate AllCurrent(run: seq<(int, int)>)
      reads this, board
      requires Mirrors()
      ensures AllCurrent(run) <==> Win(cells, currPlayer, run)
    {
      forall i :: 0 <= i < |run| ==>
        0 <= run[i].0 < HEIGHT && 0 <= run[i].1 < WIDTH && board[run[i].0, run[i].1] == Mark(currPlayer)
    }

    /** The row a piece dropped into column x lands in, scanning from the
        bottom row up; None when the column is full. */
    method FindSpotForCol(x: int) returns (spot: Option<nat>)
      requires Mirrors() && 0 <= x < WIDTH
      ensures spot == DropRow(cells, x)
    {
      var y := board.Length0 - 1;
      while y > -1
        invariant -1 <= y < HEIGHT
        invariant forall yy :: y < yy < HEIGHT ==> Occupied(cells[yy][x])
      {
        if !(board[y, x] == Mark(1) || board[y, x] == Mark(2)) {
          return Some(y);
        }
        y := y - 1;
      }
      return None;
    }

    /** Whether a win for the player to move starts at (y, x): the cells
        from there rightwards, downwards, down-right or down-left. */
    predicate WinsFrom(y: int, x: int)
      reads this, board
      requires Mirrors()
      ensures WinsFrom(y, x) && InBounds(y, x) ==> HasWin(cells, currPlayer)
      ensures !WinsFrom(y, x) ==> forall d :: !Win(cells, currPlayer, Run(y, x, d))
    {
      if AllCurrent(Run(y, x, Horizontal)) || AllCurrent(Run(y, x, Vertical)) ||
         AllCurrent(Run(y, x, DiagDownRight)) || AllCurrent(Run(y, x, DiagDownLeft))
      then true
      else
        Properties.NoDirectionLeft(cells, currPlayer, y, x);
        false
    }

    /** Whether the player to move has four in a row anywhere: every origin
        cell, row by row, in the four forward directions. */
    method CheckForWin() returns (won: bool)
      requires Mirrors()
      ensures won == HasWin(cells, currPlayer)
    {
      for y := 0 to HEIGHT
        invariant forall yy, xx, d :: 0 <= yy < y && 0 <= xx < WIDTH ==> !Win(cells, currPlayer, Run(yy, xx, d))
      {
        for x := 0 to WIDTH
          invariant forall yy, xx, d :: 0 <= yy < y && 0 <= xx < WIDTH ==> !Win(cells, currPlayer, Run(yy, xx, d))
          invariant forall xx, d :: 0 <= xx < x ==> !Win(cells, currPlayer, Run(y, xx, d))
        {
          if WinsFrom(y, x) {
            assert InBounds(y, x);
            return true;
          }
          forall xx, d | 0 <= xx <= x
            ensures !Win(cells, currPlayer, Run(y, xx, d))
          {
            if xx == x {
              assert !Win(cells, currPlayer, Run(y, x, d));
            }
          }
        }
      }
      return false;
    }

    /** Whether every cell holds 1 or 2. */
    predicate IsBoardFull()
      reads this, board
      requires Mirrors()
      ensures IsBoardFull() <==> IsFull(cells)
    {
      forall y, x :: 0 <= y < HEIGHT && 0 <= x < WIDTH ==> Occupied(board[y, x])
    }

    /** Throws the board away for a new empty one; the player to move is
        left as it was. */
    method StartNewGame()
      requires Valid()
      modifies this
      ensures Valid() && fresh(board)
      ensures cells == EmptyGrid(HEIGHT, WIDTH)
      ensures currPlayer == old(currPlayer)
    {
      board := MakeBoard(HEIGHT, WIDTH);
      cells := EmptyGrid(HEIGHT, WIDTH);
      Properties.EmptyGridSettled();
    }

    /** A click on column x: ignored when the column is full; otherwise the
        mover's piece goes into the landing row, and the click reports a
        win, else a tie, else passes the turn. */
    method Move(x: int) returns (outcome: Outcome)
      requires Valid() && 0 <= x < WIDTH
      modifies this, board
      ensures Valid() && board == old(board)
      ensures (cells, currPlayer, outcome) == Step(old(cells), old(currPlayer), x)
    {
      var spot := FindSpotForCol(x);
      if spot == None {
        return Ignored;
      }
      var y := spot.value;
      board[y, x] := Mark(currPlayer);
      Properties.PlaceKeepsSettled(cells, x, Mark(currPlayer));
      cells := Place(cells, y, x, Mark(currPlayer));

      var won := CheckForWin();
      if won {
        return Won(currPlayer);
      }
      if IsBoardFull() {
        return Tie;
      }
      currPlayer := if currPlayer == 1 then 2 else 1;
      outcome := Continue;
    }
  }
}
