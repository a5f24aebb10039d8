/**
  What the rules promise: where a dropped piece lands, that pieces stay
  stacked, what the win scan finds, how turns pass and how the piece
  counts of the two players relate.
 */
module Properties {
  import opened Rules

  // ---------------------------------------------------------------------
  // Dropping pieces

  /** On a new board every column takes its first piece in the bottom row. */
  lemma EmptyColumnLandsAtBottom(x: int)
    requires 0 <= x < WIDTH
    ensures DropRow(EmptyGrid(HEIGHT, WIDTH), x) == Some(HEIGHT - 1)
  {
    var g := EmptyGrid(HEIGHT, WIDTH);
    assert !Occupied(g[HEIGHT - 1][x]);
  }

  /** On a settled board the landing row is the top of the column's stack:
      it and every cell above it are empty. */
  lemma DropRowIsTopOfStack(g: Grid, x: int)
    requires WellFormed(g) && 0 <= x < WIDTH && Settled(g)
    requires DropRow(g, x).Some?
    ensures forall y :: 0 <= y <= DropRow(g, x).value ==> !Occupied(g[y][x])
  {
    var r := DropRow(g, x).value;
    assert !Occupied(g[r][x]);
  }

  /** The new board is settled. */
  lemma EmptyGridSettled()
    ensures WellFormed(EmptyGrid(HEIGHT, WIDTH)) && Settled(EmptyGrid(HEIGHT, WIDTH))
  {
  }

  /** Putting a piece in the landing row keeps every column stacked. */
  lemma PlaceKeepsSettled(g: Grid, x: int, c: Cell)
    requires WellFormed(g) && 0 <= x < WIDTH && Settled(g)
    requires DropRow(g, x).Some? && Occupied(c)
    ensures Settled(Place(g, DropRow(g, x).value, x, c))
  {
    var y := DropRow(g, x).value;
    var h := Place(g, y, x, c);
    DropRowIsTopOfStack(g, x);
    forall y1, y2, xx | 0 <= y1 < y2 < HEIGHT && 0 <= xx < WIDTH && Occupied(h[y1][xx])
      ensures Occupied(h[y2][xx])
    {
      if xx == x && y2 != y {
        if y1 == y {
          assert y < y2;
        } else {
          assert Occupied(g[y1][x]);
        }
      }
    }
  }

  /** A click keeps every column stacked. */
  lemma StepKeepsSettled(g: Grid, p: int, x: int)
    requires WellFormed(g) && 0 <= x < WIDTH && Settled(g) && IsPlayer(p)
    ensures Settled(Step(g, p, x).0)
  {
    if !ColumnFull(g, x) {
      PlaceKeepsSettled(g, x, Mark(p));
    }
  }

  /** A full board leaves no column to play in. */
  lemma FullMeansNoColumnOpen(g: Grid)
    requires WellFormed(g)
    ensures IsFull(g) <==> forall x :: 0 <= x < WIDTH ==> DropRow(g, x) == None
  {
    if forall x :: 0 <= x < WIDTH ==> DropRow(g, x) == None {
      forall y, x | 0 <= y < |g| && 0 <= x < |g[y]|
        ensures Occupied(g[y][x])
      {
        assert DropRow(g, x) == None;
      }
    }
  }

  // ---------------------------------------------------------------------
  // Finding four in a row

  /** A unit step that points down, or right along a row. */
  predicate Forward(dy: int, dx: int) {
    dy == 1 || (dy == 0 && dx == 1)
  }

  /** The scan direction of a forward unit step. */
  function ForwardOf(dy: int, dx: int): (d: Direction)
    requires UnitStep(dy, dx) && Forward(dy, dx)
    ensures DeltaY(d) == dy && DeltaX(d) == dx
  {
    if dy == 0 then Horizontal
    else if dx == 0 then Vertical
    else if dx == 1 then DiagDownRight
    else DiagDownLeft
  }

  /** The four directions the scan tries at an origin are all there are. */
  lemma NoDirectionLeft(g: Grid, p: int, y: int, x: int)
    requires WellFormed(g)
    requires !Win(g, p, Run(y, x, Horizontal)) && !Win(g, p, Run(y, x, Vertical))
    requires !Win(g, p, Run(y, x, DiagDownRight)) && !Win(g, p, Run(y, x, DiagDownLeft))
    ensures forall d :: !Win(g, p, Run(y, x, d))
  {
    forall d
      ensures !Win(g, p, Run(y, x, d))
    {
      match d
      case Horizontal =>
      case Vertical =>
      case DiagDownRight =>
      case DiagDownLeft =>
    }
  }

  /** A run found by the scan is a line of four. */
  lemma RunIsLine(g: Grid, p: int, y: int, x: int, d: Direction)
    requires WellFormed(g) && Win(g, p, Run(y, x, d))
    ensures LineOfFour(g, p)
  {
    assert UnitStep(DeltaY(d), DeltaX(d));
    assert Win(g, p, Segment(y, x, DeltaY(d), DeltaX(d)));
  }

  /** The same four cells, listed from the other end, are still all p's. */
  lemma {:induction false} SegmentReversed(g: Grid, p: int, y: int, x: int, dy: int, dx: int)
    requires WellFormed(g) && Win(g, p, Segment(y, x, dy, dx))
    ensures Win(g, p, Segment(y + 3 * dy, x + 3 * dx, -dy, -dx))
  {
    var s := Segment(y, x, dy, dx);
    var t := Segment(y + 3 * dy, x + 3 * dx, -dy, -dx);
    forall i | 0 <= i < 4
      ensures 0 <= t[i].0 < HEIGHT && 0 <= t[i].1 < WIDTH && g[t[i].0][t[i].1] == Mark(p)
    {
      assert t[i] == s[3 - i];
    }
  }

  /** A line of four stepping forward is found from its first cell. */
  lemma ForwardLineIsFound(g: Grid, p: int, y: int, x: int, dy: int, dx: int)
    requires WellFormed(g) && UnitStep(dy, dx) && Forward(dy, dx)
    requires Win(g, p, Segment(y, x, dy, dx))
    ensures HasWin(g, p)
  {
    var d := ForwardOf(dy, dx);
    assert Run(y, x, d) == Segment(y, x, dy, dx);
    assert Segment(y, x, dy, dx)[0] == (y, x);
    assert InBounds(y, x) && Win(g, p, Run(y, x, d));
  }

  /** A line of four in any direction is found by the forward scan, from
      one end or the other. */
  lemma LineIsFound(g: Grid, p: int, y: int, x: int, dy: int, dx: int)
    requires WellFormed(g) && UnitStep(dy, dx) && Win(g, p, Segment(y, x, dy, dx))
    ensures HasWin(g, p)
  {
    if Forward(dy, dx) {
      ForwardLineIsFound(g, p, y, x, dy, dx);
    } else {
      BackwardLineIsFound(g, p, y, x, dy, dx);
    }
  }

  /** A line of four stepping up, or left along a row, is found from its
      last cell. */
  lemma BackwardLineIsFound(g: Grid, p: int, y: int, x: int, dy: int, dx: int)
    requires WellFormed(g) && UnitStep(dy, dx) && !Forward(dy, dx)
    requires Win(g, p, Segment(y, x, dy, dx))
    ensures HasWin(g, p)
  {
    SegmentReversed(g, p, y, x, dy, dx);
    ForwardLineIsFound(g, p, y + 3 * dy, x + 3 * dx, -dy, -dx);
  }

  /** Scanning forward directions from every origin finds exactly the
      lines of four in all eight directions. */
  lemma ScanFindsEveryLine(g: Grid, p: int)
    requires WellFormed(g)
    ensures HasWin(g, p) <==> LineOfFour(g, p)
  {
    if HasWin(g, p) {
      var y, x, d :| InBounds(y, x) && Win(g, p, Run(y, x, d));
      RunIsLine(g, p, y, x, d);
    }
    if LineOfFour(g, p) {
      var y, x, dy, dx :| UnitStep(dy, dx) && Win(g, p, Segment(y, x, dy, dx));
      LineIsFound(g, p, y, x, dy, dx);
    }
  }

  /** A non-empty run belongs to one player only. */
  lemma RunHasOneOwner(g: Grid, p: int, q: int, cells: seq<(int, int)>)
    requires WellFormed(g) && cells != []
    requires Win(g, p, cells) && Win(g, q, cells)
    ensures p == q
  {
    assert g[cells[0].0][cells[0].1] == Mark(p);
  }

  /** Only p's own pieces decide whether p has won: two boards with p's
      pieces in the same cells agree, whatever else they hold. */
  lemma {:induction false} OnlyOwnPiecesCount(g: Grid, h: Grid, p: int)
    requires WellFormed(g) && WellFormed(h)
    requires forall y, x :: InBounds(y, x) ==> (g[y][x] == Mark(p) <==> h[y][x] == Mark(p))
    ensures HasWin(g, p) <==> HasWin(h, p)
  {
    if HasWin(g, p) {
      var y, x, d :| InBounds(y, x) && Win(g, p, Run(y, x, d));
      WinCarriesOver(g, h, p, Run(y, x, d));
    }
    if HasWin(h, p) {
      var y, x, d :| InBounds(y, x) && Win(h, p, Run(y, x, d));
      WinCarriesOver(h, g, p, Run(y, x, d));
    }
  }

  lemma WinCarriesOver(g: Grid, h: Grid, p: int, cells: seq<(int, int)>)
    requires WellFormed(g) && WellFormed(h)
    requires forall y, x :: InBounds(y, x) ==> (g[y][x] == Mark(p) <==> h[y][x] == Mark(p))
    requires Win(g, p, cells)
    ensures Win(h, p, cells)
  {
    forall i | 0 <= i < |cells|
      ensures 0 <= cells[i].0 < HEIGHT && 0 <= cells[i].1 < WIDTH && h[cells[i].0][cells[i].1] == Mark(p)
    {
      assert InBounds(cells[i].0, cells[i].1);
    }
  }

  /** A piece of player p never creates a win for another player, which is
      why the click handler only looks for a win of the mover. */
  lemma PlaceCannotWinForOpponent(g: Grid, y: int, x: int, p: int, q: int)
    requires WellFormed(g) && InBounds(y, x) && q != p && !HasWin(g, q)
    ensures !HasWin(Place(g, y, x, Mark(p)), q)
  {
  }

  /** Filling an empty cell never destroys a player's existing win. */
  lemma PlaceKeepsWin(g: Grid, y: int, x: int, c: Cell, p: int)
    requires WellFormed(g) && InBounds(y, x) && IsPlayer(p)
    requires HasWin(g, p) && !Occupied(g[y][x])
    ensures HasWin(Place(g, y, x, c), p)
  {
    var y0, x0, d :| InBounds(y0, x0) && Win(g, p, Run(y0, x0, d));
    PlaceKeepsRun(g, y, x, c, p, Run(y0, x0, d));
  }

  /** A run of p's pieces avoids every empty cell, so writing there keeps it. */
  lemma PlaceKeepsRun(g: Grid, y: int, x: int, c: Cell, p: int, cells: seq<(int, int)>)
    requires WellFormed(g) && InBounds(y, x) && IsPlayer(p)
    requires Win(g, p, cells) && !Occupied(g[y][x])
    ensures Win(Place(g, y, x, c), p, cells)
  {
    var h := Place(g, y, x, c);
    forall i | 0 <= i < |cells|
      ensures 0 <= cells[i].0 < HEIGHT && 0 <= cells[i].1 < WIDTH && h[cells[i].0][cells[i].1] == Mark(p)
    {
      assert g[cells[i].0][cells[i].1] == Mark(p);
    }
  }

  /** The board with c written into each listed cell. */
  function PlaceAll(g: Grid, cells: seq<(int, int)>, c: Cell): (r: Grid)
    requires WellFormed(g)
    requires forall i :: 0 <= i < |cells| ==> InBounds(cells[i].0, cells[i].1)
    ensures WellFormed(r)
    ensures forall y, x :: InBounds(y, x) ==> r[y][x] == if (y, x) in cells then c else g[y][x]
    decreases |cells|
  {
    if cells == [] then g
    else PlaceAll(Place(g, cells[0].0, cells[0].1, c), cells[1..], c)
  }

  /** A new board with only one run of four of p's pieces is a win for p and
      for no other player. */
  lemma RunRoundTrip(p: int, y: int, x: int, d: Direction)
    requires forall i :: 0 <= i < 4 ==> InBounds(Run(y, x, d)[i].0, Run(y, x, d)[i].1)
    ensures HasWin(PlaceAll(EmptyGrid(HEIGHT, WIDTH), Run(y, x, d), Mark(p)), p)
    ensures forall q :: q != p ==> !HasWin(PlaceAll(EmptyGrid(HEIGHT, WIDTH), Run(y, x, d), Mark(p)), q)
  {
    var cells := Run(y, x, d);
    var g := PlaceAll(EmptyGrid(HEIGHT, WIDTH), cells, Mark(p));
    PlacedRunIsWin(cells, p);
    assert InBounds(y, x);
    forall q | q != p
      ensures !HasWin(g, q)
    {
      OnlyPlacedPieces(cells, p, q);
    }
  }

  /** The cells written by PlaceAll hold four of p's pieces. */
  lemma PlacedRunIsWin(cells: seq<(int, int)>, p: int)
    requires forall i :: 0 <= i < |cells| ==> InBounds(cells[i].0, cells[i].1)
    ensures Win(PlaceAll(EmptyGrid(HEIGHT, WIDTH), cells, Mark(p)), p, cells)
  {
    assert forall i :: 0 <= i < |cells| ==> cells[i] in cells;
  }

  /** A new board written with p's pieces only holds no piece of q. */
  lemma OnlyPlacedPieces(cells: seq<(int, int)>, p: int, q: int)
    requires forall i :: 0 <= i < |cells| ==> InBounds(cells[i].0, cells[i].1)
    requires q != p
    ensures forall y, x :: InBounds(y, x) ==> PlaceAll(EmptyGrid(HEIGHT, WIDTH), cells, Mark(p))[y][x] != Mark(q)
  {
  }

  // ---------------------------------------------------------------------
  // Turns and the end of the game

  /** No guard stops play after a win: the winner keeps the turn, and the
      next click on any open column is reported as the same win again. */
  lemma WinIsSticky(g: Grid, p: int, x: int, x2: int)
    requires WellFormed(g) && 0 <= x < WIDTH && 0 <= x2 < WIDTH && IsPlayer(p)
    requires Step(g, p, x).2.Won?
    requires !ColumnFull(Step(g, p, x).0, x2)
    ensures Step(Step(g, p, x).0, Step(g, p, x).1, x2).2 == Won(p)
  {
    var r := Step(g, p, x);
    PlaceKeepsWin(r.0, DropRow(r.0, x2).value, x2, Mark(p), p);
  }

  /** After a tie every click is ignored and changes nothing. */
  lemma TieIsFinal(g: Grid, p: int, x: int, x2: int)
    requires WellFormed(g) && 0 <= x < WIDTH && 0 <= x2 < WIDTH
    requires Step(g, p, x).2 == Tie
    ensures Step(Step(g, p, x).0, Step(g, p, x).1, x2) == (Step(g, p, x).0, Step(g, p, x).1, Ignored)
  {
    var r := Step(g, p, x);
    assert ColumnFull(r.0, x2);
  }

  /** Every board reached by clicks from a settled board is settled, and
      the player to move is always 1 or 2. */
  lemma {:induction false} PlayKeepsSettled(g: Grid, p: int, xs: seq<int>)
    requires WellFormed(g) && ValidColumns(xs) && Settled(g) && IsPlayer(p)
    ensures Settled(Play(g, p, xs).0) && IsPlayer(Play(g, p, xs).1)
    decreases |xs|
  {
    if xs != [] {
      var s := Step(g, p, xs[0]);
      StepKeepsSettled(g, p, xs[0]);
      assert ValidColumns(xs[1..]);
      PlayKeepsSettled(s.0, s.1, xs[1..]);
    }
  }

  // ---------------------------------------------------------------------
  // Piece counts

  /** Writing one element of a row changes its count of a value by what
      left and what arrived. */
  lemma RowCountUpdate(row: seq<Cell>, x: int, c: Cell, v: Cell)
    requires 0 <= x < |row|
    ensures multiset(row[x := c])[v] == multiset(row)[v] - (if row[x] == v then 1 else 0) + (if c == v then 1 else 0)
  {
    assert multiset(row[x := c]) == multiset(row) - multiset{row[x]} + multiset{c};
  }

  /** Writing one cell changes the count of a value by what left and what
      arrived. */
  lemma {:induction false} CountUpdate(g: Grid, y: int, x: int, c: Cell, v: Cell)
    requires 0 <= y < |g| && 0 <= x < |g[y]|
    ensures Count(g[y := g[y][x := c]], v)
         == Count(g, v) - (if g[y][x] == v then 1 else 0) + (if c == v then 1 else 0)
    decreases |g|
  {
    var h := g[y := g[y][x := c]];
    if y == 0 {
      assert h[1..] == g[1..];
      RowCountUpdate(g[0], x, c, v);
    } else {
      assert h[1..] == g[1..][y - 1 := g[1..][y - 1][x := c]];
      CountUpdate(g[1..], y - 1, x, c, v);
    }
  }

  /** A value that appears nowhere has count zero. */
  lemma {:induction false} CountAbsent(g: Grid, v: Cell)
    requires forall y, x :: 0 <= y < |g| && 0 <= x < |g[y]| ==> g[y][x] != v
    ensures Count(g, v) == 0
    decreases |g|
  {
    if g != [] {
      assert v !in g[0];
      assert forall y, x :: 0 <= y < |g[1..]| && 0 <= x < |g[1..][y]| ==> g[1..][y][x] == g[y + 1][x];
      CountAbsent(g[1..], v);
    }
  }

  /** A board counts as balanced for player p exactly when p is 1 on a new
      board, so a game restarted with player 2 to move starts unbalanced. */
  lemma ResetBalance(p: int)
    ensures Balanced(EmptyGrid(HEIGHT, WIDTH), p) <==> p == 1
  {
    CountAbsent(EmptyGrid(HEIGHT, WIDTH), Mark(1));
    CountAbsent(EmptyGrid(HEIGHT, WIDTH), Mark(2));
  }

  /** Writing p's piece into the empty landing cell adds one to p's count
      and leaves the other player's count alone. */
  lemma StepCounts(g: Grid, p: int, x: int)
    requires WellFormed(g) && 0 <= x < WIDTH && IsPlayer(p) && !ColumnFull(g, x)
    ensures Count(Step(g, p, x).0, Mark(p)) == Count(g, Mark(p)) + 1
    ensures Count(Step(g, p, x).0, Mark(Other(p))) == Count(g, Mark(Other(p)))
  {
    var y := DropRow(g, x).value;
    assert Step(g, p, x).0 == g[y := g[y][x := Mark(p)]];
    CountUpdate(g, y, x, Mark(p), Mark(p));
    CountUpdate(g, y, x, Mark(p), Mark(Other(p)));
  }

  /** A click that neither wins nor ties keeps the counts balanced. */
  lemma StepKeepsBalance(g: Grid, p: int, x: int)
    requires WellFormed(g) && 0 <= x < WIDTH && IsPlayer(p) && Balanced(g, p)
    requires Step(g, p, x).2 == Ignored || Step(g, p, x).2 == Continue
    ensures Balanced(Step(g, p, x).0, Step(g, p, x).1)
  {
    if !ColumnFull(g, x) {
      StepCounts(g, p, x);
    }
  }

  /** A click that wins or ties does not pass the turn, so the counts no
      longer match whose turn it is. */
  lemma GameEndBreaksBalance(g: Grid, p: int, x: int)
    requires WellFormed(g) && 0 <= x < WIDTH && IsPlayer(p) && Balanced(g, p)
    requires Step(g, p, x).2.Won? || Step(g, p, x).2 == Tie
    ensures !Balanced(Step(g, p, x).0, Step(g, p, x).1)
  {
    StepCounts(g, p, x);
  }

  /** The click that ends a game still leaves player 1 with as many pieces
      as player 2 or one more; only the turn is out of step. */
  lemma GameEndKeepsDifference(g: Grid, p: int, x: int)
    requires WellFormed(g) && 0 <= x < WIDTH && IsPlayer(p) && Balanced(g, p)
    requires Step(g, p, x).2.Won? || Step(g, p, x).2 == Tie
    ensures 0 <= Count(Step(g, p, x).0, Mark(1)) - Count(Step(g, p, x).0, Mark(2)) <= 1
  {
    StepCounts(g, p, x);
  }

  /** After a win the winner keeps the turn, so a further click in an open
      column gives the winner two pieces in a row and the difference of the
      counts leaves 0 or 1. */
  lemma WinnerMovesTwice(g: Grid, p: int, x: int, x2: int)
    requires WellFormed(g) && 0 <= x < WIDTH && 0 <= x2 < WIDTH && IsPlayer(p) && Balanced(g, p)
    requires Step(g, p, x).2.Won?
    requires !ColumnFull(Step(g, p, x).0, x2)
    ensures var after := Step(Step(g, p, x).0, Step(g, p, x).1, x2).0;
      Count(after, Mark(p)) == Count(g, Mark(p)) + 2 &&
      Count(after, Mark(Other(p))) == Count(g, Mark(Other(p))) &&
      !(0 <= Count(after, Mark(1)) - Count(after, Mark(2)) <= 1)
  {
    var r := Step(g, p, x);
    StepCounts(g, p, x);
    StepCounts(r.0, p, x2);
  }

  /** Along clicks none of which wins or ties, player 1 has as many pieces
      as player 2 or exactly one more, matching whose turn it is. */
  lemma {:induction false} PlayKeepsBalance(g: Grid, p: int, xs: seq<int>)
    requires WellFormed(g) && ValidColumns(xs) && IsPlayer(p) && Balanced(g, p)
    requires !Play(g, p, xs).2
    ensures Balanced(Play(g, p, xs).0, Play(g, p, xs).1)
    ensures 0 <= Count(Play(g, p, xs).0, Mark(1)) - Count(Play(g, p, xs).0, Mark(2)) <= 1
    decreases |xs|
  {
    if xs != [] {
      var s := Step(g, p, xs[0]);
      StepKeepsBalance(g, p, xs[0]);
      assert ValidColumns(xs[1..]);
      PlayKeepsBalance(s.0, s.1, xs[1..]);
    }
  }
}
