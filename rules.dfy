/**
  The rules of Connect Four as values: the board as a grid of rows, the
  drop query, the four-in-a-row scan, the full-board test and one move of
  the game (a click on a column). The imperative game object in module Game
  is proved against these definitions.
 */
module Rules {

  const WIDTH: int := 7
  const HEIGHT: int := 6

  datatype Option<T> = None | Some(value: T)

  /** A board cell: the string "null" that a new board is filled with, or
      the number of the player whose piece is there. */
  datatype Cell = NullString | Mark(player: int)

  /** Rows top to bottom, each row a sequence of cells: g[y][x]. */
  type Grid = seq<seq<Cell>>

  /** What a click on a column led to. */
  datatype Outcome =
    | Ignored            // the column was full; nothing happened
    | Won(player: int)   // the mover completed four in a row
    | Tie                // the board is full and nobody won
    | Continue           // the turn passed to the other player

  predicate IsPlayer(p: int) {
    p == 1 || p == 2
  }

  /** The player who moves after p. */
  function Other(p: int): (q: int)
    ensures IsPlayer(p) ==> IsPlayer(q) && q != p
  {
    if p == 1 then 2 else 1
  }

  /** A cell counts as taken only when it holds exactly 1 or 2; anything
      else (the initial "null") is empty. */
  predicate Occupied(c: Cell) {
    c == Mark(1) || c == Mark(2)
  }

  predicate WellFormed(g: Grid) {
    |g| == HEIGHT && forall y :: 0 <= y < |g| ==> |g[y]| == WIDTH
  }

  predicate InBounds(y: int, x: int) {
    0 <= y < HEIGHT && 0 <= x < WIDTH
  }

  /** A fresh board of h rows of w cells. */
  function EmptyGrid(h: nat, w: nat): (g: Grid)
    ensures |g| == h
    ensures forall y :: 0 <= y < h ==> |g[y]| == w
    ensures forall y, x :: 0 <= y < h && 0 <= x < w ==> g[y][x] == NullString && !Occupied(g[y][x])
  {
    seq(h, _ => seq(w, _ => NullString))
  }

  /** The board with cell (y, x) set to c. */
  function Place(g: Grid, y: int, x: int, c: Cell): (r: Grid)
    requires WellFormed(g) && InBounds(y, x)
    ensures WellFormed(r)
    ensures r[y][x] == c
    ensures forall yy, xx :: InBounds(yy, xx) && (yy, xx) != (y, x) ==> r[yy][xx] == g[yy][xx]
  {
    g[y := g[y][x := c]]
  }

  predicate ColumnFull(g: Grid, x: int)
    requires WellFormed(g) && 0 <= x < WIDTH
  {
    forall y :: 0 <= y < HEIGHT ==> Occupied(g[y][x])
  }

  /** Every cell of every row is taken: on a board of the game's size,
      exactly when every column is full. */
  predicate IsFull(g: Grid)
    ensures WellFormed(g) ==> (IsFull(g) <==> forall x :: 0 <= x < WIDTH ==> ColumnFull(g, x))
  {
    FullColumnsCoverBoard(g);
    forall y, x :: 0 <= y < |g| && 0 <= x < |g[y]| ==> Occupied(g[y][x])
  }

  /** Full columns leave no empty cell on the board. */
  lemma FullColumnsCoverBoard(g: Grid)
    ensures WellFormed(g) && (forall x :: 0 <= x < WIDTH ==> ColumnFull(g, x)) ==>
      forall y, x :: 0 <= y < |g| && 0 <= x < |g[y]| ==> Occupied(g[y][x])
  {
    if WellFormed(g) && forall x :: 0 <= x < WIDTH ==> ColumnFull(g, x) {
      forall y, x | 0 <= y < |g| && 0 <= x < |g[y]|
        ensures Occupied(g[y][x])
      {
        assert ColumnFull(g, x);
      }
    }
  }

  /** Pieces fall: in every column the taken cells form one block that
      reaches the bottom row, so a taken cell has only taken cells below. */
  ghost predicate Settled(g: Grid)
    requires WellFormed(g)
  {
    forall y1, y2, x :: 0 <= y1 < y2 < HEIGHT && 0 <= x < WIDTH && Occupied(g[y1][x]) ==> Occupied(g[y2][x])
  }

  /** The lowest empty row among rows 0 .. n-1 of column x, scanning from
      row n-1 upwards; None when all of them are taken. */
  function LowestEmpty(g: Grid, x: int, n: nat): (r: Option<nat>)
    requires WellFormed(g) && 0 <= x < WIDTH && n <= HEIGHT
    ensures r == None <==> forall y :: 0 <= y < n ==> Occupied(g[y][x])
    ensures r.Some? ==> r.value < n && !Occupied(g[r.value][x])
    ensures r.Some? ==> forall y :: r.value < y < n ==> Occupied(g[y][x])
  {
    if n == 0 then None
    else if !Occupied(g[n - 1][x]) then Some(n - 1)
    else LowestEmpty(g, x, n - 1)
  }

  /** The row a piece dropped into column x lands in: the empty cell with
      the largest row number, None when the column is full. */
  function DropRow(g: Grid, x: int): (r: Option<nat>)
    requires WellFormed(g) && 0 <= x < WIDTH
    ensures r == None <==> ColumnFull(g, x)
    ensures r.Some? ==> r.value < HEIGHT && !Occupied(g[r.value][x])
    ensures r.Some? ==> forall y :: r.value < y < HEIGHT ==> Occupied(g[y][x])
  {
    LowestEmpty(g, x, |g|)
  }

  /** The four forward directions the win scan looks in. */
  datatype Direction = Horizontal | Vertical | DiagDownRight | DiagDownLeft

  function DeltaY(d: Direction): int {
    if d == Horizontal then 0 else 1
  }

  function DeltaX(d: Direction): int {
    match d
    case Horizontal => 1
    case Vertical => 0
    case DiagDownRight => 1
    case DiagDownLeft => -1
  }

  /** Four cells starting at (y, x) and stepping in a unit direction. */
  function Segment(y: int, x: int, dy: int, dx: int): (cells: seq<(int, int)>)
    ensures |cells| == 4 && cells[0] == (y, x)
  {
    [(y, x), (y + dy, x + dx), (y + 2 * dy, x + 2 * dx), (y + 3 * dy, x + 3 * dx)]
  }

  /** The cell lists the scan builds for origin (y, x): horiz, vert,
      diagDR and diagDL. */
  function Run(y: int, x: int, d: Direction): (cells: seq<(int, int)>)
    ensures cells == Segment(y, x, DeltaY(d), DeltaX(d))
  {
    match d
    case Horizontal => [(y, x), (y, x + 1), (y, x + 2), (y, x + 3)]
    case Vertical => [(y, x), (y + 1, x), (y + 2, x), (y + 3, x)]
    case DiagDownRight => [(y, x), (y + 1, x + 1), (y + 2, x + 2), (y + 3, x + 3)]
    case DiagDownLeft => [(y, x), (y + 1, x - 1), (y + 2, x - 2), (y + 3, x - 3)]
  }

  /** Every listed cell is on the board and holds player p's piece. */
  predicate Win(g: Grid, p: int, cells: seq<(int, int)>)
    requires WellFormed(g)
  {
    forall i :: 0 <= i < |cells| ==>
      0 <= cells[i].0 < HEIGHT && 0 <= cells[i].1 < WIDTH && g[cells[i].0][cells[i].1] == Mark(p)
  }

  /** Some on-board origin and forward direction give four of p's pieces. */
  ghost predicate HasWin(g: Grid, p: int)
    requires WellFormed(g)
    ensures (forall y, x :: InBounds(y, x) ==> g[y][x] != Mark(p)) ==> !HasWin(g, p)
  {
    exists y, x, d :: InBounds(y, x) && Win(g, p, Run(y, x, d))
  }

  /** Reference definition of four in a row: a line of four of p's pieces
      in any of the eight compass directions. */
  ghost predicate LineOfFour(g: Grid, p: int)
    requires WellFormed(g)
  {
    exists y, x, dy, dx :: UnitStep(dy, dx) && Win(g, p, Segment(y, x, dy, dx))
  }

  predicate UnitStep(dy: int, dx: int) {
    -1 <= dy <= 1 && -1 <= dx <= 1 && (dy != 0 || dx != 0)
  }

  /** One click on column x by player p, as the click handler does it:
      find the landing row (ignore the click if there is none), put p's
      piece there, then report a win for p, else a full board, else pass
      the turn. Nothing stops a move after the game has been decided. */
  ghost function Step(g: Grid, p: int, x: int): (r: (Grid, int, Outcome))
    requires WellFormed(g) && 0 <= x < WIDTH
    ensures WellFormed(r.0)
    ensures r.2 == Ignored <==> ColumnFull(g, x)
    ensures ColumnFull(g, x) ==> r.0 == g && r.1 == p
    ensures !ColumnFull(g, x) ==>
      var y := DropRow(g, x).value;
      r.0[y][x] == Mark(p) &&
      forall yy, xx :: InBounds(yy, xx) && (yy, xx) != (y, x) ==> r.0[yy][xx] == g[yy][xx]
    ensures r.2.Won? <==> !ColumnFull(g, x) && HasWin(r.0, p)
    ensures r.2.Won? ==> r.2.player == p
    ensures r.2 == Tie <==> !ColumnFull(g, x) && !HasWin(r.0, p) && IsFull(r.0)
    ensures r.2 == Continue ==> r.1 == Other(p) && !IsFull(r.0)
    ensures r.2 != Continue ==> r.1 == p
    ensures IsPlayer(p) ==> IsPlayer(r.1) && (r.2 == Continue <==> r.1 != p)
  {
    match DropRow(g, x)
    case None => (g, p, Ignored)
    case Some(y) =>
      var next := Place(g, y, x, Mark(p));
      if HasWin(next, p) then (next, p, Won(p))
      else if IsFull(next) then (next, p, Tie)
      else (next, Other(p), Continue)
  }

  predicate ValidColumns(xs: seq<int>) {
    forall i :: 0 <= i < |xs| ==> 0 <= xs[i] < WIDTH
  }

  /** A sequence of clicks from board g with p to move: the final board,
      the player then to move, and whether some click won or tied. */
  ghost function Play(g: Grid, p: int, xs: seq<int>): (r: (Grid, int, bool))
    requires WellFormed(g) && ValidColumns(xs)
    ensures WellFormed(r.0)
    decreases |xs|
  {
    if xs == [] then (g, p, false)
    else
      var s := Step(g, p, xs[0]);
      var rest := Play(s.0, s.1, xs[1..]);
      (rest.0, rest.1, s.2.Won? || s.2 == Tie || rest.2)
  }

  /** How many cells of g hold c. */
  function Count(g: Grid, c: Cell): nat {
    if g == [] then 0 else multiset(g[0])[c] + Count(g[1..], c)
  }

  /** Players alternate and player 1 starts: with p to move, player 1 has
      as many pieces as player 2 (p == 1) or one more (p == 2). */
  predicate Balanced(g: Grid, p: int) {
    Count(g, Mark(1)) == Count(g, Mark(2)) + (if p == 1 then 0 else 1)
  }
}
