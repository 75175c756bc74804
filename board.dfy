/** The rules of the game on the server's 3x3 board (server.c,
    `update_game_status` and the board part of `send_information_messages`),
    stated on a flat value of the board. */
module Board {
  import opened Protocol

  /** An index of `cells[row][col]` in row-major order: 3 * row + col. */
  type Cell = i: int | 0 <= i < 9

  /** The contents of `cells`, row-major. 0 is an empty cell, 1 the mark of
      seat 0, 2 the mark of seat 1. */
  type Grid = g: seq<int> | |g| == 9 witness [0, 0, 0, 0, 0, 0, 0, 0, 0]

  const EmptyGrid: Grid := [0, 0, 0, 0, 0, 0, 0, 0, 0]

  function At(row: int, col: int): Cell
    requires 0 <= row < 3 && 0 <= col < 3
  {
    3 * row + col
  }

  /** Every cell holds one of the three legal marks. */
  predicate Marked(g: Grid) {
    forall i :: 0 <= i < 9 ==> 0 <= g[i] <= 2
  }

  /** Number of occupied cells among the first k in row-major order. */
  function CountBelow(g: Grid, k: nat): (n: nat)
    requires k <= 9
    ensures n <= k
  {
    if k == 0 then 0 else CountBelow(g, k - 1) + (if g[k - 1] != 0 then 1 else 0)
  }

  /** Number of occupied cells. */
  function Occupied(g: Grid): nat {
    CountBelow(g, |g|)
  }

  /** Putting a mark in an empty cell adds exactly one to the count. */
  lemma {:induction false} PlaceCount(g: Grid, i: Cell, v: int, k: nat)
    requires g[i] == 0 && v != 0 && k <= 9
    ensures CountBelow(g[i := v], k) == CountBelow(g, k) + (if i < k then 1 else 0)
  {
    if k > 0 {
      PlaceCount(g, i, v, k - 1);
    }
  }

  lemma PlaceOccupied(g: Grid, i: Cell, v: int)
    requires g[i] == 0 && v != 0
    ensures Occupied(g[i := v]) == Occupied(g) + 1
  {
    PlaceCount(g, i, v, 9);
  }

  /** No occupied cell among the first k exactly when the count is 0. */
  lemma {:induction false} EmptyCount(g: Grid, k: nat)
    requires k <= 9
    ensures CountBelow(g, k) == 0 <==> forall i :: 0 <= i < k ==> g[i] == 0
  {
    if k > 0 {
      EmptyCount(g, k - 1);
    }
  }

  /** A full board: every cell is occupied exactly when the count is 9. */
  lemma {:induction false} FullCount(g: Grid, k: nat)
    requires k <= 9
    ensures CountBelow(g, k) == k <==> forall i :: 0 <= i < k ==> g[i] != 0
  {
    if k > 0 {
      FullCount(g, k - 1);
    }
  }

  /** How the game loop classifies a move to (col, row): off the grid, onto
      an occupied cell, or onto the free cell it names. */
  datatype MoveCheck = OutsideGrid | CellTaken | Free(cell: Cell)

  function CheckMove(g: Grid, col: int, row: int): (r: MoveCheck)
    ensures r == OutsideGrid <==> !(0 <= col < 3 && 0 <= row < 3)
    ensures r == CellTaken <==> 0 <= col < 3 && 0 <= row < 3 && g[At(row, col)] != 0
    ensures r.Free? ==> r.cell == At(row, col) && g[r.cell] == 0
  {
    if row < 0 || row > 2 || col < 0 || col > 2 then OutsideGrid
    else if g[At(row, col)] != 0 then CellTaken
    else Free(At(row, col))
  }

  /** Seat p's mark in a free cell: the count goes up by one, every other
      cell keeps its mark, and no occupied cell is ever overwritten. */
  lemma PlaceMark(g: Grid, k: Cell, p: int)
    requires Marked(g) && g[k] == 0 && (p == 0 || p == 1)
    ensures Marked(g[k := p + 1])
    ensures Occupied(g[k := p + 1]) == Occupied(g) + 1
    ensures forall i :: 0 <= i < 9 && g[i] != 0 ==> g[k := p + 1][i] == g[i]
  {
    PlaceCount(g, k, p + 1, 9);
  }

  // ---------------------------------------------------------------- lines

  datatype Line = Line(a: Cell, b: Cell, c: Cell)

  /** The eight lines in the order the server scans them: rows 0..2, columns
      0..2, the main diagonal, then the anti-diagonal. */
  const ScanOrder: seq<Line> := [
    Line(0, 1, 2), Line(3, 4, 5), Line(6, 7, 8),
    Line(0, 3, 6), Line(1, 4, 7), Line(2, 5, 8),
    Line(0, 4, 8), Line(2, 4, 6)
  ]

  /** Row i of the scan order, by cell coordinates. */
  lemma RowLine(i: int)
    requires 0 <= i < 3
    ensures ScanOrder[i] == Line(At(i, 0), At(i, 1), At(i, 2))
  {
  }

  /** Column i of the scan order, by cell coordinates. */
  lemma ColumnLine(i: int)
    requires 0 <= i < 3
    ensures ScanOrder[3 + i] == Line(At(0, i), At(1, i), At(2, i))
  {
  }

  /** Line j holds three equal non-empty marks. */
  predicate Complete(g: Grid, j: nat)
    requires j < 8
  {
    var l := ScanOrder[j];
    g[l.a] == g[l.b] && g[l.b] == g[l.c] && g[l.c] != 0
  }

  /** The first complete line among the first k of the scan order. */
  function FirstComplete(g: Grid, k: nat): (r: Option<nat>)
    requires k <= |ScanOrder|
    ensures r.Some? ==> r.value < k && Complete(g, r.value)
    ensures r.Some? ==> forall j :: 0 <= j < r.value ==> !Complete(g, j)
    ensures r.None? <==> forall j :: 0 <= j < k ==> !Complete(g, j)
  {
    if k == 0 then None
    else
      match FirstComplete(g, k - 1)
      case Some(j) => Some(j)
      case None => if Complete(g, k - 1) then Some(k - 1) else None
  }

  /** Outcome of the end-of-move check. */
  datatype Verdict = Won(mark: int) | Drawn | Ongoing

  /** What `update_game_status` decides for board g with occupied-count n:
      the mark of the first complete line in scan order, else a draw when
      n is 9, else the game goes on. */
  function Judge(g: Grid, n: int): Verdict {
    match FirstComplete(g, |ScanOrder|)
    case Some(j) => Won(g[ScanOrder[j].a])
    case None => if n == 9 then Drawn else Ongoing
  }

  /** Completing line j, and no line before it in scan order, wins with the
      mark on line j, whatever the count. */
  lemma LineWins(g: Grid, n: int, j: nat)
    requires j < 8 && Complete(g, j)
    requires forall k :: 0 <= k < j ==> !Complete(g, k)
    ensures Judge(g, n) == Won(g[ScanOrder[j].a])
    ensures Judge(g, n).mark == g[ScanOrder[j].b] == g[ScanOrder[j].c]
  {
  }

  /** A won game reports a real mark. */
  lemma WinnerIsAMark(g: Grid, n: int)
    requires Marked(g) && Judge(g, n).Won?
    ensures Judge(g, n).mark == 1 || Judge(g, n).mark == 2
  {
  }

  /** No complete line and nine occupied cells is a draw; no complete line
      and fewer is a game that goes on; and a complete line is never a draw. */
  lemma NoLineOutcome(g: Grid, n: int)
    ensures Judge(g, n) == Drawn <==> (forall j :: 0 <= j < 8 ==> !Complete(g, j)) && n == 9
    ensures Judge(g, n) == Ongoing <==> (forall j :: 0 <= j < 8 ==> !Complete(g, j)) && n != 9
  {
  }

  // ------------------------------------------------------------- the game

  /** The `game` record as a value: the board, the count of occupied cells,
      the seat to move, and the end-of-game flag and result. */
  datatype Game = Game(grid: Grid, nOccupied: int, playerToMove: int, isOver: bool, result: int)

  /** What the server keeps true of `game`: legal marks, an exact count, a
      seat to move, and a result that is 0 or a mark. */
  predicate GameValid(s: Game) {
    Marked(s.grid) && s.nOccupied == Occupied(s.grid) &&
    (s.playerToMove == 0 || s.playerToMove == 1) && 0 <= s.result <= 2
  }

  /** `update_game_status` on the game: a won or drawn board ends the game
      with its result; otherwise nothing changes. */
  function Judged(s: Game): Game {
    match Judge(s.grid, s.nOccupied)
    case Won(m) => s.(isOver := true, result := m)
    case Drawn => s.(isOver := true, result := 0)
    case Ongoing => s
  }

  /** Judging keeps the game valid, and it ends the game exactly when a line
      is complete or the board is full; a result it sets that is not 0 is
      the mark of a complete line, and 0 is a full board without one. */
  lemma JudgedMeaning(s: Game)
    requires GameValid(s)
    ensures GameValid(Judged(s))
    ensures Judged(s).grid == s.grid && Judged(s).nOccupied == s.nOccupied
    ensures Judged(s).playerToMove == s.playerToMove
    ensures Judged(s).isOver <==> s.isOver || (exists j :: 0 <= j < 8 && Complete(s.grid, j)) || s.nOccupied == 9
    ensures Judged(s) != s && Judged(s).result != 0 ==>
      exists j :: 0 <= j < 8 && Complete(s.grid, j) && s.grid[ScanOrder[j].a] == Judged(s).result
    ensures Judged(s) != s && Judged(s).result == 0 ==>
      (forall j :: 0 <= j < 8 ==> !Complete(s.grid, j)) && s.nOccupied == 9
  {
    NoLineOutcome(s.grid, s.nOccupied);
    if Judge(s.grid, s.nOccupied).Won? {
      WinnerIsAMark(s.grid, s.nOccupied);
    }
  }

  /** Seat p's mark in cell k (server.c:326-328): the cell takes p + 1, the
      turn passes to the other seat, and the cell is counted. */
  function Placed(s: Game, k: Cell, p: int): Game {
    s.(grid := s.grid[k := p + 1], nOccupied := s.nOccupied + 1, playerToMove := 1 - p)
  }

  /** The validation and the application of an eligible pending move of seat
      p to (col, row) (server.c, `game_loop`): a move off the grid or onto an
      occupied cell changes nothing; a valid one marks the cell, passes the
      turn, counts the cell, then the board is judged. */
  function Played(s: Game, p: int, col: int, row: int): Game {
    match CheckMove(s.grid, col, row)
    case Free(k) => Judged(Placed(s, k, p))
    case _ => s
  }

  /** A move onto the free cell it names is that cell marked, the turn
      passed and the cell counted, then judged. */
  lemma PlayedOnFree(s: Game, p: int, col: int, row: int)
    requires 0 <= row < 3 && 0 <= col < 3 && s.grid[At(row, col)] == 0
    ensures Played(s, p, col, row) ==
      Judged(Placed(s, At(row, col), p))
  {
  }

  /** A move keeps the game valid; it changes at most the one free cell it
      names, to the mover's mark, so a cell never goes back to empty or
      changes hands; and it changes nothing at all unless that cell is free. */
  lemma PlayedKeepsValid(s: Game, p: int, col: int, row: int)
    requires GameValid(s) && (p == 0 || p == 1)
    ensures GameValid(Played(s, p, col, row))
    ensures forall i :: 0 <= i < 9 && s.grid[i] != 0 ==> Played(s, p, col, row).grid[i] == s.grid[i]
    ensures forall i :: 0 <= i < 9 && Played(s, p, col, row).grid[i] != s.grid[i] ==>
      CheckMove(s.grid, col, row) == Free(i) && Played(s, p, col, row).grid[i] == p + 1
    ensures !CheckMove(s.grid, col, row).Free? ==> Played(s, p, col, row) == s
  {
    match CheckMove(s.grid, col, row)
    case Free(k) =>
      FreeMove(s, p, k);
    case _ =>
  }

  /** The game after seat p's mark in the free cell k is judged. */
  lemma FreeMove(s: Game, p: int, k: Cell)
    requires GameValid(s) && (p == 0 || p == 1) && s.grid[k] == 0
    ensures var r := Judged(Placed(s, k, p));
      GameValid(r) && r.grid == s.grid[k := p + 1] && r.playerToMove == 1 - p && r.nOccupied == s.nOccupied + 1
  {
    PlaceMark(s.grid, k, p);
    JudgedMeaning(Placed(s, k, p));
  }

  /** A valid move of seat p: the board gains p's mark at the cell, the other
      seat is to move, and the count goes up by one. */
  lemma PlayedValidMove(s: Game, p: int, col: int, row: int)
    requires GameValid(s) && (p == 0 || p == 1) && CheckMove(s.grid, col, row).Free?
    ensures var k := CheckMove(s.grid, col, row).cell; var r := Played(s, p, col, row);
      r.grid == s.grid[k := p + 1] && r.playerToMove == 1 - p && r.nOccupied == s.nOccupied + 1 &&
      r.nOccupied == Occupied(r.grid)
  {
    FreeMove(s, p, CheckMove(s.grid, col, row).cell);
  }

  // -------------------------------------------------------------- snapshot

  /** The (mark, col, row) triples of the occupied cells among the first k,
      row-major. */
  function TriplesBelow(g: Grid, k: nat): (t: seq<Byte>)
    requires Marked(g) && k <= 9
    ensures |t| == 3 * CountBelow(g, k)
  {
    if k == 0 then []
    else TriplesBelow(g, k - 1) + (if g[k - 1] != 0 then [g[k - 1], (k - 1) % 3, (k - 1) / 3] else [])
  }

  /** The count over a prefix never exceeds the count over a longer one. */
  lemma {:induction false} CountMonotone(g: Grid, k: nat, m: nat)
    requires k <= m <= 9
    ensures CountBelow(g, k) <= CountBelow(g, m)
  {
    if k < m {
      CountMonotone(g, k, m - 1);
    }
  }

  /** Triples of an earlier prefix of the cells are a prefix of the triples. */
  lemma {:induction false} TriplesPrefix(g: Grid, k: nat, m: nat)
    requires Marked(g) && k <= m <= 9
    ensures CountBelow(g, k) <= CountBelow(g, m)
    ensures TriplesBelow(g, k) == TriplesBelow(g, m)[..3 * CountBelow(g, k)]
  {
    CountMonotone(g, k, m);
    if k < m {
      TriplesPrefix(g, k, m - 1);
      assert TriplesBelow(g, m - 1) == TriplesBelow(g, m)[..3 * CountBelow(g, m - 1)];
    }
  }

  /** The triple of an occupied cell j sits after the triples of the
      occupied cells before it. */
  lemma TripleOf(g: Grid, j: nat, m: nat)
    requires Marked(g) && j < m <= 9 && g[j] != 0
    ensures 3 * CountBelow(g, j) + 3 <= |TriplesBelow(g, m)|
    ensures TriplesBelow(g, m)[3 * CountBelow(g, j)] == g[j]
    ensures TriplesBelow(g, m)[3 * CountBelow(g, j) + 1] == j % 3
    ensures TriplesBelow(g, m)[3 * CountBelow(g, j) + 2] == j / 3
  {
    TriplesPrefix(g, j + 1, m);
    assert TriplesBelow(g, j + 1) == TriplesBelow(g, j) + [g[j], j % 3, j / 3];
  }

  /** The FYI datagram for board g with occupied-count n: the code, the count
      byte, then one (mark, col, row) triple per occupied cell, row-major. */
  function SnapshotLayout(g: Grid, n: int): (m: seq<Byte>)
    requires Marked(g)
    ensures |m| == 2 + 3 * Occupied(g)
    ensures m[0] == FYI && m[1] == ToChar(n)
  {
    [FYI, ToChar(n)] + TriplesBelow(g, |g|)
  }
}
