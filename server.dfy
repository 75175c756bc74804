/** The authoritative game session of server.c: the globals `players`,
    `n_connected_clients`, `game` and `last_move` gathered in one object,
    with the datagram handler, the seat lookup and the game-loop steps as
    methods. Outgoing datagrams are returned instead of sent. */
module Server {
  import opened Protocol
  import opened Board

  /** A peer's socket address. `Zeroed` is the all-zero address that
      `memset` leaves in an empty seat (and that the seats start with). */
  datatype Addr = Zeroed | Peer(endpoint: nat)

  /** A datagram the server sends. */
  datatype Datagram = Datagram(to: Addr, bytes: seq<Byte>)

  /** `parse_data`: the code byte, and the payload that is copied only for a
      MOV or TXT code (for any other code the payload stays uninitialised). */
  datatype Parsed = Parsed(code: Byte, data: Option<seq<Byte>>)

  /** `last_move`: the one-slot mailbox between the handler and the game loop.
      `col` and `row` are the raw payload bytes `data[0]` and `data[1]`. */
  datatype PendingMove = PendingMove(playerId: int, processed: int, col: Byte, row: Byte)

  /** Seat whose stored address is a, the first one in seat order; |seats|
      when none matches. */
  function SeatOf(seats: seq<Addr>, a: Addr): nat {
    if seats == [] then 0
    else if seats[0] == a then 0
    else 1 + SeatOf(seats[1..], a)
  }

  lemma {:induction false} SeatOfFirstMatch(seats: seq<Addr>, a: Addr)
    ensures SeatOf(seats, a) <= |seats|
    ensures SeatOf(seats, a) < |seats| ==> seats[SeatOf(seats, a)] == a
    ensures forall j :: 0 <= j < SeatOf(seats, a) ==> seats[j] != a
  {
    if seats != [] && seats[0] != a {
      SeatOfFirstMatch(seats[1..], a);
      assert forall j :: 1 <= j <= SeatOf(seats[1..], a) ==> seats[j] == seats[1..][j - 1];
    }
  }

  function ParseData(buf: seq<Byte>): (m: Parsed)
    requires |buf| >= 1
    ensures m.code == buf[0]
    ensures m.data.Some? <==> buf[0] == MOV || buf[0] == TXT
    ensures m.data.Some? ==> m.data.value == buf[1..]
  {
    if buf[0] != MOV && buf[0] != TXT then Parsed(buf[0], None)
    else Parsed(buf[0], Some(buf[1..]))
  }

  /** "Hello" followed by its terminating NUL. */
  const Hello: seq<Byte> := Ascii("Hello") + [0]

  /** The join test of the handler: a TXT message whose text, compared with
      `strncmp` over six bytes, is "Hello\0". */
  predicate IsJoinRequest(buf: seq<Byte>)
    requires |buf| >= 7
  {
    var m := ParseData(buf);
    m.code == TXT && StrnEq(m.data.value, Hello, 6)
  }

  /** The join test accepts exactly the buffers that start with the TXT code
      and the bytes "Hello\0": longer or shorter words are refused. */
  lemma JoinRequestExactly(buf: seq<Byte>)
    requires |buf| >= 7
    ensures IsJoinRequest(buf) <==> buf[0] == TXT && buf[1..7] == Hello
  {
    assert Hello == [72, 101, 108, 108, 111, 0];
    if buf[0] == TXT {
      StrnEqTerminated(buf[1..], Hello, 6);
      assert buf[1..][..6] == buf[1..7];
    }
  }

  /** `send_txt`: the TXT code, the message's C string cut to MAX_SIZE - 2
      bytes, and a NUL. */
  function TxtFrame(message: seq<Byte>): (f: seq<Byte>)
    ensures var text := CString(message);
      var kept := if |text| <= MAX_SIZE - 2 then |text| else MAX_SIZE - 2;
      |f| == kept + 2 && f[0] == TXT && f[|f| - 1] == 0 && f[1..|f| - 1] == text[..kept]
    ensures forall i :: 1 <= i < |f| - 1 ==> f[i] != 0
  {
    var text := CString(message);
    [TXT] + (if |text| <= MAX_SIZE - 2 then text else text[..MAX_SIZE - 2]) + [0]
  }

  /** `snprintf` of the welcome text for the player who takes seat n. */
  function WelcomeText(n: int): seq<Byte> {
    Ascii("Wellcome! You are player ") + [ToChar('1' as int + n)]
      + Ascii(". You play with ") + [if n != 0 then 'O' as int else 'X' as int] + Ascii(".")
  }

  /** One copy of a message for each seat, seat 0 first. */
  function ToAll(seats: seq<Addr>, bytes: seq<Byte>): (out: seq<Datagram>)
    requires |seats| == MAX_CLIENTS
    ensures |out| == MAX_CLIENTS && forall i :: 0 <= i < MAX_CLIENTS ==> out[i] == Datagram(seats[i], bytes)
  {
    [Datagram(seats[0], bytes), Datagram(seats[1], bytes)]
  }

  const NotYourTurn: seq<Byte> := Ascii("Your move was ignored. It is not your turn.")
  const NotExpected: seq<Byte> := Ascii("Your message was not expected and thus will be ignored.")
  const OffGridText: seq<Byte> := Ascii("Invalid Move: position is not in the grid")
  const TakenText: seq<Byte> := Ascii("Invalid Move: position is already taken")

  /** The datagrams of one handled move of seat p (server.c:317-331): the
      refusal of a move off the grid or onto a taken cell to the mover, or
      the snapshot of the board after a valid one, to both seats. */
  function MoveReplies(seats: seq<Addr>, p: int, check: MoveCheck, after: Game): seq<Datagram>
    requires |seats| == MAX_CLIENTS && 0 <= p < MAX_CLIENTS && Marked(after.grid)
  {
    match check
    case OutsideGrid => [Datagram(seats[p], TxtFrame(OffGridText))]
    case CellTaken => [Datagram(seats[p], TxtFrame(TakenText))]
    case Free(_) => ToAll(seats, SnapshotLayout(after.grid, after.nOccupied))
  }

  class Session {
    /** `players`: the address stored in each seat. */
    const players: array<Addr>
    /** `n_connected_clients`: how many seats are filled. */
    var nConnected: int
    /** `game.cells[row][col]`. */
    const cells: array2<int>
    /** The other fields of `game`. */
    var nOccupied: int
    var playerToMove: int
    var isGameOver: bool
    var gameResult: int
    /** The mailbox `last_move`. */
    var lastMove: PendingMove

    /** What a run of the server keeps true between handler calls and game
        loop steps. */
    ghost predicate Valid()
      reads this, players, cells
    {
      players.Length == MAX_CLIENTS && cells.Length0 == 3 && cells.Length1 == 3 &&
      0 <= nConnected <= 2 &&
      // filled seats hold distinct real addresses, the others are zeroed
      (forall i :: 0 <= i < nConnected ==> players[i] != Zeroed) &&
      (forall i :: nConnected <= i < 2 ==> players[i] == Zeroed) &&
      (nConnected == 2 ==> players[0] != players[1]) &&
      GameValid(State()) &&
      0 <= lastMove.playerId <= 2
    }

    /** The board as a value, row-major. */
    ghost function Grid(): (g: Grid)
      reads cells
      requires cells.Length0 == 3 && cells.Length1 == 3
    {
      [cells[0, 0], cells[0, 1], cells[0, 2],
       cells[1, 0], cells[1, 1], cells[1, 2],
       cells[2, 0], cells[2, 1], cells[2, 2]]
    }

    /** Cell (r, c) of the array is entry 3 * r + c of the board value. */
    lemma GridAt(r: int, c: int)
      requires cells.Length0 == 3 && cells.Length1 == 3 && 0 <= r < 3 && 0 <= c < 3
      ensures Grid()[At(r, c)] == cells[r, c]
    {
    }

    /** The `game` record as a value. */
    ghost function State(): Game
      reads this, cells
      requires cells.Length0 == 3 && cells.Length1 == 3
    {
      Game(Grid(), nOccupied, playerToMove, isGameOver, gameResult)
    }

    /** The game loop's wait condition (server.c:297) is false: the mailbox
        holds an unprocessed move of the seat to move. */
    ghost predicate Eligible()
      reads this
    {
      lastMove.playerId == playerToMove && lastMove.processed == 0
    }

    /** The zero-initialised globals of the server process. */
    constructor ()
      ensures Valid() && fresh(players) && fresh(cells)
      ensures players[..] == [Zeroed, Zeroed] && nConnected == 0
      ensures State() == Game(EmptyGrid, 0, 0, false, 0) && lastMove == PendingMove(0, 0, 0, 0)
    {
      players := new Addr[MAX_CLIENTS](_ => Zeroed);
      cells := new int[3, 3]((_, _) => 0);
      nConnected := 0;
      nOccupied := 0;
      playerToMove := 0;
      isGameOver := false;
      gameResult := 0;
      lastMove := PendingMove(0, 0, 0, 0);
      new;
      assert players[0] == Zeroed && players[1] == Zeroed;
      assert players[..] == [Zeroed, Zeroed];
      assert Grid() == EmptyGrid;
      EmptyCount(EmptyGrid, 9);
    }

    /** `identify_client`: the first seat whose address equals addr, or 2. */
    method IdentifyClient(addr: Addr) returns (id: nat)
      requires Valid()
      ensures id <= 2
      ensures id < 2 ==> players[id] == addr
      ensures forall j :: 0 <= j < id && j < 2 ==> players[j] != addr
      ensures id == SeatOf(players[..], addr)
    {
      id := 0;
      while id < MAX_CLIENTS
        invariant 0 <= id <= 2
        invariant forall j :: 0 <= j < id ==> players[j] != addr
      {
        if players[id] == addr {
          break;
        }
        id := id + 1;
      }
      SeatOfFirstMatch(players[..], addr);
    }

    /** `handler`: classify one datagram and apply its effect. `buf` is the
        whole receive buffer; `processed` is whatever the uninitialised
        `g_msg.processed` happens to hold. */
    method Handle(sender: Addr, buf: seq<Byte>, processed: int) returns (replies: seq<Datagram>)
      requires Valid() && |buf| == MAX_SIZE
      modifies this, players
      ensures Valid()
      // the game itself is never touched by the handler
      ensures State() == old(State())
      // a third sender while both seats are filled: refused, nothing changes
      ensures SeatOf(old(players[..]), sender) == 2 && old(nConnected) == 2 ==>
        replies == [Datagram(sender, [END, NO_ROOM])] &&
        players[..] == old(players[..]) && nConnected == old(nConnected) && lastMove == old(lastMove)
      // an unassigned sender while a seat is free: seated on "Hello", else ignored
      ensures SeatOf(old(players[..]), sender) == 2 && old(nConnected) < 2 ==>
        lastMove == old(lastMove) &&
        if IsJoinRequest(buf) then
          players[..] == old(players[..])[old(nConnected) := sender] &&
          nConnected == old(nConnected) + 1 &&
          replies == [Datagram(sender, TxtFrame(WelcomeText(old(nConnected))))]
        else
          players[..] == old(players[..]) && nConnected == old(nConnected) && replies == []
      // a seated sender: a MOV with both seats filled overwrites the mailbox,
      // whether or not it is that seat's turn; anything else is answered
      ensures SeatOf(old(players[..]), sender) < 2 ==>
        players[..] == old(players[..]) && nConnected == old(nConnected) &&
        var id := SeatOf(old(players[..]), sender);
        if buf[0] == MOV && old(nConnected) == 2 then
          lastMove == PendingMove(id, processed, buf[1], buf[2]) &&
          replies == (if id != playerToMove then [Datagram(sender, TxtFrame(NotYourTurn))] else [])
        else
          lastMove == old(lastMove) && replies == [Datagram(sender, TxtFrame(NotExpected))]
    {
      var id := IdentifyClient(sender);
      if id == 2 && nConnected == 2 {
        replies := [Datagram(sender, [END, NO_ROOM])];
      } else if id == 2 {
        replies := Admit(sender, buf);
      } else {
        replies := Relay(id, sender, buf, processed);
      }
    }

    /** server.c:164-189: an unassigned sender while a seat is free takes the
        next seat when its message is the join request, and is ignored
        otherwise. */
    method Admit(sender: Addr, buf: seq<Byte>) returns (replies: seq<Datagram>)
      requires Valid() && |buf| == MAX_SIZE && nConnected < 2
      requires SeatOf(players[..], sender) == 2
      modifies this, players
      ensures Valid()
      ensures State() == old(State()) && lastMove == old(lastMove)
      ensures if IsJoinRequest(buf) then
          players[..] == old(players[..])[old(nConnected) := sender] &&
          nConnected == old(nConnected) + 1 &&
          replies == [Datagram(sender, TxtFrame(WelcomeText(old(nConnected))))]
        else
          players[..] == old(players[..]) && nConnected == old(nConnected) && replies == []
    {
      SeatOfFirstMatch(players[..], sender);
      var msg := ParseData(buf);
      if msg.code == TXT && StrnEq(msg.data.value, Hello, 6) {
        replies := [Datagram(sender, TxtFrame(WelcomeText(nConnected)))];
        players[nConnected] := sender;
        nConnected := nConnected + 1;
      } else {
        replies := [];
      }
    }

    /** server.c:192-223: a message from seat id. A MOV while both seats are
        filled goes into the mailbox, answered with a warning when it is not
        that seat's turn; anything else is answered as unexpected. */
    method Relay(id: nat, sender: Addr, buf: seq<Byte>, processed: int) returns (replies: seq<Datagram>)
      requires Valid() && |buf| == MAX_SIZE && id < 2 && players[id] == sender
      modifies this
      ensures Valid()
      ensures State() == old(State()) && nConnected == old(nConnected)
      ensures if buf[0] == MOV && old(nConnected) == 2 then
          lastMove == PendingMove(id, processed, buf[1], buf[2]) &&
          replies == (if id != playerToMove then [Datagram(sender, TxtFrame(NotYourTurn))] else [])
        else
          lastMove == old(lastMove) && replies == [Datagram(sender, TxtFrame(NotExpected))]
    {
      var msg := ParseData(buf);
      if msg.code == MOV && nConnected == 2 {
        lastMove := PendingMove(id, processed, msg.data.value[0], msg.data.value[1]);
        if lastMove.playerId != playerToMove {
          replies := [Datagram(players[lastMove.playerId], TxtFrame(NotYourTurn))];
        } else {
          replies := [];
        }
      } else {
        replies := [Datagram(sender, TxtFrame(NotExpected))];
      }
    }

    /** `initialize_game`: an empty board, seat 0 to move, and the mailbox
        sentinel "no seat, processed". */
    method InitializeGame()
      requires Valid()
      modifies this, cells
      ensures Valid()
      ensures State() == Game(EmptyGrid, 0, 0, false, old(gameResult))
      ensures lastMove == old(lastMove).(playerId := 2, processed := 1)
      ensures nConnected == old(nConnected) && unchanged(players)
    {
      lastMove := lastMove.(playerId := 2, processed := 1);
      nOccupied := 0;
      playerToMove := 0;
      isGameOver := false;
      forall r, c | 0 <= r < 3 && 0 <= c < 3 {
        cells[r, c] := 0;
      }
      assert Grid() == EmptyGrid;
      EmptyCount(EmptyGrid, 9);
    }

    /** The FYI bytes `send_information_messages` builds with its running
        index `idx`. */
    method SnapshotBytes() returns (bytes: seq<Byte>)
      requires Valid()
      ensures bytes == SnapshotLayout(Grid(), nOccupied)
    {
      var buffer: array<Byte> := new Byte[MAX_SIZE];
      buffer[0] := FYI;
      buffer[1] := ToChar(nOccupied);
      var idx := 2;
      ghost var g := Grid();
      ghost var head := [FYI, ToChar(nOccupied)];
      for row := 0 to 3
        invariant idx == 2 + 3 * CountBelow(g, 3 * row)
        invariant buffer[..idx] == head + TriplesBelow(g, 3 * row)
      {
        idx := PutRow(buffer, idx, row, head);
      }
      bytes := buffer[..idx];
    }

    /** The inner loop of `send_information_messages` over the cells of one
        row: appends the triples of the occupied ones at idx. */
    method PutRow(buffer: array<Byte>, idx: nat, row: int, ghost head: seq<Byte>) returns (next: nat)
      requires cells.Length0 == 3 && cells.Length1 == 3 && Marked(Grid())
      requires 0 <= row < 3 && buffer.Length == MAX_SIZE
      requires idx == |head| + 3 * CountBelow(Grid(), 3 * row) && |head| == 2
      requires buffer[..idx] == head + TriplesBelow(Grid(), 3 * row)
      modifies buffer
      ensures next == |head| + 3 * CountBelow(Grid(), 3 * row + 3)
      ensures buffer[..next] == head + TriplesBelow(Grid(), 3 * row + 3)
    {
      ghost var g := Grid();
      next := idx;
      for col := 0 to 3
        invariant next == 2 + 3 * CountBelow(g, 3 * row + col)
        invariant buffer[..next] == head + TriplesBelow(g, 3 * row + col)
      {
        next := PutCell(buffer, next, row, col, head);
      }
    }

    /** The body of the inner loop: the triple of cell (row, col) when it is
        occupied. */
    method PutCell(buffer: array<Byte>, idx: nat, row: int, col: int, ghost head: seq<Byte>) returns (next: nat)
      requires cells.Length0 == 3 && cells.Length1 == 3 && Marked(Grid())
      requires 0 <= row < 3 && 0 <= col < 3 && buffer.Length == MAX_SIZE && |head| == 2
      requires idx == 2 + 3 * CountBelow(Grid(), 3 * row + col)
      requires buffer[..idx] == head + TriplesBelow(Grid(), 3 * row + col)
      modifies buffer
      ensures next == 2 + 3 * CountBelow(Grid(), 3 * row + col + 1)
      ensures buffer[..next] == head + TriplesBelow(Grid(), 3 * row + col + 1)
    {
      TripleStep(Grid(), 3 * row + col, row, col);
      GridAt(row, col);
      next := idx;
      if cells[row, col] != 0 {
        next := PutTriple(buffer, next, cells[row, col], col, row);
      }
    }

    /** `send_information_messages`: the snapshot, once to each seat. */
    method SendInformationMessages() returns (out: seq<Datagram>)
      requires Valid()
      ensures out == ToAll(players[..], SnapshotLayout(Grid(), nOccupied))
    {
      out := [];
      for i := 0 to MAX_CLIENTS
        invariant out == ToAll(players[..], SnapshotLayout(Grid(), nOccupied))[..i]
      {
        var bytes := SnapshotBytes();
        out := out + [Datagram(players[i], bytes)];
      }
    }

    /** `update_game_status`: record the verdict of the line scan in the
        game fields. */
    method UpdateGameStatus()
      requires Valid()
      modifies this
      ensures Valid()
      ensures State() == Judged(old(State()))
      ensures nConnected == old(nConnected) && lastMove == old(lastMove)
    {
      JudgedMeaning(State());
      var verdict := ScanLines();
      match verdict
      case Won(m) =>
        isGameOver := true;
        gameResult := m;
      case Drawn =>
        isGameOver := true;
        gameResult := 0;
      case Ongoing =>
    }

    /** The scan of `update_game_status`: rows, then columns, then the main
        diagonal, then the anti-diagonal, stopping at the first line of three
        equal marks; with none, a count of 9 is a draw. */
    method ScanLines() returns (verdict: Verdict)
      requires cells.Length0 == 3 && cells.Length1 == 3
      ensures verdict == Judge(Grid(), nOccupied)
    {
      ghost var g := Grid();
      for i := 0 to 3
        invariant forall j :: 0 <= j < i ==> !Complete(g, j)
      {
        RowTest(i);
        if cells[i, 0] == cells[i, 1] && cells[i, 1] == cells[i, 2] && cells[i, 2] != 0 {
          LineWins(g, nOccupied, i);
          return Won(cells[i, 0]);
        }
      }
      for i := 0 to 3
        invariant forall j :: 0 <= j < 3 + i ==> !Complete(g, j)
      {
        ColumnTest(i);
        if cells[0, i] == cells[1, i] && cells[1, i] == cells[2, i] && cells[2, i] != 0 {
          LineWins(g, nOccupied, 3 + i);
          return Won(cells[0, i]);
        }
      }
      if cells[0, 0] == cells[1, 1] && cells[1, 1] == cells[2, 2] && cells[2, 2] != 0 {
        LineWins(g, nOccupied, 6);
        return Won(cells[0, 0]);
      }
      if cells[0, 2] == cells[1, 1] && cells[1, 1] == cells[2, 0] && cells[2, 0] != 0 {
        LineWins(g, nOccupied, 7);
        return Won(cells[0, 2]);
      }
      NoLineOutcome(g, nOccupied);
      if nOccupied == 9 {
        return Drawn;
      }
      return Ongoing;
    }

    /** The row test of the scan is the completeness of line i. */
    lemma RowTest(i: int)
      requires cells.Length0 == 3 && cells.Length1 == 3 && 0 <= i < 3
      ensures Complete(Grid(), i) <==> cells[i, 0] == cells[i, 1] && cells[i, 1] == cells[i, 2] && cells[i, 2] != 0
      ensures Grid()[ScanOrder[i].a] == cells[i, 0]
    {
      RowLine(i);
      GridAt(i, 0);
      GridAt(i, 1);
      GridAt(i, 2);
    }

    /** The column test of the scan is the completeness of line 3 + i. */
    lemma ColumnTest(i: int)
      requires cells.Length0 == 3 && cells.Length1 == 3 && 0 <= i < 3
      ensures Complete(Grid(), 3 + i) <==> cells[0, i] == cells[1, i] && cells[1, i] == cells[2, i] && cells[2, i] != 0
      ensures Grid()[ScanOrder[3 + i].a] == cells[0, i]
    {
      ColumnLine(i);
      GridAt(0, i);
      GridAt(1, i);
      GridAt(2, i);
    }

    /** The waiting loop at server.c:287-293: once both seats are filled the
        snapshot of the current board is sent to both; until then nothing is
        sent. */
    method StartGame() returns (out: seq<Datagram>)
      requires Valid()
      ensures nConnected < 2 ==> out == []
      ensures nConnected == 2 ==> out == ToAll(players[..], SnapshotLayout(Grid(), nOccupied))
    {
      if nConnected < 2 {
        out := [];
      } else {
        out := SendInformationMessages();
      }
    }

    /** One pass of the move loop of `game_loop` (server.c:295-337). While
        the mailbox is not eligible the loop prompts the seat to move and
        waits: that is one pass with no state change. Otherwise the pending
        move is validated, applied if valid, and marked processed. */
    method MoveStep() returns (out: seq<Datagram>)
      requires Valid() && !isGameOver
      modifies this, cells
      ensures Valid()
      ensures nConnected == old(nConnected) && unchanged(players)
      // waiting: prompt the seat to move, nothing else happens
      ensures !old(Eligible()) ==>
        out == [Datagram(players[playerToMove], [MYM])] && unchanged(this) && unchanged(cells)
      // an eligible move is played, answered, and marked processed
      ensures old(Eligible()) ==>
        var p, col, row := old(lastMove).playerId, SignedChar(old(lastMove).col), SignedChar(old(lastMove).row);
        State() == Played(old(State()), p, col, row) &&
        out == MoveReplies(players[..], p, CheckMove(old(Grid()), col, row), State()) &&
        lastMove == old(lastMove).(processed := 1)
    {
      if lastMove.playerId != playerToMove || lastMove.processed != 0 {
        out := [Datagram(players[playerToMove], [MYM])];
        return;
      }
      out := ApplyPendingMove();
    }

    /** server.c:312-337: validate the pending move, apply it when it is
        valid, and mark it processed in every case. */
    method ApplyPendingMove() returns (out: seq<Datagram>)
      requires Valid() && Eligible()
      modifies this, cells
      ensures Valid()
      ensures nConnected == old(nConnected) && unchanged(players)
      ensures var p, col, row := old(lastMove).playerId, SignedChar(old(lastMove).col), SignedChar(old(lastMove).row);
        State() == Played(old(State()), p, col, row) &&
        out == MoveReplies(players[..], p, CheckMove(old(Grid()), col, row), State()) &&
        lastMove == old(lastMove).(processed := 1)
    {
      out := PlayMove(lastMove.playerId, SignedChar(lastMove.col), SignedChar(lastMove.row));
      lastMove := lastMove.(processed := 1);
    }

    /** server.c:317-335: the move of seat p to (col, row) is refused when off
        the grid or onto a taken cell, and played otherwise. */
    method PlayMove(p: int, col: int, row: int) returns (out: seq<Datagram>)
      requires Valid() && (p == 0 || p == 1)
      modifies this, cells
      ensures Valid()
      ensures nConnected == old(nConnected) && unchanged(players) && lastMove == old(lastMove)
      ensures State() == Played(old(State()), p, col, row)
      ensures out == MoveReplies(players[..], p, CheckMove(old(Grid()), col, row), State())
    {
      ghost var check := CheckMove(Grid(), col, row);
      if row < 0 || row > 2 || col < 0 || col > 2 {
        assert check == OutsideGrid;
        out := [Datagram(players[p], TxtFrame(OffGridText))];
      } else {
        GridAt(row, col);
        if cells[row, col] != 0 {
          assert check == CellTaken;
          out := [Datagram(players[p], TxtFrame(TakenText))];
        } else {
          assert check == Free(At(row, col));
          out := Commit(row, col, p);
        }
      }
    }

    /** server.c:324-335: a valid move is placed, the snapshot broadcast, and
        the board judged. */
    method Commit(row: int, col: int, p: int) returns (out: seq<Datagram>)
      requires Valid() && 0 <= row < 3 && 0 <= col < 3 && cells[row, col] == 0
      requires p == 0 || p == 1
      modifies this, cells
      ensures Valid()
      ensures nConnected == old(nConnected) && unchanged(players) && lastMove == old(lastMove)
      ensures State() == Played(old(State()), p, col, row)
      ensures out == ToAll(players[..], SnapshotLayout(Grid(), nOccupied))
    {
      GridAt(row, col);
      PlayedOnFree(State(), p, col, row);
      Place(row, col, p);
      out := Announce();
    }

    /** server.c:330-334: the board is broadcast to both seats, then judged. */
    method Announce() returns (out: seq<Datagram>)
      requires Valid()
      modifies this
      ensures Valid()
      ensures nConnected == old(nConnected) && lastMove == old(lastMove)
      ensures State() == Judged(old(State()))
      ensures out == ToAll(players[..], SnapshotLayout(Grid(), nOccupied))
    {
      JudgedMeaning(State());
      out := SendInformationMessages();
      UpdateGameStatus();
    }

    /** server.c:326-328: seat p's mark in the free cell (row, col), the turn
        to the other seat, one more occupied cell. */
    method Place(row: int, col: int, p: int)
      requires Valid() && 0 <= row < 3 && 0 <= col < 3 && cells[row, col] == 0 && (p == 0 || p == 1)
      modifies this, cells
      ensures Valid()
      ensures State() == Placed(old(State()), At(row, col), p)
      ensures nConnected == old(nConnected) && lastMove == old(lastMove)
    {
      ghost var before := Grid();
      cells[row, col] := p + 1;
      assert Grid() == before[At(row, col) := p + 1];
      PlaceMark(before, At(row, col), p);
      playerToMove := 1 - p;
      nOccupied := nOccupied + 1;
    }

    /** `finalize_game`: send the result to each seat, then empty the seats. */
    method FinalizeGame() returns (out: seq<Datagram>)
      requires Valid()
      modifies this, players
      ensures Valid()
      ensures out == [Datagram(old(players[0]), [END, ToChar(gameResult)]),
                      Datagram(old(players[1]), [END, ToChar(gameResult)])]
      ensures players[..] == [Zeroed, Zeroed] && nConnected == 0
      ensures State() == old(State()) && lastMove == old(lastMove)
    {
      out := [];
      for i := 0 to MAX_CLIENTS
        modifies players
        invariant |out| == i
        invariant forall j :: 0 <= j < i ==> out[j] == Datagram(old(players[j]), [END, ToChar(gameResult)])
        invariant forall j :: 0 <= j < i ==> players[j] == Zeroed
        invariant forall j :: i <= j < MAX_CLIENTS ==> players[j] == old(players[j])
      {
        out := out + [Datagram(players[i], [END, ToChar(gameResult)])];
        players[i] := Zeroed;
      }
      nConnected := 0;
      assert players[..] == [Zeroed, Zeroed];
    }

    /** Writes one (mark, col, row) triple at idx and moves idx past it. */
    static method PutTriple(buffer: array<Byte>, idx: nat, mark: Byte, col: Byte, row: Byte) returns (next: nat)
      requires idx + 3 <= buffer.Length
      modifies buffer
      ensures next == idx + 3
      ensures buffer[..next] == old(buffer[..idx]) + [mark, col, row]
    {
      buffer[idx] := mark;
      buffer[idx + 1] := col;
      buffer[idx + 2] := row;
      next := idx + 3;
      assert buffer[..next] == buffer[..idx] + [mark, col, row];
    }

    /** One more cell of the row-major scan adds its triple, if occupied. */
    static lemma TripleStep(g: Grid, k: nat, row: int, col: int)
      requires Marked(g) && 0 <= row < 3 && 0 <= col < 3 && k == 3 * row + col
      ensures CountBelow(g, k + 1) == CountBelow(g, k) + (if g[k] != 0 then 1 else 0)
      ensures TriplesBelow(g, k + 1) == TriplesBelow(g, k) + (if g[k] != 0 then [g[k], col, row] else [])
    {
      assert k % 3 == col && k / 3 == row;
    }
  }
}
