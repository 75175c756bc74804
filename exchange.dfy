/** What the two programs agree on: the client's decoding of what the
    server sends, and the server's reading of what the client sends. */
module Exchange {
  import opened Protocol
  import opened Board
  import opened Server
  import opened Client

  /** The picture the client should show for a server board: mark 1 as 'X',
      mark 2 as 'O', an empty cell as '\0'. */
  function Display(g: Grid): (p: Picture)
    requires Marked(g)
    ensures forall i :: 0 <= i < 9 ==> (p[i] == '\0' <==> g[i] == 0)
  {
    seq(9, i requires 0 <= i < 9 => if g[i] == 0 then '\0' else MarkOf(g[i]))
  }

  /** The picture of the first k cells only. */
  function DisplayBelow(g: Grid, k: nat): Picture
    requires Marked(g) && k <= 9
  {
    seq(9, i requires 0 <= i < 9 => if i < k && g[i] != 0 then MarkOf(g[i]) else '\0')
  }

  /** buf starts with the snapshot the server builds for board g. */
  predicate Carries(buf: seq<Byte>, g: Grid)
    requires Marked(g)
  {
    |buf| == MAX_SIZE && buf[..|SnapshotLayout(g, Occupied(g))|] == SnapshotLayout(g, Occupied(g))
  }

  /** The decode loop, having read the triples of the occupied cells below k
      from a server snapshot, has painted exactly those cells. */
  lemma {:induction false} DecodesBelow(g: Grid, buf: seq<Byte>, k: nat)
    requires Marked(g) && k <= 9 && Carries(buf, g)
    ensures |buf| == MAX_SIZE && Painted(buf, CountBelow(g, k)) == Some(DisplayBelow(g, k))
  {
    if k == 0 {
      DisplayNone(g);
    } else {
      DecodesBelow(g, buf, k - 1);
      DecodeCell(g, buf, k - 1);
    }
  }

  /** One step of DecodesBelow: over cell j, empty or occupied. */
  lemma DecodeCell(g: Grid, buf: seq<Byte>, j: nat)
    requires Marked(g) && j < 9 && Carries(buf, g)
    requires Painted(buf, CountBelow(g, j)) == Some(DisplayBelow(g, j))
    ensures Painted(buf, CountBelow(g, j + 1)) == Some(DisplayBelow(g, j + 1))
  {
    if g[j] == 0 {
      DisplaySkip(g, j);
    } else {
      SnapshotTriple(g, buf, j);
      DecodeOccupied(g, buf, j);
    }
  }

  /** The step of DecodesBelow over an occupied cell j: the next triple is
      that cell's, and painting it extends the picture by cell j. */
  lemma DecodeOccupied(g: Grid, buf: seq<Byte>, j: nat)
    requires Marked(g) && j < 9 && g[j] != 0 && |buf| == MAX_SIZE
    requires CountBelow(g, j) < 127 && LegalAt(buf, CountBelow(g, j))
    requires SignedChar(buf[2 + 3 * CountBelow(g, j)]) == g[j]
    requires SignedChar(buf[3 + 3 * CountBelow(g, j)]) == j % 3
    requires SignedChar(buf[4 + 3 * CountBelow(g, j)]) == j / 3
    requires Painted(buf, CountBelow(g, j)) == Some(DisplayBelow(g, j))
    ensures Painted(buf, CountBelow(g, j + 1)) == Some(DisplayBelow(g, j + 1))
  {
    assert CountBelow(g, j + 1) == CountBelow(g, j) + 1;
    DisplayStep(g, j);
    PaintedStep(buf, CountBelow(g, j));
  }

  /** Before any cell, the picture is blank. */
  lemma DisplayNone(g: Grid)
    requires Marked(g)
    ensures DisplayBelow(g, 0) == Blank
  {
  }

  /** An empty cell j adds nothing to the picture. */
  lemma DisplaySkip(g: Grid, j: nat)
    requires Marked(g) && j < 9 && g[j] == 0
    ensures DisplayBelow(g, j + 1) == DisplayBelow(g, j)
  {
  }

  /** Cell j of a snapshot's picture shows its owner's mark. */
  lemma DisplayStep(g: Grid, j: nat)
    requires Marked(g) && j < 9 && g[j] != 0
    ensures DisplayBelow(g, j + 1) == DisplayBelow(g, j)[At(j / 3, j % 3) := MarkOf(g[j])]
  {
    assert At(j / 3, j % 3) == j;
  }

  /** The triple read for the occupied cell j is (its mark, its column, its
      row), and it is legal. */
  lemma SnapshotTriple(g: Grid, buf: seq<Byte>, j: nat)
    requires Marked(g) && j < 9 && g[j] != 0 && Carries(buf, g)
    ensures LegalAt(buf, CountBelow(g, j))
    ensures SignedChar(buf[2 + 3 * CountBelow(g, j)]) == g[j]
    ensures SignedChar(buf[3 + 3 * CountBelow(g, j)]) == j % 3
    ensures SignedChar(buf[4 + 3 * CountBelow(g, j)]) == j / 3
  {
    var c := CountBelow(g, j);
    var d := SnapshotLayout(g, Occupied(g));
    TripleOf(g, j, 9);
    assert buf[2 + 3 * c] == d[2 + 3 * c] == g[j];
    assert buf[3 + 3 * c] == d[3 + 3 * c] == j % 3;
    assert buf[4 + 3 * c] == d[4 + 3 * c] == j / 3;
  }

  /** Snapshot round trip: the client's decode of the FYI datagram the server
      builds for a board gives back that board, 1 as 'X' and 2 as 'O', with
      the count of occupied cells; and every triple passes the client's
      `DEBUG_MODE` assertions. */
  lemma SnapshotRoundTrip(g: Grid, tail: seq<Byte>)
    requires Marked(g)
    requires |tail| == MAX_SIZE - |SnapshotLayout(g, Occupied(g))| - 1
    ensures var buf := RecvBuffer(SnapshotLayout(g, Occupied(g)), tail);
      Receive(buf) == ShowBoard(Occupied(g), Display(g)) &&
      forall i :: 0 <= i < Occupied(g) ==> LegalAt(buf, i)
  {
    var buf := RecvBuffer(SnapshotLayout(g, Occupied(g)), tail);
    assert buf[0] == FYI && buf[1] == ToChar(Occupied(g));
    DecodesBelow(g, buf, 9);
    assert DisplayBelow(g, 9) == Display(g);
    if Occupied(g) == 0 {
      EmptyCount(g, 9);
      assert Display(g) == Blank;
    }
    assert SignedChar(buf[1]) == Occupied(g);
    assert Snapshot(buf) == Some(Display(g));
  }

  /** The snapshot a valid session broadcasts decodes to its board. */
  lemma SessionSnapshotDecodes(s: Session, tail: seq<Byte>)
    requires s.Valid()
    requires |tail| == MAX_SIZE - |SnapshotLayout(s.Grid(), s.nOccupied)| - 1
    ensures Receive(RecvBuffer(SnapshotLayout(s.Grid(), s.nOccupied), tail)) == ShowBoard(s.nOccupied, Display(s.Grid()))
  {
    SnapshotRoundTrip(s.Grid(), tail);
  }

  /** The END datagrams the server sends read back as what they mean: the
      refusal as "no room", a result of 0 as a draw, 1 or 2 as that winner;
      the client stops on each of them. */
  lemma EndOutcomes(r: int, tail: seq<Byte>)
    requires 0 <= r <= 2 && |tail| == MAX_SIZE - 3
    ensures Receive(RecvBuffer([END, ToChar(r)], tail)) == GameOver(if r == 0 then Draw else Winner(r))
    ensures Receive(RecvBuffer([END, NO_ROOM], tail)) == GameOver(NoRoom)
  {
    assert RecvBuffer([END, ToChar(r)], tail)[1] == ToChar(r);
    assert RecvBuffer([END, NO_ROOM], tail)[1] == NO_ROOM;
  }

  /** Text round trip: the client prints exactly the C string the server
      framed with `send_txt` (when the frame fits the client's buffer). */
  lemma TextRoundTrip(m: seq<Byte>, tail: seq<Byte>)
    requires |CString(m)| <= MAX_SIZE - 3
    requires |tail| == MAX_SIZE - |CString(m)| - 3
    ensures Receive(RecvBuffer(TxtFrame(m), tail)) == ShowText(CString(m))
  {
    var f := TxtFrame(m);
    var buf := RecvBuffer(f, tail);
    assert f == [TXT] + CString(m) + [0];
    assert buf[1..] == CString(m) + [0] + ([0] + tail);
    CStringTerminated(CString(m), [0] + tail);
  }

  /** A typed TXT line joins exactly when the text between the separator
      after "TXT" and the line's last character (its newline) is "Hello". */
  lemma TypedJoin(line: seq<Byte>, tail: seq<Byte>)
    requires 4 <= |line| < MAX_SIZE && line[..3] == TxtWord
    requires forall i :: 0 <= i < |line| ==> line[i] != 0
    requires |tail| == MAX_SIZE - (|line| - 3) - 1
    ensures Frame(line, None) == Send(TxtDatagram(line))
    ensures IsJoinRequest(RecvBuffer(TxtDatagram(line), tail)) <==>
      |line| > 4 && line[4..|line| - 1] == Ascii("Hello")
  {
    var d := TxtDatagram(line);
    var buf := RecvBuffer(d, tail);
    assert Ascii("Hello") == [72, 101, 108, 108, 111];
    JoinRequestExactly(buf);
    assert Hello == [72, 101, 108, 108, 111, 0];
    if |line| == 4 {
      assert buf[0] == 0;
    } else if |line| == 10 {
      assert buf[1..7] == line[4..9] + [0];
      assert (line[4..9] + [0])[..5] == line[4..9];
      assert Hello[..5] == Ascii("Hello");
    } else if |line| > 10 {
      assert buf[6] == line[9];
    } else {
      assert buf[|line| - 3] == 0;
      assert buf[1..7][|line| - 4] == 0;
    }
  }

  /** "TXT Hello" typed and entered is the server's join request. */
  lemma HelloLineJoins(tail: seq<Byte>)
    requires |tail| == MAX_SIZE - 7 - 1
    ensures Frame(Ascii("TXT Hello\n"), None) == Send([TXT] + Hello)
    ensures IsJoinRequest(RecvBuffer([TXT] + Hello, tail))
  {
    var line := Ascii("TXT Hello\n");
    assert line == [84, 88, 84, 32, 72, 101, 108, 108, 111, 10];
    assert TxtDatagram(line) == [TXT] + Hello;
    TypedJoin(line, tail);
  }

  /** Move round trip: typed coordinates that fit a signed `char` reach the
      server's move check unchanged. */
  lemma MoveRoundTrip(g: Grid, col: int, row: int, tail: seq<Byte>)
    requires -128 <= col < 128 && -128 <= row < 128 && |tail| == MAX_SIZE - 4
    ensures var buf := RecvBuffer(MovDatagram(col, row), tail);
      ParseData(buf).code == MOV && ParseData(buf).data.Some? &&
      CheckMove(g, SignedChar(buf[1]), SignedChar(buf[2])) == CheckMove(g, col, row)
  {
    var buf := RecvBuffer(MovDatagram(col, row), tail);
    assert buf[1] == ToChar(col) && buf[2] == ToChar(row);
  }

  /** Typed coordinates are taken modulo 256 by the `(char)` casts; the last
      clause is the worked example: "MOV 256 1" is the move "MOV 0 1". */
  lemma TypedCoordinatesWrap(col: int, row: int)
    ensures MovDatagram(col + 256, row) == MovDatagram(col, row)
    ensures MovDatagram(col, row + 256) == MovDatagram(col, row)
    ensures MovDatagram(256, 1) == MovDatagram(0, 1)
  {
  }
}
