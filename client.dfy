/** The client's wire codec (client.c): the framing of typed MOV and TXT
    commands, and the decoding of the datagrams the server sends. */
module Client {
  import opened Protocol
  import opened Board

  // --------------------------------------------------------------- decoding

  /** The client's local `cells[3][3]` as a value, row-major. A cell that no
      triple mentioned keeps the '\0' that `memset` wrote. */
  type Picture = p: seq<char> | |p| == 9 witness ['\0', '\0', '\0', '\0', '\0', '\0', '\0', '\0', '\0']

  const Blank: Picture := ['\0', '\0', '\0', '\0', '\0', '\0', '\0', '\0', '\0']

  /** What the client reports for an END datagram. */
  datatype Outcome = NoRoom | Draw | Winner(player: int)

  /** The END branch: the result byte, read as a signed `char`, is compared
      with `(char) 0xff` and then with `(char) 0`. */
  function InterpretEnd(b: Byte): (o: Outcome)
    ensures o == NoRoom <==> b == 0xFF
    ensures o == Draw <==> b == 0
    ensures o.Winner? ==> o.player == SignedChar(b) && o.player != 0 && o.player != -1
  {
    if SignedChar(b) == SignedChar(ToChar(0xff)) then NoRoom
    else if SignedChar(b) == SignedChar(ToChar(0)) then Draw
    else Winner(SignedChar(b))
  }

  /** The three `DEBUG_MODE` assertions on a decoded triple. */
  predicate LegalTriple(player: int, col: int, row: int) {
    (player == 1 || player == 2) && 0 <= col <= 2 && 0 <= row <= 2
  }

  /** Triple i of a snapshot holds the legal (player, col, row) read at
      offsets 2+3i, 3+3i and 4+3i, each a signed `char`. */
  predicate LegalAt(buf: seq<Byte>, i: nat)
    requires 4 + 3 * i < |buf|
  {
    LegalTriple(SignedChar(buf[2 + 3 * i]), SignedChar(buf[3 + 3 * i]), SignedChar(buf[4 + 3 * i]))
  }

  /** The mark the decode loop writes for a player: 'X' for 1, else 'O'. */
  function MarkOf(player: int): char {
    if player == 1 then 'X' else 'O'
  }

  /** The picture after the decode loop has handled the first k triples, or
      None once an assertion has failed (the client aborts). */
  function Painted(buf: seq<Byte>, k: nat): (r: Option<Picture>)
    requires |buf| == MAX_SIZE && k <= 127
    ensures r.Some? <==> forall i :: 0 <= i < k ==> LegalAt(buf, i)
    ensures r.Some? ==> forall c :: 0 <= c < 9 ==> r.value[c] in {'\0', 'X', 'O'}
  {
    if k == 0 then Some(Blank)
    else
      match Painted(buf, k - 1)
      case None => None
      case Some(p) =>
        var i := k - 1;
        var player, col, row := SignedChar(buf[2 + 3 * i]), SignedChar(buf[3 + 3 * i]), SignedChar(buf[4 + 3 * i]);
        if !LegalAt(buf, i) then None
        else Some(p[At(row, col) := MarkOf(player)])
  }

  /** The FYI branch: the count is byte 1 read as a signed `char`; a count
      of 0 or less runs no iteration. */
  function Snapshot(buf: seq<Byte>): (r: Option<Picture>)
    requires |buf| == MAX_SIZE
    ensures SignedChar(buf[1]) <= 0 ==> r == Some(Blank)
    ensures SignedChar(buf[1]) > 0 ==> (r.Some? <==> forall i :: 0 <= i < SignedChar(buf[1]) ==> LegalAt(buf, i))
  {
    var n := SignedChar(buf[1]);
    if n <= 0 then Some(Blank) else Painted(buf, n)
  }

  /** The local `cells` array as a picture. */
  function PictureOf(cells: array2<char>): (p: Picture)
    reads cells
    requires cells.Length0 == 3 && cells.Length1 == 3
  {
    [cells[0, 0], cells[0, 1], cells[0, 2],
     cells[1, 0], cells[1, 1], cells[1, 2],
     cells[2, 0], cells[2, 1], cells[2, 2]]
  }

  /** The FYI decode loop of `read_message_from_server` on a local 3x3 array. */
  method DecodeSnapshot(buf: seq<Byte>) returns (r: Option<Picture>)
    requires |buf| == MAX_SIZE
    ensures r == Snapshot(buf)
  {
    var n := SignedChar(buf[1]);
    var cells := new char[3, 3]((_, _) => '\0');
    assert PictureOf(cells) == Blank;
    var i := 0;
    while i < n
      invariant 0 <= i <= 127 && (if n > 0 then i <= n else i == 0)
      invariant Painted(buf, i) == Some(PictureOf(cells))
    {
      var player := SignedChar(buf[2 + 3 * i]);
      var col := SignedChar(buf[3 + 3 * i]);
      var row := SignedChar(buf[4 + 3 * i]);
      if !(player == 1 || player == 2) || !(0 <= col && col <= 2) || !(0 <= row && row <= 2) {
        PaintedFails(buf, i, n);
        return None;
      }
      PaintedStep(buf, i);
      Paint(cells, row, col, if player == 1 then 'X' else 'O');
      i := i + 1;
    }
    r := Some(PictureOf(cells));
  }

  /** One more legal triple paints its cell with its player's mark. */
  lemma PaintedStep(buf: seq<Byte>, i: nat)
    requires |buf| == MAX_SIZE && i < 127 && Painted(buf, i).Some? && LegalAt(buf, i)
    ensures Painted(buf, i + 1) ==
      Some(Painted(buf, i).value[At(SignedChar(buf[4 + 3 * i]), SignedChar(buf[3 + 3 * i])) := MarkOf(SignedChar(buf[2 + 3 * i]))])
  {
  }

  /** An illegal triple makes the whole decode fail. */
  lemma PaintedFails(buf: seq<Byte>, i: nat, n: nat)
    requires |buf| == MAX_SIZE && i < n <= 127 && !LegalAt(buf, i)
    ensures Painted(buf, n) == None
  {
  }

  /** `cells[row][col] = mark` on the local array. */
  method Paint(cells: array2<char>, row: int, col: int, mark: char)
    requires cells.Length0 == 3 && cells.Length1 == 3 && 0 <= row < 3 && 0 <= col < 3
    modifies cells
    ensures PictureOf(cells) == old(PictureOf(cells))[At(row, col) := mark]
  {
    cells[row, col] := mark;
  }

  /** What `read_message_from_server` does with one receive buffer. */
  datatype Event =
    | ShowText(text: seq<Byte>)            // TXT: the C string after the code
    | MovePrompt                           // MYM
    | GameOver(outcome: Outcome)           // END
    | ShowBoard(filled: int, picture: Picture)  // FYI
    | Aborted                              // FYI whose decode failed an assertion
    | UnknownCode

  /** The dispatch on the code byte `buffer[0]`. */
  function Receive(buf: seq<Byte>): (e: Event)
    requires |buf| == MAX_SIZE
    ensures e.GameOver? <==> buf[0] == END
    ensures e.ShowText? <==> buf[0] == TXT
    ensures e.ShowText? ==> e.text == CString(buf[1..])
    ensures e == MovePrompt <==> buf[0] == MYM
    ensures e.ShowBoard? || e == Aborted <==> buf[0] == FYI
    ensures e == UnknownCode <==> buf[0] !in {TXT, MYM, END, FYI}
    ensures e.GameOver? ==> e.outcome == InterpretEnd(buf[1])
    ensures buf[0] == FYI ==>
      if Snapshot(buf).Some? then e == ShowBoard(SignedChar(buf[1]), Snapshot(buf).value) else e == Aborted
  {
    if buf[0] == TXT then ShowText(CString(buf[1..]))
    else if buf[0] == MYM then MovePrompt
    else if buf[0] == END then GameOver(InterpretEnd(buf[1]))
    else if buf[0] == FYI then
      match Snapshot(buf)
      case None => Aborted
      case Some(p) => ShowBoard(SignedChar(buf[1]), p)
    else UnknownCode
  }

  /** `read_message_from_server` for a datagram d (shorter than the buffer)
      read over a buffer whose earlier contents are `tail`. Returns 1
      exactly for END. */
  method ReadMessageFromServer(d: seq<Byte>, tail: seq<Byte>) returns (ended: int, ev: Event)
    requires |d| < MAX_SIZE && |tail| == MAX_SIZE - |d| - 1
    ensures ev == Receive(RecvBuffer(d, tail))
    ensures ended == 1 <==> RecvBuffer(d, tail)[0] == END
    ensures ended == 0 || ended == 1
  {
    var buffer := RecvBuffer(d, tail);
    ended := 0;
    if buffer[0] == TXT {
      ev := ShowText(CString(buffer[1..]));
    } else if buffer[0] == MYM {
      ev := MovePrompt;
    } else if buffer[0] == END {
      ev := GameOver(InterpretEnd(buffer[1]));
      ended := 1;
    } else if buffer[0] == FYI {
      var picture := DecodeSnapshot(buffer);
      match picture
      case None =>
        ev := Aborted;
      case Some(p) =>
        ev := ShowBoard(SignedChar(buffer[1]), p);
    } else {
      ev := UnknownCode;
    }
  }

  // --------------------------------------------------------------- encoding

  /** What `send_message_to_server` does with one typed line. */
  datatype Outgoing =
    | LineTooShort      // "Could not parse instruction."
    | MoveNotParsed     // "Could not parse MOV - Try again."
    | CodeNotFound      // "Message code not found."
    | Send(bytes: seq<Byte>)

  /** The MOV datagram for the typed coordinates: each is cast to `char`. */
  function MovDatagram(col: int, row: int): (d: seq<Byte>)
    ensures |d| == 3 && d[0] == MOV
    ensures -128 <= col < 128 ==> SignedChar(d[1]) == col
    ensures -128 <= row < 128 ==> SignedChar(d[2]) == row
  {
    [MOV, ToChar(col), ToChar(row)]
  }

  /** The TXT datagram for a line: the line from byte 3 on, with its first
      byte replaced by the TXT code and its last byte (the newline) by NUL. */
  function TxtDatagram(line: seq<Byte>): (d: seq<Byte>)
    requires |line| >= 4
    ensures |d| == |line| - 3 && d[|d| - 1] == 0
    ensures |line| > 4 ==> d[0] == TXT && d[1..|d| - 1] == line[4..|line| - 1]
  {
    line[3..][0 := TXT][|line| - 4 := 0]
  }

  /** The characters 'M', 'O', 'V' and 'T', 'X', 'T'. */
  const MovWord: seq<Byte> := Ascii("MOV")
  const TxtWord: seq<Byte> := Ascii("TXT")

  /** `send_message_to_server` for the line `read_line` returns (its bytes up
      to `strlen`) and, when the line is a MOV, what `sscanf` parsed from it. */
  function Frame(line: seq<Byte>, movArgs: Option<(int, int)>): (o: Outgoing)
    requires |line| < MAX_SIZE
    ensures |line| <= 3 ==> o == LineTooShort
    ensures o.Send? ==> |line| > 3 && (line[..3] == MovWord || line[..3] == TxtWord)
    ensures |line| > 3 && line[..3] == MovWord ==>
      o == if movArgs.Some? then Send(MovDatagram(movArgs.value.0, movArgs.value.1)) else MoveNotParsed
    ensures |line| > 3 && line[..3] == TxtWord ==> o == Send(TxtDatagram(line))
  {
    if |line| <= 3 then LineTooShort
    else if line[0] == 'M' as int && line[1] == 'O' as int && line[2] == 'V' as int then
      match movArgs
      case None => MoveNotParsed
      case Some((col, row)) => Send(MovDatagram(col, row))
    else if line[0] == 'T' as int && line[1] == 'X' as int && line[2] == 'T' as int then
      Send(TxtDatagram(line))
    else CodeNotFound
  }

  /** `send_message_to_server`: the TXT branch rewrites the line's buffer in
      place and sends its part from byte 3 on. */
  method SendMessageToServer(line: seq<Byte>, movArgs: Option<(int, int)>) returns (o: Outgoing)
    requires |line| < MAX_SIZE
    ensures o == Frame(line, movArgs)
  {
    var msglen := |line|;
    if msglen <= 3 {
      return LineTooShort;
    }
    if line[0] == 'M' as int && line[1] == 'O' as int && line[2] == 'V' as int {
      match movArgs
      case None =>
        o := MoveNotParsed;
      case Some((col, row)) =>
        var msgToSend := new Byte[3];
        msgToSend[0] := MOV;
        msgToSend[1] := ToChar(col);
        msgToSend[2] := ToChar(row);
        o := Send(msgToSend[..]);
    } else if line[0] == 'T' as int && line[1] == 'X' as int && line[2] == 'T' as int {
      var msg := new Byte[MAX_SIZE](i => if 0 <= i < |line| then line[i] else 0);
      var start := 3;
      var len := msglen - 3;
      msg[start] := TXT;
      msg[start + len - 1] := 0;
      assert msg[start..start + len] == line[3..][0 := TXT][len - 1 := 0];
      o := Send(msg[start..start + len]);
    } else {
      o := CodeNotFound;
    }
  }
}
