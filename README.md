# Online tic-tac-toe: a verified model of the session logic and the wire codec

This project models, in Dafny, the core of a two-player tic-tac-toe game
played over UDP. It covers two programs.

- **The server.** It holds the one authoritative board. Its globals
  (`players`, `n_connected_clients`, `game` and the one-slot mailbox
  `last_move`) live in one class, `Server.Session`, with a 3×3 array for the
  board and an array for the two seats. Its routines are methods of that
  class:
  - the seat lookup;
  - the datagram handler;
  - the reset;
  - one pass of the game loop's move step;
  - the win/draw scan;
  - the end-of-game clearing;
  - the FYI snapshot encoder.

  The methods are proved against pure specifications:
  - the move step and the win/draw scan against `CheckMove`, `Played` and
    `Judged` in module `Board`;
  - the snapshot encoder against `SnapshotLayout` in module `Board`;
  - the seat lookup against `Server.SeatOf`;
  - the datagram handler against `Server.IsJoinRequest`, `Server.TxtFrame`
    and `Server.WelcomeText`;
  - the reset and the end-of-game clearing state their new state directly.
- **The client.** This is its codec:
  - the framing of typed `MOV` and `TXT` lines;
  - the dispatch on a received datagram's code byte;
  - the interpretation of an END result;
  - the FYI decode loop, which writes a local 3×3 array.

Module `Exchange` connects the two programs:
- the client's decode of every snapshot the server can build gives back the
  server's board, with mark 1 shown as 'X' and mark 2 as 'O', and every
  triple passes the client's `DEBUG_MODE` assertions;
- END results and texts read back as sent;
- a typed "TXT Hello" is exactly the server's join request;
- typed coordinates reach the server's move check unchanged when they fit a
  signed `char`.

Files:
- `protocol.dfy`: the wire constants, bytes and C conversions (signed
  `char`, `(char)` casts, C strings, `strncmp`);
- `board.dfy`: the board, the move check, the line scan, the game value and
  the snapshot layout;
- `server.dfy`: the session class;
- `client.dfy`: the client codec;
- `exchange.dfy`: the round trips between the two.

How the C behaviour is represented:
- Outgoing datagrams are returned as values (`Datagram(to, bytes)`) instead
  of being sent.
- A received datagram is the whole `MAX_SIZE` receive buffer: the bytes
  read, the NUL written after them, and whatever the buffer held before (a
  parameter).
- The model assumes a platform where `char` is signed, as it is for gcc on
  x86 (C leaves the signedness to the implementation):
  - a byte read as `(int)` is `SignedChar`, so 0x80..0xFF read as
    -128..-1;
  - a `(char)` cast is `ToChar`, which works modulo 256.
- Addresses are abstract values with equality. The all-zero address that
  `memset` leaves in an empty seat is `Zeroed`.

Points where the code does more, or less, than it appears to:
- **The out-of-turn move.** The reply to an out-of-turn mover says the move
  was ignored (server.c:212). The handler, however, has already copied the
  move into the mailbox `last_move` (server.c:203). An out-of-turn move
  therefore overwrites the mailbox. It is still never applied, because the
  game loop's guard (server.c:297) only takes a move of the seat to move.
  `Server.Session.Relay` and `Server.Session.MoveStep` state both halves.
- **The `processed` flag.** The handler never sets `g_msg.processed`
  (server.c:194-203). The handler therefore takes the value it happens to
  hold as an unconstrained parameter, and every property holds whatever it
  is.
- **The join request.** The test is `strncmp` against `"Hello\0"` over six
  bytes. A join is therefore exactly the TXT code followed by the bytes
  "Hello" and a NUL: "Hello" with anything after it is refused
  (`Server.JoinRequestExactly`).

## Model

| member | source | states |
|---|---|---|
| Protocol.RecvBuffer | server.c:112-134 | a datagram shorter than the buffer is followed by the NUL the receiver writes, in a buffer of exactly MAX_SIZE bytes |
| Protocol.SignedChar | server.c:312-313 | reading a `char` byte as int gives a value in -128..127 that casts back to the same byte |
| Protocol.ToChar | client.c:142-143 | a `(char)` cast keeps the value modulo 256: the byte differs from the value by a multiple of 256 |
| Protocol.CharRoundTrip | client.c:142-143 | a value that fits a signed `char` survives the `(char)` cast and the `(int)` read at the other end |
| Protocol.CString | client.c:203 | the C string of a buffer is its prefix up to the first NUL: NUL-free, and followed by a NUL unless it fills the buffer |
| Protocol.CStringTerminated | server.c:530-532 | a NUL-free text followed by a NUL reads back as that text, whatever follows |
| Protocol.StrnEq | server.c:169 | `strncmp(a, b, n) == 0`: the first n bytes agree, where the comparison stops early at a NUL both share |
| Protocol.StrnEqTerminated | server.c:169 | `strncmp` against a pattern whose only NUL is its last byte is equality of the first n bytes, in both directions |
| Board.PlaceCount | server.c:326-328 | marking an empty cell adds one to the count of occupied cells of every prefix that contains it, and nothing to the others |
| Board.PlaceOccupied | server.c:326-328 | marking an empty cell adds exactly one to the number of occupied cells |
| Board.CountBelow | server.c:328 | the number of occupied cells among the first k in row-major order, never more than k; `n_occupied` must equal it over all nine cells, and `PlaceCount` shows each placement adds exactly one |
| Board.Occupied | server.h:19 | `n_occupied` as the board defines it: the number of non-zero cells among all nine |
| Board.EmptyCount | server.c:413-416 | the count of occupied cells is 0 exactly when every cell is empty |
| Board.FullCount | server.c:393 | the count is 9 exactly when every cell is occupied, so the draw test means a full board |
| Board.CheckMove | server.c:317-324 | a move is off the grid exactly when col or row is outside 0..2, taken exactly when it is on the grid and its cell is non-zero, and otherwise names its own free cell |
| Board.PlaceMark | server.c:326-328 | a mover's mark in a free cell keeps the board legal, adds one to the count, and never changes an occupied cell |
| Board.RowLine | server.c:358-365 | scan positions 0..2 are the three rows, by coordinates |
| Board.ColumnLine | server.c:368-375 | scan positions 3..5 are the three columns, by coordinates |
| Board.ScanOrder | server.c:358-389 | the eight lines in the order the server tests them: rows 0..2, columns 0..2, the main diagonal, then the anti-diagonal |
| Board.Complete | server.c:359-360 | line j of the scan order is complete when its three cells hold equal marks and the last of them is non-zero; the same test appears at server.c:369-370, 378-379 and 385-386 |
| Board.FirstComplete | server.c:358-390 | the scan finds the first complete line among the first k in scan order: it is complete, no earlier line is, and there is none exactly when none of the k lines is complete |
| Board.LineWins | server.c:358-390 | when line j is the first complete one, the verdict is a win with the mark shared by all three of its cells, whatever the count |
| Board.WinnerIsAMark | server.c:362 | on a legal board a win always reports mark 1 or 2 |
| Board.Judge | server.c:353-397 | the verdict on a board with count n: a win with the mark of the first complete line in scan order, else a draw when n is 9, else the game goes on |
| Board.NoLineOutcome | server.c:393-396 | the verdict is a draw exactly when no line is complete and the count is 9, and the game goes on exactly when no line is complete and the count is not 9 |
| Board.JudgedMeaning | server.c:353-397 | judging keeps the game valid and changes neither the board, the count nor the turn; it ends the game exactly when it was over, a line is complete or the board is full; a non-zero result it sets is the mark of a complete line, and 0 means a full board with no complete line |
| Board.GameValid | server.h:17-24 | the invariant of `game`: every cell is 0, 1 or 2, `n_occupied` is the number of non-zero cells, the seat to move is 0 or 1, and the result is 0 or a mark |
| Board.Judged | server.c:353-397 | `update_game_status` on the game value: a win or a draw sets the over flag and the result (the mark, or 0); otherwise the game is unchanged |
| Board.Placed | server.c:326-328 | the placement step on the game value: the cell takes p + 1, the turn passes to 1 - p, and the count goes up by one |
| Board.Played | server.c:317-335 | one eligible move on the game value: off the grid or onto a taken cell it changes nothing; onto a free cell it is placed and then judged |
| Board.PlayedKeepsValid | server.c:317-337 | a move keeps the count equal to the number of occupied cells, the turn a seat and the result 0..2; occupied cells never change; the only cell that can change is the free cell the move names, and it takes the mover's mark; a move off the grid or onto a taken cell changes nothing |
| Board.PlayedOnFree | server.c:321-335 | a move onto the free cell it names is that cell placed (marked, turn passed, counted) and then judged |
| Board.FreeMove | server.c:324-334 | the mover's mark in a free cell, then the verdict, keeps the game valid, with the board gaining exactly that mark, the turn passed to 1 - p and one more occupied cell |
| Board.PlayedValidMove | server.c:324-328 | a valid move puts p + 1 in its cell, passes the turn to 1 - p, and adds one to a count that stays exact |
| Board.TriplesBelow | server.c:466-475 | the running part of the snapshot holds three bytes per occupied cell scanned so far |
| Board.TriplesPrefix | server.c:466-475 | the triples of an earlier prefix of the cells are a prefix of the triples of a longer one |
| Board.TripleOf | server.c:468-472 | the triple of occupied cell j is (its mark, its column, its row), placed after the triples of the occupied cells before it in row-major order |
| Board.SnapshotLayout | server.c:460-477 | an FYI snapshot is the code, the count byte cast to `char`, then 3 bytes per occupied cell: 2 + 3k bytes for k occupied cells |
| Server.SeatOfFirstMatch | server.c:240-250 | the seat found is the first whose address equals the sender's, and none earlier matches; the result is the number of seats when none matches |
| Server.SeatOf | server.c:240-250 | the index of the first seat whose address equals the sender's, or the number of seats when none does |
| Server.ParseData | server.c:258-268 | the code is byte 0; the payload (bytes 1 on) is copied exactly for a MOV or a TXT code |
| Server.JoinRequestExactly | server.c:169 | the join test holds exactly when the buffer starts with TXT followed by the bytes "Hello" and a NUL |
| Server.IsJoinRequest | server.c:169 | the join test: the code is TXT and `strncmp` of the payload with "Hello\0" over six bytes finds them equal |
| Server.TxtFrame | server.c:522-532 | a text frame is TXT, the message's C string cut to MAX_SIZE - 2 bytes, and a NUL; it is 2 bytes longer than the text it carries, and no byte inside it is NUL |
| Server.ToAll | server.c:455-481 | a broadcast is one copy of the bytes to each seat, seat 0 first |
| Server.MoveReplies | server.c:317-331 | the datagrams of one handled move: the off-grid or the taken refusal to the mover, or after a valid move the snapshot of the new board to both seats |
| Server.Session.Valid | server.c:20-26 | the invariant of the globals: at most two seats, the filled ones holding distinct non-zero addresses and the others zeroed, a valid `game`, and a mailbox player id of 0, 1 or 2 |
| Server.Session.constructor | server.c:20-26 | the zero-initialised globals: both seats zeroed, no client, an empty valid game |
| Server.Session.IdentifyClient | server.c:240-250 | the seat lookup returns the first seat holding the address, or 2 when neither does |
| Server.Session.Eligible | server.c:297 | the move loop's wait condition is false: the mailbox holds a move of the seat to move whose processed flag is 0 |
| Server.Session.Handle | server.c:141-228 | the handler never changes the game. A third sender while both seats are filled gets exactly [END, 0xFF] and nothing changes. While a seat is free, an unassigned sender takes the next seat, is welcomed and the count goes up by one, exactly on the join request, and nothing changes otherwise. A seated sender's MOV while both seats are filled overwrites the mailbox (with a warning when it is not that seat's turn); anything else gets the "not expected" reply. The session invariant is kept for every value of `processed` |
| Server.Session.Admit | server.c:164-189 | the join branch: the next seat takes the sender and the count goes up by one exactly when the buffer is the join request; otherwise seats, count and mailbox are unchanged and nothing is sent |
| Server.Session.Relay | server.c:192-223 | the seated-sender branch: a MOV with both seats filled becomes the mailbox (seat, processed, col byte, row byte), answered with the turn warning when it is not that seat's turn; any other message is answered as unexpected; the game is unchanged |
| Server.Session.InitializeGame | server.c:406-419 | reset: an empty board, no occupied cell, seat 0 to move, not over, and the mailbox sentinel seat 2, processed |
| Server.Session.SnapshotBytes | server.c:451-477 | the buffer filled with the running index is exactly the snapshot layout of the current board and count |
| Server.Session.PutRow | server.c:466-475 | the inner loop over one row appends the triples of exactly that row's occupied cells |
| Server.Session.PutCell | server.c:467-473 | one cell of the inner loop appends the triple of that cell exactly when it is occupied, keeping the running index at 2 plus 3 per occupied cell so far |
| Server.Session.SendInformationMessages | server.c:451-484 | both seats get the snapshot of the current board, seat 0 first |
| Server.Session.UpdateGameStatus | server.c:353-397 | the game after the status update is the judged game, so the game ends on the first complete line or a full board, and the invariant is kept |
| Server.Session.ScanLines | server.c:353-397 | the array scan (rows, columns, the main diagonal, then the anti-diagonal) decides the verdict of the first complete line in that order, else a draw on 9 cells, else the game goes on |
| Server.Session.RowTest | server.c:359-362 | the row test on the array is the completeness of that row, and the winning mark read is that row's cell |
| Server.Session.ColumnTest | server.c:369-372 | the column test on the array is the completeness of that column, and the winning mark read is that column's cell |
| Server.Session.StartGame | server.c:287-293 | nothing is sent while a seat is empty; once both are filled, both seats get the snapshot of the current board (the empty board, since `InitializeGame` runs first) |
| Server.Session.MoveStep | server.c:295-337 | while the mailbox does not hold an unprocessed move of the seat to move, the seat to move is prompted with MYM and nothing changes; otherwise the move is played on the game (so an off-grid or taken move changes nothing), answered as the move check decides, and marked processed; the invariant is kept |
| Server.Session.ApplyPendingMove | server.c:312-337 | an eligible pending move, its bytes read as signed `char`s, is played on the game; the mover gets the off-grid or taken refusal, or both seats get the new board; processed becomes 1 in every case |
| Server.Session.PlayMove | server.c:317-335 | a move of seat p is played on the game; the mover gets the off-grid or the taken refusal when the move check says so, and both seats get the new board after a valid move |
| Server.Session.Commit | server.c:324-335 | a valid move is placed, the new board is broadcast, and the game is judged: the result is the played game |
| Server.Session.Announce | server.c:330-334 | both seats get the board as it is, then the game becomes the judged game |
| Server.Session.Place | server.c:326-328 | the game becomes `Placed`: the cell takes p + 1, the turn passes to 1 - p, the count goes up by one, and nothing else changes; the invariant is kept |
| Server.Session.FinalizeGame | server.c:421-444 | each seat, seat 0 first, gets [END, result cast to `char`], then both seats are zeroed and the count is 0; the game is unchanged |
| Server.Session.PutTriple | server.c:469-472 | three bytes are written at the running index and the index moves past them, leaving the bytes before it intact |
| Server.Session.TripleStep | server.c:466-475 | one more cell of the row-major scan adds its (mark, col, row) triple exactly when it is occupied |
| Client.InterpretEnd | client.c:215-221 | the result byte 0xFF means no room and only it does, 0 means a draw and only it does, any other byte is reported as the winner it reads as |
| Client.LegalAt | client.c:236-243 | triple i of the snapshot, read as signed `char`s at offsets 2+3i, 3+3i and 4+3i, passes the three `DEBUG_MODE` assertions |
| Client.LegalTriple | client.c:241-243 | the three `DEBUG_MODE` assertions: the player is 1 or 2, and column and row are in 0..2 |
| Client.MarkOf | client.c:245 | the mark painted for a player: 'X' for 1, 'O' for anything else |
| Client.Painted | client.c:234-246 | after k triples, the decode has not aborted exactly when every triple so far is legal, and every cell holds '\0', 'X' or 'O' |
| Client.Snapshot | client.c:229-246 | a count byte reading 0 or less gives the blank picture; otherwise the decode succeeds exactly when all the triples it counts are legal |
| Client.DecodeSnapshot | client.c:229-246 | the loop over the local array gives the specified decode of the snapshot |
| Client.PaintedStep | client.c:245 | a legal triple paints the cell at (row, col) with 'X' for player 1 and 'O' otherwise |
| Client.PaintedFails | client.c:240-244 | one illegal triple makes the whole decode abort |
| Client.Paint | client.c:245 | writing the array cell (row, col) changes exactly that entry of the picture |
| Client.Receive | client.c:199-267 | each code byte selects its own branch and only it: TXT shows the C string after the code, MYM prompts, END reports the outcome of its result byte, FYI shows the decoded board with its signed count or aborts when the decode fails, and any other code is unknown |
| Client.ReadMessageFromServer | client.c:184-270 | the handling of a received datagram is the specified dispatch, and the function returns 1 exactly for END and 0 otherwise |
| Client.MovDatagram | client.c:138-143 | a MOV datagram is exactly 3 bytes [MOV, col, row]; coordinates that fit a signed `char` read back unchanged |
| Client.TxtDatagram | client.c:151-157 | a TXT datagram is the line from byte 3 on, 3 bytes shorter than the line, the TXT code first, the text after "TXT " in the middle, and the newline replaced by NUL |
| Client.Frame | client.c:123-165 | a line of 3 bytes or fewer is refused; only MOV and TXT lines are sent; a MOV line sends its 3-byte datagram exactly when its coordinates parse; a TXT line sends its TXT datagram |
| Client.SendMessageToServer | client.c:118-168 | the in-place rewrite of the line buffer sends the specified frame |
| Exchange.DecodesBelow | client.c:234-246 | decoding the triples of the occupied cells among the first k of a server snapshot paints exactly those cells with their marks |
| Exchange.DecodeCell | client.c:234-246 | one more cell of the board keeps decode and board in step, whether it is empty or occupied |
| Exchange.DecodeOccupied | client.c:236-245 | the triple of an occupied cell paints exactly that cell with its owner's mark |
| Exchange.DisplayNone | client.c:232 | before any triple, the picture is blank |
| Exchange.DisplaySkip | server.c:468 | an empty cell sends no triple and adds nothing to the picture |
| Exchange.DisplayStep | client.c:245 | the picture of one more occupied cell is the earlier picture with that cell painted |
| Exchange.SnapshotTriple | client.c:236-243 | the triple read for an occupied cell of a server snapshot is its mark, its column and its row, and it passes the client's assertions |
| Exchange.SnapshotRoundTrip | client.c:226-246 | the client's decode of the FYI snapshot the server builds for any legal board shows that board, 1 as 'X' and 2 as 'O', with its count, and every triple passes the `DEBUG_MODE` assertions |
| Exchange.SessionSnapshotDecodes | server.c:451-484 | the snapshot a valid session broadcasts decodes to that session's board |
| Exchange.EndOutcomes | client.c:211-223 | the END result the server sends reads back as a draw for 0 and as the winner for 1 or 2, and the refusal [END, 0xFF] reads as "no room" |
| Exchange.TextRoundTrip | client.c:200-204 | the client shows exactly the C string the server framed, for every text of at most MAX_SIZE - 3 bytes (a frame that leaves room for the client's NUL) |
| Exchange.TypedJoin | client.c:151-160 | a typed TXT line is sent as its TXT datagram, and the server takes that datagram as a join request exactly when the text between "TXT " and the newline is "Hello" |
| Exchange.HelloLineJoins | client.c:151-160 | the typed line "TXT Hello\n" becomes [TXT, 'H', 'e', 'l', 'l', 'o', 0], which the server takes as a join request |
| Exchange.MoveRoundTrip | server.c:312-317 | typed coordinates that fit a signed `char` reach the server's move check as typed, in a datagram it parses as a MOV |
| Exchange.TypedCoordinatesWrap | client.c:142-143 | typed coordinates are taken modulo 256, so "MOV 256 1" is the move "MOV 0 1" |

## Left out

- Sockets: `socket`, `bind`, `recvfrom`, `sendto`, and the `recv error` path of `listen_data`. These are I/O. A datagram is a parameter and a sent datagram is a returned value. The server's handler is given the whole receive buffer.
- Threads: the mutex, the condition variables and the thread per datagram. Each handler call and each pass of the game loop is one atomic method. The unlocked reads of `n_connected_clients` are not modelled.
- The `pthread_cond_wait` loops. The wait for players is `StartGame`, which sends nothing until both seats are filled. The wait for a move is one pass of `MoveStep`, which prompts with MYM and changes nothing.
- The order of a whole game (reset, wait, moves until over, finalize). The game loop's outer `while(1)` is not one method. Its steps are methods with contracts that compose.
- `main`, argument parsing with `sscanf`, `read_line`/`fgets`, and the terminal output: `printf`, the board rendering at client.c:248-260, `print_bytes` and the `DEBUG_MODE` logging.
- The client's `sscanf(msg+3, "%d%d", ...)`. Its outcome is a parameter of `Client.Frame`: the two parsed integers, or none.
- `memcmp` of `sockaddr_in`. An address is an abstract value compared with `==`.
- `snprintf` of the welcome text. `Server.WelcomeText` builds the same text for seats 0 and 1. It has no contract of its own.
- The `LFT` code. It is defined in both headers and used nowhere.
- A failing `DEBUG_MODE` assertion in the client's FYI loop aborts the process. It is modelled as the decode result `None` (event `Aborted`).
- Client.ReadMessageFromServer: requires the datagram to be shorter than the buffer. `recvfrom` can fill all `MAX_SIZE` bytes, and then `buffer[n_bytes] = '\0'` writes one byte past the array. The server sends no datagram that long.
- Server.TxtFrame: a message of `MAX_SIZE - 2` bytes or more leaves `send_txt`'s own outgoing buffer unterminated after `strncpy`. `strlen` then reads its undefined last byte. The model takes that byte as NUL, which gives the longest frame with defined behaviour. With any other byte, `strlen` runs past the buffer. The server's own texts are all far shorter.
- Platforms where `char` is unsigned (ARM Linux, for example) are not modelled. There a count byte of 0x80 or more makes the client's FYI loop read up to 255 triples. `Client.Snapshot` instead shows the blank board for such a byte, and `Client.Painted` stops at 127 triples. The same choice decides how the server reads the MOV bytes and how the client reads the END result.
- Exchange.TextRoundTrip: requires the text to be at most MAX_SIZE - 3 bytes, so that the code byte, the text, the frame's NUL and the client's own NUL fit in MAX_SIZE bytes; a text of MAX_SIZE - 2 bytes or more is not covered: `send_txt` frames it in MAX_SIZE bytes, and the client's terminating NUL then lands past its buffer.
- Exchange.MoveRoundTrip: covers coordinates in -128..127 only. Others wrap modulo 256, as `Exchange.TypedCoordinatesWrap` states.
- Server.Session.MoveStep: requires the game not to be over. That is the condition of the loop at server.c:295 that contains it.
