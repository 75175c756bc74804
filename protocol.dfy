/** Wire constants shared by the server and the client (server.h, client.h),
    and the C byte-level conversions both programs rely on. */
module Protocol {

  /** One byte of a datagram, as an unsigned value. */
  type Byte = x: int | 0 <= x < 256

  datatype Option<+T> = None | Some(value: T)

  // Message codes: the first byte of every datagram.
  const FYI: Byte := 1  // board snapshot
  const MYM: Byte := 2  // "make your move" prompt
  const END: Byte := 3  // game over
  const TXT: Byte := 4  // text
  const MOV: Byte := 5  // move
  const LFT: Byte := 6  // leave (defined, never used)

  /** Size of every receive and send buffer. */
  const MAX_SIZE: nat := 5000
  /** Number of seats. */
  const MAX_CLIENTS: nat := 2

  /** The result byte of the "no room" refusal. */
  const NO_ROOM: Byte := 0xFF

  /** A receive buffer of MAX_SIZE bytes after a datagram d is read into it
      and the NUL is written after it (server.c `listen_data`, client.c
      `read_message_from_server`); `tail` is what the buffer held before. */
  function RecvBuffer(d: seq<Byte>, tail: seq<Byte>): (buf: seq<Byte>)
    requires |d| < MAX_SIZE && |tail| == MAX_SIZE - |d| - 1
    ensures |buf| == MAX_SIZE && buf[..|d|] == d && buf[|d|] == 0
  {
    d + [0] + tail
  }

  /** A cast `(char) x` of an int: keeps the low 8 bits. */
  function ToChar(x: int): (b: Byte)
    ensures (b - x) % 256 == 0
  {
    x % 256
  }

  /** A read `(int) c` of a `char` byte: `char` is signed, so bytes
      0x80..0xFF read as -128..-1. */
  function SignedChar(b: Byte): (x: int)
    ensures -128 <= x < 128
    ensures ToChar(x) == b
  {
    if b < 128 then b else b - 256
  }

  lemma CharRoundTrip(x: int)
    requires -128 <= x < 128
    ensures SignedChar(ToChar(x)) == x
  {
  }

  /** The bytes of a string literal of the C source (all of them are ASCII). */
  function Ascii(s: string): (r: seq<Byte>)
    ensures |r| == |s|
    ensures forall i :: 0 <= i < |s| && s[i] as int < 256 ==> r[i] == s[i] as int
  {
    seq(|s|, i requires 0 <= i < |s| => ToChar(s[i] as int))
  }

  /** The C string stored at the start of a buffer: every byte before the
      first NUL (the whole buffer when it holds no NUL). */
  function CString(s: seq<Byte>): (r: seq<Byte>)
    ensures |r| <= |s| && r == s[..|r|]
    ensures forall i :: 0 <= i < |r| ==> r[i] != 0
    ensures |r| < |s| ==> s[|r|] == 0
  {
    if s == [] || s[0] == 0 then [] else [s[0]] + CString(s[1..])
  }

  /** A NUL-free s followed by a NUL reads back as the C string s, whatever
      follows the NUL. */
  lemma {:induction false} CStringTerminated(s: seq<Byte>, t: seq<Byte>)
    requires forall i :: 0 <= i < |s| ==> s[i] != 0
    ensures CString(s + [0] + t) == s
  {
    if s != [] {
      assert (s + [0] + t)[1..] == s[1..] + [0] + t;
      CStringTerminated(s[1..], t);
    }
  }

  /** `strncmp(a, b, n) == 0`: the first n bytes agree, where the comparison
      stops early at a NUL that both strings share. */
  function StrnEq(a: seq<Byte>, b: seq<Byte>, n: nat): bool
    requires n <= |a| && n <= |b|
  {
    if n == 0 then true
    else if a[0] != b[0] then false
    else if a[0] == 0 then true
    else StrnEq(a[1..], b[1..], n - 1)
  }

  /** Against a pattern whose only NUL is its last byte, `strncmp` over the
      pattern's length is plain equality of the first n bytes. */
  lemma {:induction false} StrnEqTerminated(a: seq<Byte>, b: seq<Byte>, n: nat)
    requires 1 <= n <= |a| && n <= |b|
    requires b[n - 1] == 0
    requires forall i :: 0 <= i < n - 1 ==> b[i] != 0
    ensures StrnEq(a, b, n) <==> a[..n] == b[..n]
  {
    if n == 1 {
      assert a[..1] == [a[0]] && b[..1] == [b[0]];
    } else {
      StrnEqTerminated(a[1..], b[1..], n - 1);
      assert a[..n] == [a[0]] + a[1..][..n - 1];
      assert b[..n] == [b[0]] + b[1..][..n - 1];
    }
  }
}
