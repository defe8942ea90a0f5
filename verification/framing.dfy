/** The frame codec of `LMS400.send` and `LMS400.receiveTelegram`.

    A frame on the wire is four STX bytes, a four-byte big-endian payload
    length, the payload, and one checksum byte (the XOR of the payload).
    The receiver keeps the four length bytes in front of the payload it
    returns and discards the checksum without checking it. */
module Framing {
  import opened JavaInt

  newtype byte = x: int | 0 <= x < 256

  const STX: byte := 0x02

  /** Bytes of a frame that are not payload: 4 STX, 4 length, 1 checksum. */
  const Overhead: nat := 9

  /** `OutputStream.write(int)` keeps the low eight bits of its argument. */
  function LowByte(x: int): byte {
    (x % 256) as byte
  }

  /** The byte written for one character of the command. */
  function CharByte(c: char): byte {
    LowByte(c as int)
  }

  /** Value of a byte string read most significant byte first. */
  function BigEndian(bs: seq<byte>): nat {
    if |bs| == 0 then 0 else BigEndian(bs[..|bs| - 1]) * 256 + bs[|bs| - 1] as nat
  }

  /** The four length bytes: digits of `n` in base 256, most significant first. */
  function LengthField(n: nat): (field: seq<byte>)
    ensures |field| == 4
    ensures BigEndian(field) == n % Modulus
  {
    var field := [LowByte(n / 0x100_0000), LowByte(n / 0x1_0000), LowByte(n / 0x100), LowByte(n)];
    BigEndian4(field);
    Base256Digits(n);
    field
  }

  /** The value of four bytes, written out. */
  lemma BigEndian4(f: seq<byte>)
    requires |f| == 4
    ensures BigEndian(f) == ((f[0] as int * 256 + f[1] as int) * 256 + f[2] as int) * 256 + f[3] as int
  {
    assert f[..3][..2][..1] == [f[0]];
    assert f[..3][..2] == [f[0], f[1]];
    assert f[..3] == [f[0], f[1], f[2]];
    assert BigEndian([f[0]]) == f[0] as int by {
      assert [f[0]][..0] == [];
    }
    assert BigEndian([f[0], f[1]]) == f[0] as int * 256 + f[1] as int;
    assert BigEndian([f[0], f[1], f[2]]) == (f[0] as int * 256 + f[1] as int) * 256 + f[2] as int;
  }

  /** The four low base-256 digits of `n` make up `n` modulo 2^32. */
  lemma Base256Digits(n: nat)
    ensures n % Modulus
      == (((n / 0x100_0000) % 256 * 256 + (n / 0x1_0000) % 256) * 256 + (n / 0x100) % 256) * 256 + n % 256
  {
    var q1 := n / 256;
    var q2 := q1 / 256;
    var q3 := q2 / 256;
    var q4 := q3 / 256;
    assert n / 0x1_0000 == q2;
    assert n / 0x100_0000 == q3;
    assert n / Modulus == q4;
    var v := ((q3 % 256 * 256 + q2 % 256) * 256 + q1 % 256) * 256 + n % 256;
    assert n == q1 * 256 + n % 256;
    assert q1 == q2 * 256 + q1 % 256;
    assert q2 == q3 * 256 + q2 % 256;
    assert q3 == q4 * 256 + q3 % 256;
    assert n == q4 * Modulus + v;
  }

  /** The low byte of a character, as bits. */
  function CharBits(c: char): bv8 {
    CharByte(c) as bv8
  }

  /** XOR of the low bytes of all characters. `send` XORs whole 16-bit
      chars and writes the low byte, which is the same value. */
  function Checksum(cmd: string): bv8 {
    if |cmd| == 0 then 0 else Checksum(cmd[..|cmd| - 1]) ^ CharBits(cmd[|cmd| - 1])
  }

  /** The characters of the command as bytes, in order. */
  function Payload(cmd: string): seq<byte> {
    seq(|cmd|, i requires 0 <= i < |cmd| => CharByte(cmd[i]))
  }

  /** The frame `send` writes for `cmd`. */
  function Frame(cmd: string): (wire: seq<byte>)
    ensures |wire| == Overhead + |cmd|
    ensures forall i :: 0 <= i < 4 ==> wire[i] == STX
    ensures BigEndian(wire[4..8]) == |cmd| % Modulus
    ensures forall i :: 0 <= i < |cmd| ==> wire[8 + i] == CharByte(cmd[i])
    ensures wire[|wire| - 1] == Checksum(cmd) as byte
  {
    var wire := [STX, STX, STX, STX] + LengthField(|cmd|) + Payload(cmd) + [Checksum(cmd) as byte];
    assert wire[4..8] == LengthField(|cmd|);
    wire
  }

  /** The checksum of a concatenation is the XOR of the two checksums,
      so it does not depend on how the command is split into writes. */
  lemma {:induction false} ChecksumAppend(a: string, b: string)
    ensures Checksum(a + b) == Checksum(a) ^ Checksum(b)
    decreases |b|
  {
    if |b| == 0 {
      assert a + b == a;
    } else {
      var b' := b[..|b| - 1];
      assert (a + b)[..|a + b| - 1] == a + b';
      ChecksumAppend(a, b');
    }
  }

  /** `send`, written with the loops of the Java method: STX four times,
      the length by successive division by 16^6, 16^4, 16^2, 16^0, then
      each character while accumulating the checksum. */
  method Send(cmd: string) returns (wire: seq<byte>)
    ensures wire == Frame(cmd)
  {
    var markers := [STX, STX, STX, STX];
    var field := LengthField(|cmd|);
    wire := [];
    for i := 0 to 4
      invariant wire == markers[..i]
    {
      wire := wire + [STX];
    }
    var len := |cmd|;
    for i := 0 to 4
      invariant wire == markers + field[..i]
      invariant i == 0 ==> len == |cmd|
      invariant i > 0 ==> len == |cmd| % Pow256(4 - i)
    {
      var p := Pow256(3 - i);
      LengthDigit(|cmd|, i);
      var temp := len / p;
      assert field[..i + 1] == field[..i] + [LowByte(temp)];
      wire := wire + [LowByte(temp)];
      len := len % p;
    }
    var checksum: bv8 := 0;
    for i := 0 to |cmd|
      invariant wire == markers + field + Payload(cmd[..i])
      invariant checksum == Checksum(cmd[..i])
    {
      assert Payload(cmd[..i + 1]) == Payload(cmd[..i]) + [CharByte(cmd[i])];
      wire := wire + [CharByte(cmd[i])];
      assert cmd[..i + 1][..i] == cmd[..i];
      checksum := checksum ^ CharBits(cmd[i]);
    }
    assert cmd[..|cmd|] == cmd;
    wire := wire + [checksum as byte];
  }

  /** One step of `send`'s length loop writes the i-th length byte and
      leaves the remainder for the next step. */
  lemma LengthDigit(n: nat, i: nat)
    requires i < 4
    ensures var len := if i == 0 then n else n % Pow256(4 - i);
      && LowByte(len / Pow256(3 - i)) == LengthField(n)[i]
      && len % Pow256(3 - i) == n % Pow256(3 - i)
  {
    assert Pow256(1) == 0x100;
    assert Pow256(2) == 0x1_0000;
    assert Pow256(3) == 0x100_0000;
    assert Pow256(4) == Modulus;
    if i == 1 {
      DigitStep1(n);
    } else if i == 2 {
      DigitStep2(n);
    } else if i == 3 {
      assert (n % 0x100) / 1 == n % 0x100;
    }
  }

  lemma DigitStep1(n: nat)
    ensures (n % 0x100_0000) / 0x1_0000 == (n / 0x1_0000) % 256
    ensures (n % 0x100_0000) % 0x1_0000 == n % 0x1_0000
  {
  }

  lemma DigitStep2(n: nat)
    ensures (n % 0x1_0000) / 0x100 == (n / 0x100) % 256
    ensures (n % 0x1_0000) % 0x100 == n % 0x100
  {
  }

  /** `Reader.read()`: the next byte, or -1 once the stream is exhausted. */
  function Read(input: seq<byte>, k: nat): (c: int)
    ensures -1 <= c < 256
    ensures k < |input| ==> c == input[k] as int
  {
    if k < |input| then input[k] as int else -1
  }

  /** `(char) c` for a value returned by `read()`: -1 becomes U+FFFF. */
  function ToChar(c: int): char
    requires -1 <= c < 256
  {
    if c < 0 then 0xFFFF as char else c as char
  }

  /** The length `receiveTelegram` computes from the four reads after the
      STX bytes, in Java `int` arithmetic. */
  function DeclaredLength(input: seq<byte>): (len: int)
    ensures InRange(len)
  {
    Wrap(Read(input, 4) * 0x100_0000 + Read(input, 5) * 0x1_0000 + Read(input, 6) * 0x100 + Read(input, 7))
  }

  /** What one call of `receiveTelegram` returns, and the stream after it. */
  datatype Received = Received(telegram: string, rest: seq<byte>)

  /** `receiveTelegram` on a connected stream: skip four bytes, keep the
      four length bytes as characters, keep `len` payload characters
      (none when `len` is not positive), skip the checksum byte. */
  function ReceiveFrame(input: seq<byte>): (r: Received)
    ensures var n := if DeclaredLength(input) > 0 then DeclaredLength(input) else 0;
      && |r.telegram| == 4 + n
      && (forall i :: 0 <= i < |r.telegram| ==> r.telegram[i] == ToChar(Read(input, 4 + i)))
      && r.rest == if Overhead + n <= |input| then input[Overhead + n..] else []
  {
    var len := DeclaredLength(input);
    var n := if len > 0 then len else 0;
    // The four length characters (reads 4..7) and then the n payload
    // characters (reads 8..7+n): character i is read i + 4.
    var telegram := seq(4 + n, i requires 0 <= i < 4 + n => ToChar(Read(input, 4 + i)));
    var used := Overhead + n;
    Received(telegram, if used <= |input| then input[used..] else [])
  }

  /** The four characters a receiver keeps for a length field of `n`. */
  function HeaderChars(n: nat): (h: string)
    ensures |h| == 4
  {
    var f := LengthField(n);
    seq(4, i requires 0 <= i < 4 => ToChar(f[i] as int))
  }

  /** A string whose characters all fit in one byte, so that `send` loses
      nothing when it writes them. */
  predicate Latin1(s: string) {
    forall i :: 0 <= i < |s| ==> s[i] as int < 256
  }

  /** The length a receiver computes from a frame `send` wrote is the
      command's length. */
  lemma FrameLength(cmd: string, more: seq<byte>)
    requires |cmd| <= IntMax
    ensures DeclaredLength(Frame(cmd) + more) == |cmd|
  {
    var input := Frame(cmd) + more;
    var f := LengthField(|cmd|);
    assert input[4..8] == f;
    forall i | 0 <= i < 4
      ensures Read(input, 4 + i) == f[i] as int
    {
      assert input[4 + i] == input[4..8][i];
    }
    BigEndian4(f);
  }

  /** A one-byte character survives being written and read back. */
  lemma Latin1Char(c: char)
    requires c as int < 256
    ensures ToChar(CharByte(c) as int) == c
  {
  }

  /** Round trip: receiving what `send(cmd)` wrote yields the length
      header followed by `cmd` and consumes exactly the frame. */
  lemma {:induction false} RoundTrip(cmd: string, more: seq<byte>)
    requires Latin1(cmd)
    requires |cmd| <= IntMax
    ensures ReceiveFrame(Frame(cmd) + more) == Received(HeaderChars(|cmd|) + cmd, more)
  {
    var input := Frame(cmd) + more;
    FrameLength(cmd, more);
    var r := ReceiveFrame(input);
    var expected := HeaderChars(|cmd|) + cmd;
    assert |r.telegram| == |expected|;
    forall i | 0 <= i < |expected|
      ensures r.telegram[i] == expected[i]
    {
      if i < 4 {
        assert input[4..8] == LengthField(|cmd|);
        assert input[4 + i] == input[4..8][i];
      } else {
        assert input[4 + i] == CharByte(cmd[i - 4]);
        Latin1Char(cmd[i - 4]);
      }
    }
    assert r.telegram == expected;
    assert input[Overhead + |cmd|..] == more;
  }

  /** Bytes read back as characters, one per byte. */
  function Chars(bs: seq<byte>): (s: string)
    ensures |s| == |bs|
  {
    seq(|bs|, i requires 0 <= i < |bs| => ToChar(bs[i] as int))
  }

  /** Any well-formed incoming frame, not only one `send` wrote: whatever
      its four marker bytes and its checksum byte, the receiver returns the
      length bytes and the payload as characters and consumes exactly the
      frame. The markers are never checked and the checksum is read and
      discarded. */
  lemma ReceiveAnyFrame(markers: seq<byte>, header: seq<byte>, payload: seq<byte>, check: byte, more: seq<byte>)
    requires |markers| == 4 && |header| == 4
    requires BigEndian(header) == |payload| <= IntMax
    ensures ReceiveFrame(markers + header + payload + [check] + more)
      == Received(Chars(header + payload), more)
  {
    var input := markers + header + payload + [check] + more;
    var n := |payload|;
    forall i | 0 <= i < 4 + n
      ensures Read(input, 4 + i) == (header + payload)[i] as int
    {
      assert input[4 + i] == (header + payload)[i];
    }
    BigEndian4(header);
    assert DeclaredLength(input) == n;
    var r := ReceiveFrame(input);
    assert r.telegram == Chars(header + payload);
    assert input[Overhead + n..] == more;
  }

  /** A received telegram of 5 to 2^23 characters always starts with the
      character U+0000: only a zero first length byte gives such a length. */
  lemma ShortTelegramLeadsWithZero(input: seq<byte>)
    requires 4 < |ReceiveFrame(input).telegram| <= 0x80_0000
    ensures ReceiveFrame(input).telegram[0] == 0 as char
  {
  }
}
