/** Bytes and the 4-byte big-endian integers (htonl / ntohl) used by the
    host-table codec and the bootstrap TLV framing. */
module Wire {
  import opened Text

  type byte = b: int | 0 <= b < 256

  /** A uint32_t. */
  type u32 = n: int | 0 <= n < 0x1_0000_0000

  /** The four bytes of htonl(x) as they appear in memory: most significant
      first. */
  function BE32(x: u32): (r: seq<byte>)
    ensures |r| == 4
  {
    [x / 0x100_0000, (x / 0x1_0000) % 0x100, (x / 0x100) % 0x100, x % 0x100]
  }

  /** ntohl of the four bytes at `at`. */
  function ReadBE32(s: seq<byte>, at: nat): u32
    requires at + 4 <= |s|
  {
    s[at] as int * 0x100_0000 + s[at + 1] as int * 0x1_0000 + s[at + 2] as int * 0x100 + s[at + 3] as int
  }

  /** Reading back the bytes of BE32(x), wherever they sit, gives x. */
  lemma BE32RoundTrip(x: u32, s: seq<byte>, at: nat)
    requires at + 4 <= |s| && s[at..at + 4] == BE32(x)
    ensures ReadBE32(s, at) == x
  {
    assert s[at] == x / 0x100_0000 && s[at + 1] == (x / 0x1_0000) % 0x100;
    assert s[at + 2] == (x / 0x100) % 0x100 && s[at + 3] == x % 0x100;
    var q1: int := x / 0x100;
    var q2: int := q1 / 0x100;
    assert x == q1 * 0x100 + x % 0x100;
    assert q1 == q2 * 0x100 + q1 % 0x100;
    assert x / 0x1_0000 == q2;
    assert q2 == (q2 / 0x100) * 0x100 + q2 % 0x100;
    assert x / 0x100_0000 == q2 / 0x100;
  }

  /** Encoding the value read from four bytes gives those bytes back, so
      every 4-byte group is the encoding of exactly one u32. */
  lemma ReadBE32Encodes(s: seq<byte>, at: nat)
    requires at + 4 <= |s|
    ensures BE32(ReadBE32(s, at)) == s[at..at + 4]
  {
    var x: int := ReadBE32(s, at);
    var b0, b1, b2, b3: int := s[at], s[at + 1], s[at + 2], s[at + 3];
    DivModUnique(x, 0x100, b0 * 0x1_0000 + b1 * 0x100 + b2, b3);
    DivModUnique(x, 0x1_0000, b0 * 0x100 + b1, b2 * 0x100 + b3);
    DivModUnique(x, 0x100_0000, b0, b1 * 0x1_0000 + b2 * 0x100 + b3);
    DivModUnique(b0 * 0x100 + b1, 0x100, b0, b1);
    DivModUnique(b0 * 0x1_0000 + b1 * 0x100 + b2, 0x100, b0 * 0x100 + b1, b2);
  }

  /** BE32 is one-to-one. */
  lemma BE32Injective(x: u32, y: u32)
    requires BE32(x) == BE32(y)
    ensures x == y
  {
    BE32RoundTrip(x, BE32(x), 0);
    BE32RoundTrip(y, BE32(y), 0);
  }
}
