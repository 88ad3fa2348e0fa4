/** Bytes and the big-endian 32-bit field that PNG uses for lengths, sizes and checksums. */
module Bytes {

  type Byte = x: int | 0 <= x < 256

  const TwoTo32: nat := 0x1_0000_0000

  /** A 4-byte big-endian unsigned integer (struct format ">I"). */
  function BE32(n: nat): (r: seq<Byte>)
    requires n < TwoTo32
    ensures |r| == 4
    ensures FromBE32(r) == n
  {
    [n / 0x100 / 0x100 / 0x100, n / 0x100 / 0x100 % 0x100, n / 0x100 % 0x100, n % 0x100]
  }

  /** Reads back a 4-byte big-endian unsigned integer. */
  function FromBE32(s: seq<Byte>): (n: nat)
    requires |s| == 4
    ensures n < TwoTo32
  {
    (s[0] as int) * 0x100_0000 + (s[1] as int) * 0x1_0000 + (s[2] as int) * 0x100 + s[3] as int
  }

  /** Encoding is injective on its four bytes: the bytes alone determine the number. */
  lemma BE32Inverse(s: seq<Byte>)
    requires |s| == 4
    ensures BE32(FromBE32(s)) == s
  {
    var a, b, c, d := s[0] as int, s[1] as int, s[2] as int, s[3] as int;
    var n := FromBE32(s);
    DivMod(n, 0x100, a * 0x1_0000 + b * 0x100 + c, d);
    DivMod(n / 0x100, 0x100, a * 0x100 + b, c);
    DivMod(n / 0x100 / 0x100, 0x100, a, b);
  }

  /** Euclidean division is determined by any quotient/remainder pair. */
  lemma DivMod(n: int, m: int, q: int, r: int)
    requires m > 0 && 0 <= r < m && n == q * m + r
    ensures n / m == q && n % m == r
  {
    var k := n / m - q;
    assert k * m == r - n % m;
  }
}
