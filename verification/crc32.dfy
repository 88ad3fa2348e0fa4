/**
 * CRC-32 as PNG chunks use it (the checksum `zlib.crc32` computes): the
 * reflected polynomial 0xEDB88320, register preset to all ones, one bit shifted
 * out per step, final value complemented.
 */
module Crc32 {
  import opened Bytes

  const Poly: bv32 := 0xEDB8_8320

  /** One shift of the register: the bit shifted out decides whether the polynomial is folded in. */
  function Shift(c: bv32): bv32
  {
    if c & 1 == 1 then (c >> 1) ^ Poly else c >> 1
  }

  /** `k` shifts of the register. */
  function Shifts(c: bv32, k: nat): bv32
    decreases k
  {
    if k == 0 then c else Shifts(Shift(c), k - 1)
  }

  /** One message byte: xor it into the low end of the register, then shift eight times. */
  function UpdateByte(c: bv32, b: Byte): bv32
  {
    Shifts(c ^ (b as bv32), 8)
  }

  /** The register after a run of bytes, first byte first. */
  function Update(c: bv32, s: seq<Byte>): bv32
    decreases |s|
  {
    if s == [] then c else Update(UpdateByte(c, s[0]), s[1..])
  }

  /** The checksum of a byte string, as an unsigned 32-bit number. */
  function Checksum(s: seq<Byte>): (r: nat)
    ensures r < TwoTo32
  {
    (Update(0xFFFF_FFFF, s) ^ 0xFFFF_FFFF) as nat
  }

  /** The register can be fed in pieces: what `zlib.crc32(data, value)` relies on. */
  lemma {:induction false} UpdateAppend(c: bv32, a: seq<Byte>, b: seq<Byte>)
    ensures Update(c, a + b) == Update(Update(c, a), b)
    decreases |a|
  {
    if a == [] {
      assert a + b == b;
    } else {
      assert (a + b)[0] == a[0] && (a + b)[1..] == a[1..] + b;
      UpdateAppend(UpdateByte(c, a[0]), a[1..], b);
    }
  }

  /** The standard check value: the checksum of the ASCII digits "123456789" is 0xCBF43926. */
  lemma CheckValue()
    ensures Checksum([0x31, 0x32, 0x33, 0x34, 0x35, 0x36, 0x37, 0x38, 0x39]) == 0xCBF4_3926
  {
    var head: seq<Byte> := [0x31, 0x32, 0x33, 0x34];
    var tail: seq<Byte> := [0x35, 0x36, 0x37, 0x38, 0x39];
    assert head + tail == [0x31, 0x32, 0x33, 0x34, 0x35, 0x36, 0x37, 0x38, 0x39];
    CheckHead();
    CheckTail();
    UpdateAppend(0xFFFF_FFFF, head, tail);
  }

  /** The register after "1234". */
  lemma CheckHead()
    ensures Update(0xFFFF_FFFF, [0x31, 0x32, 0x33, 0x34]) == 0x641C1F5C
  {
    assert UpdateByte(0x77B79C2D, 0x34) == 0x641C1F5C;
    assert Update(0x77B79C2D, [0x34]) == 0x641C1F5C;
    assert UpdateByte(0xB0ACBB32, 0x33) == 0x77B79C2D;
    assert Update(0xB0ACBB32, [0x33, 0x34]) == 0x641C1F5C;
    assert UpdateByte(0x7C231048, 0x32) == 0xB0ACBB32;
    assert Update(0x7C231048, [0x32, 0x33, 0x34]) == 0x641C1F5C;
    assert UpdateByte(0xFFFFFFFF, 0x31) == 0x7C231048;
    assert Update(0xFFFFFFFF, [0x31, 0x32, 0x33, 0x34]) == 0x641C1F5C;
  }

  /** The register after "56789", starting from the register after "1234". */
  lemma CheckTail()
    ensures Update(0x641C1F5C, [0x35, 0x36, 0x37, 0x38, 0x39]) == 0x340BC6D9
  {
    assert UpdateByte(0x651F2550, 0x39) == 0x340BC6D9;
    assert Update(0x651F2550, [0x39]) == 0x340BC6D9;
    assert UpdateByte(0xAFFC9660, 0x38) == 0x651F2550;
    assert Update(0xAFFC9660, [0x38, 0x39]) == 0x340BC6D9;
    assert UpdateByte(0xF68D2C9E, 0x37) == 0xAFFC9660;
    assert Update(0xF68D2C9E, [0x37, 0x38, 0x39]) == 0x340BC6D9;
    assert UpdateByte(0x340AC5E3, 0x36) == 0xF68D2C9E;
    assert Update(0x340AC5E3, [0x36, 0x37, 0x38, 0x39]) == 0x340BC6D9;
    assert UpdateByte(0x641C1F5C, 0x35) == 0x340AC5E3;
    assert Update(0x641C1F5C, [0x35, 0x36, 0x37, 0x38, 0x39]) == 0x340BC6D9;
  }

  /** The CRC every PNG ends with: the checksum of the tag "IEND" alone is 0xAE426082. */
  lemma EndChunkChecksum()
    ensures Checksum([0x49, 0x45, 0x4E, 0x44]) == 0xAE42_6082
  {
    assert UpdateByte(0x639F4775, 0x44) == 0x51BD9F7D;
    assert Update(0x639F4775, [0x44]) == 0x51BD9F7D;
    assert UpdateByte(0x992BAC53, 0x4E) == 0x639F4775;
    assert Update(0x992BAC53, [0x4E, 0x44]) == 0x51BD9F7D;
    assert UpdateByte(0x22FDE946, 0x45) == 0x992BAC53;
    assert Update(0x22FDE946, [0x45, 0x4E, 0x44]) == 0x51BD9F7D;
    assert UpdateByte(0xFFFFFFFF, 0x49) == 0x22FDE946;
    assert Update(0xFFFFFFFF, [0x49, 0x45, 0x4E, 0x44]) == 0x51BD9F7D;
  }
}
