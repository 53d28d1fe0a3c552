/** Octets and the big-endian integer encodings the GTPv2-C codec uses. */
module Bytes {

  type byte = x: int | 0 <= x < 0x100
  type u16 = x: int | 0 <= x < 0x1_0000
  type u32 = x: int | 0 <= x < 0x1_0000_0000

  function Put16(v: u16): (b: seq<byte>)
    ensures |b| == 2
  {
    [v / 0x100, v % 0x100]
  }

  function Get16(b: seq<byte>): u16
    requires |b| >= 2
  {
    (b[0] as int) * 0x100 + (b[1] as int)
  }

  /** The low 24 bits of v, most significant octet first. */
  function Put24(v: u32): (b: seq<byte>)
    ensures |b| == 3
  {
    [v / 0x1_0000 % 0x100, v / 0x100 % 0x100, v % 0x100]
  }

  function Get24(b: seq<byte>): u32
    requires |b| >= 3
  {
    (b[0] as int) * 0x1_0000 + (b[1] as int) * 0x100 + (b[2] as int)
  }

  function Put32(v: u32): (b: seq<byte>)
    ensures |b| == 4
  {
    [v / 0x100_0000] + Put24(v % 0x100_0000)
  }

  function Get32(b: seq<byte>): u32
    requires |b| >= 4
  {
    (b[0] as int) * 0x100_0000 + (Get24(b[1..]) as int)
  }

  lemma Get24Put24(v: u32)
    ensures Get24(Put24(v)) == v % 0x100_0000
  {
    var q := v / 0x100;
    assert v == q * 0x100 + v % 0x100;
    assert v / 0x1_0000 == q / 0x100;
    assert q == q / 0x100 * 0x100 + q % 0x100;
    var r := q / 0x100;
    assert r == r / 0x100 * 0x100 + r % 0x100;
    assert v == r / 0x100 * 0x100_0000 + r % 0x100 * 0x1_0000 + q % 0x100 * 0x100 + v % 0x100;
  }

  lemma Get32Put32(v: u32)
    ensures Get32(Put32(v)) == v
  {
    Get24Put24(v % 0x100_0000);
    assert Put32(v)[1..] == Put24(v % 0x100_0000);
  }

  lemma Get16Put16(v: u16)
    ensures Get16(Put16(v)) == v
  {
  }
}
