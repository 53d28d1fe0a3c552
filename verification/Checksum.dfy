/**
 * The Internet checksum of the user plane (ebpf/headers/csum.h; RFC 1071): a 64-bit
 * accumulator folded four times.
 */
module Checksum {
  import opened Bytes

  type u64 = x: int | 0 <= x < 0x1_0000_0000_0000_0000

  // ---- One's-complement arithmetic --------------------------------------------

  /** End-around-carry addition of two 16-bit words: the reference definition. */
  function OnesAdd(a: u16, b: u16): u16 {
    if a + b < 0x1_0000 then a + b else a + b - 0xFFFF
  }

  /** The one's-complement sum of the big-endian words of an even number of bytes. */
  function OnesSum(b: seq<byte>): u16
    requires |b| % 2 == 0
  {
    if b == [] then 0 else OnesAdd((b[0] as int) * 256 + b[1], OnesSum(b[2..]))
  }

  /** The same sum taken over little-endian words without carries, as the helper adds them up. */
  function LittleSum(b: seq<byte>): nat
    requires |b| % 2 == 0
  {
    if b == [] then 0 else (b[1] as int) * 256 + b[0] + LittleSum(b[2..])
  }

  /** The one 16-bit value a sum folds to: zero only for zero, else the residue in 1..65535. */
  function Reduce(x: nat): u16 {
    if x == 0 then 0 else (x - 1) % 0xFFFF + 1
  }

  lemma ReduceIsUnique(x: nat, r: u16)
    requires (x == 0 <==> r == 0) && (x - r) % 0xFFFF == 0
    ensures Reduce(x) == r
  {
    var k := (x - r) / 0xFFFF;
    assert x == r + 0xFFFF * k;
    if x > 0 {
      assert (x - 1) % 0xFFFF == r - 1;
    }
  }

  lemma ReduceIsCongruent(x: nat)
    ensures (x - Reduce(x)) % 0xFFFF == 0 && (x == 0 <==> Reduce(x) == 0)
  {
  }

  lemma OnesAddReduces(a: u16, x: nat)
    ensures OnesAdd(a, Reduce(x)) == Reduce(a + x)
  {
    ReduceIsCongruent(x);
    var k := (x - Reduce(x)) / 0xFFFF;
    assert x == Reduce(x) + 0xFFFF * k;
    var r := OnesAdd(a, Reduce(x));
    if r == a + Reduce(x) {
      assert a + x - r == 0xFFFF * k;
    } else {
      assert a + x - r == 0xFFFF * (k + 1);
    }
    ReduceIsUnique(a + x, r);
  }

  /** Byte order does not matter to the checksum: the two sums differ by a factor of 256 modulo 65535. */
  lemma {:induction false} ByteOrders(b: seq<byte>)
    requires |b| % 2 == 0
    ensures OnesSum(b) == Reduce(256 * LittleSum(b))
  {
    if b != [] {
      ByteOrders(b[2..]);
      var x: u16, rest := (b[0] as int) * 256 + b[1], LittleSum(b[2..]);
      OnesAddReduces(x, 256 * rest);
      var full := 256 * LittleSum(b);
      assert full == x + 256 * rest + 0xFFFF * (b[1] as int);
      ReduceShift(x + 256 * rest, b[1] as int);
    }
  }

  lemma ReduceShift(x: nat, k: nat)
    requires x == 0 ==> k == 0
    ensures Reduce(x + 0xFFFF * k) == Reduce(x)
  {
    ReduceIsCongruent(x);
    var j := (x - Reduce(x)) / 0xFFFF;
    assert x + 0xFFFF * k - Reduce(x) == 0xFFFF * (j + k);
    ReduceIsUnique(x + 0xFFFF * k, Reduce(x));
  }

  // ---- csum_fold --------------------------------------------------------------

  function FoldOnce(x: nat): nat {
    x % 0x1_0000 + x / 0x1_0000
  }

  lemma FoldKeepsResidue(x: nat)
    ensures Reduce(FoldOnce(x)) == Reduce(x)
  {
    var q := x / 0x1_0000;
    assert x == FoldOnce(x) + 0xFFFF * q;
    ReduceShift(FoldOnce(x), q);
  }

  /** A fold divides the bound by 65536, as long as the slack stays below a full word. */
  lemma FoldBound(x: nat, p: nat)
    requires 1 <= p && x <= 0x1_0000 * p + 0xFFFE
    ensures FoldOnce(x) <= p + 0xFFFE
  {
    var q, r := x / 0x1_0000, x % 0x1_0000;
    assert x == 0x1_0000 * q + r;
    assert q <= p;
    if q == p {
      assert r <= 0xFFFE;
    }
  }

  function Power16(n: nat): nat {
    if n == 0 then 1 else 0x1_0000 * Power16(n - 1)
  }

  /** Four folds are enough for every 64-bit accumulator; the result is the complement of the folded sum. */
  method CsumFold(accumulated: u64) returns (check: u16)
    ensures check == 0xFFFF - Reduce(accumulated)
  {
    var csum: nat := accumulated;
    assert Power16(4) == 0x1_0000_0000_0000_0000;
    for i := 0 to 4
      invariant Reduce(csum) == Reduce(accumulated)
      invariant csum <= Power16(4 - i) + 0xFFFE
    {
      FoldKeepsResidue(csum);
      FoldBound(csum, Power16(3 - i));
      csum := csum % 0x1_0000 + csum / 0x1_0000;
    }
    assert csum <= 0xFFFF;
    ReduceIsUnique(csum, csum);
    check := 0xFFFF - csum % 0x1_0000;
  }

  /** What the kernel's difference helper may return: any 32-bit value congruent to the sum, zero only for zero. */
  predicate CsumDiff(b: seq<byte>, r: u32)
    requires |b| % 2 == 0
  {
    Reduce(r) == Reduce(LittleSum(b))
  }

  /** The checksum field value of a header, whatever the helper's representative. */
  function HeaderChecksum(hdr: seq<byte>): u16
    requires |hdr| % 2 == 0
  {
    0xFFFF - Reduce(LittleSum(hdr))
  }

  method IPv4Csum(hdr: seq<byte>) returns (check: u16)
    requires |hdr| == 20
    ensures check == HeaderChecksum(hdr)
  {
    LittleSumBound(hdr);
    hide LittleSum, Reduce;
    var csum: u32 :| CsumDiff(hdr, csum) by {
      assert CsumDiff(hdr, LittleSum(hdr));
    }
    assert CsumDiff(hdr, csum);
    check := CsumFold(csum);
    assert Reduce(csum) == Reduce(LittleSum(hdr));
  }

  lemma {:induction false} LittleSumBound(b: seq<byte>)
    requires |b| % 2 == 0
    ensures LittleSum(b) <= 0x8000 * |b|
  {
    if b != [] {
      LittleSumBound(b[2..]);
    }
  }

  // ---- The header after the rewrite -------------------------------------------

  function PutLittle16(v: u16): seq<byte> {
    [v % 256, v / 256]
  }

  lemma {:induction false} LittleSumSplit(a: seq<byte>, b: seq<byte>)
    requires |a| % 2 == 0 && |b| % 2 == 0
    ensures LittleSum(a + b) == LittleSum(a) + LittleSum(b)
  {
    if a == [] {
      assert a + b == b;
    } else {
      assert (a + b)[2..] == a[2..] + b;
      LittleSumSplit(a[2..], b);
    }
  }

  /**
   * Whatever a header holds, once its checksum field is zeroed and then set in memory order,
   * a receiver adding its network-order words gets 0xFFFF.
   */
  lemma StoredChecksumVerifies(before: seq<byte>, after: seq<byte>)
    requires |before| % 2 == 0 && |after| % 2 == 0
    ensures OnesSum(before + PutLittle16(HeaderChecksum(before + [0, 0] + after)) + after) == 0xFFFF
  {
    hide LittleSum, OnesSum, Reduce, PutLittle16;
    var s := LittleSum(before) + LittleSum(after);
    ZeroedChecksum(before, after);
    NetworkSum(before, 0xFFFF - Reduce(s), after);
    ComplementReduces(s);
  }

  lemma ZeroedChecksum(before: seq<byte>, after: seq<byte>)
    requires |before| % 2 == 0 && |after| % 2 == 0
    ensures HeaderChecksum(before + [0, 0] + after) == 0xFFFF - Reduce(LittleSum(before) + LittleSum(after))
  {
    hide LittleSum, Reduce;
    assert PutLittle16(0) == [0, 0];
    SumOfHeader(before, 0, after);
  }

  lemma NetworkSum(before: seq<byte>, v: u16, after: seq<byte>)
    requires |before| % 2 == 0 && |after| % 2 == 0
    ensures |before + PutLittle16(v) + after| % 2 == 0
    ensures OnesSum(before + PutLittle16(v) + after) == Reduce(256 * (LittleSum(before) + v + LittleSum(after)))
  {
    hide LittleSum, OnesSum, Reduce;
    SumOfHeader(before, v, after);
    ByteOrders(before + PutLittle16(v) + after);
  }

  lemma SumOfHeader(before: seq<byte>, v: u16, after: seq<byte>)
    requires |before| % 2 == 0 && |after| % 2 == 0
    ensures LittleSum(before + PutLittle16(v) + after) == LittleSum(before) + v + LittleSum(after)
  {
    hide LittleSum;
    LittleSumSplit(before + PutLittle16(v), after);
    LittleSumSplit(before, PutLittle16(v));
    LittleSumOfWord(v);
  }

  lemma ComplementReduces(s: nat)
    ensures Reduce(256 * (s + 0xFFFF - Reduce(s))) == 0xFFFF
  {
    ReduceIsCongruent(s);
    var k := (s - Reduce(s)) / 0xFFFF;
    assert s + 0xFFFF - Reduce(s) == 0xFFFF * (k + 1);
    assert 256 * (0xFFFF * (k + 1)) == 0xFFFF + 0xFFFF * (256 * (k + 1) - 1);
    ReduceShift(0xFFFF, 256 * (k + 1) - 1);
  }

  lemma LittleSumOfWord(v: u16)
    ensures LittleSum(PutLittle16(v)) == v
  {
    var w := PutLittle16(v);
    assert w[2..] == [];
  }
}
