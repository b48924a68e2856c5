/** Bytes and the big-endian integers of the recording format. */
module Bytes {
  type Byte = n: int | 0 <= n < 256

  const U16: nat := 0x1_0000
  const U32: nat := 0x1_0000_0000

  function Pow256(k: nat): (p: nat)
    ensures p >= 1
  {
    if k == 0 then 1 else 256 * Pow256(k - 1)
  }

  /** The `k` low-order bytes of `n`, highest first. */
  function Pack(n: nat, k: nat): (bs: seq<Byte>)
    ensures |bs| == k
  {
    if k == 0 then [] else Pack(n / 256, k - 1) + [n % 256]
  }

  /** The number whose bytes are `bs`, highest first. */
  function Value(bs: seq<Byte>): (n: nat)
    ensures n < Pow256(|bs|)
  {
    if bs == [] then 0 else 256 * Value(bs[..|bs| - 1]) + bs[|bs| - 1]
  }

  lemma {:induction false} ValueOfPacked(n: nat, k: nat)
    requires n < Pow256(k)
    ensures Value(Pack(n, k)) == n
  {
    if k > 0 {
      ValueOfPacked(n / 256, k - 1);
      assert (Pack(n / 256, k - 1) + [n % 256])[..k - 1] == Pack(n / 256, k - 1);
    }
  }

  lemma Widths()
    ensures Pow256(2) == U16 && Pow256(4) == U32
  {}

  /** `struct.pack(">H", n)` */
  function PackU16(n: nat): (bs: seq<Byte>)
    requires n < U16
    ensures |bs| == 2
  {
    Pack(n, 2)
  }

  /** `struct.pack(">I", n)` */
  function PackU32(n: nat): (bs: seq<Byte>)
    requires n < U32
    ensures |bs| == 4
  {
    Pack(n, 4)
  }

  /** `dv.getUint16` at the start of `bs` */
  function ReadU16(bs: seq<Byte>): (n: nat)
    requires |bs| >= 2
    ensures n < U16
  {
    Widths();
    Value(bs[..2])
  }

  /** `dv.getUint32` at the start of `bs` */
  function ReadU32(bs: seq<Byte>): (n: nat)
    requires |bs| >= 4
    ensures n < U32
  {
    Widths();
    Value(bs[..4])
  }

  /** Both are big-endian. */
  lemma ReadsBigEndian(bs: seq<Byte>)
    ensures |bs| >= 2 ==> ReadU16(bs) == (bs[0] as int) * 256 + bs[1]
    ensures |bs| >= 4 ==>
              ReadU32(bs) == (bs[0] as int) * 16777216 + (bs[1] as int) * 65536 + (bs[2] as int) * 256 + bs[3]
  {
    if |bs| >= 2 { ValueOfTwo(bs[..2]); }
    if |bs| >= 4 {
      var q := bs[..4];
      assert q[..3][..2] == q[..2] && q[..3][2] == q[2] && q[..2] == bs[..2];
      ValueOfTwo(q[..2]);
      assert Value(q[..3]) == 256 * Value(q[..2]) + q[2];
      assert Value(q) == 256 * Value(q[..3]) + q[3];
    }
  }

  lemma ValueOfTwo(bs: seq<Byte>)
    requires |bs| == 2
    ensures Value(bs) == (bs[0] as int) * 256 + bs[1]
  {
    assert bs[..1][..0] == [] && Value(bs[..1]) == bs[0];
  }

  lemma ReadPackedU16(n: nat, rest: seq<Byte>)
    requires n < U16
    ensures ReadU16(PackU16(n) + rest) == n
  {
    Widths();
    ValueOfPacked(n, 2);
    assert (PackU16(n) + rest)[..2] == PackU16(n);
  }

  lemma ReadPackedU32(n: nat, rest: seq<Byte>)
    requires n < U32
    ensures ReadU32(PackU32(n) + rest) == n
  {
    Widths();
    ValueOfPacked(n, 4);
    assert (PackU32(n) + rest)[..4] == PackU32(n);
  }
}
