/** Octets and their big-endian numbers, as encoding/binary reads and writes them. */
module Bytes {

  type byte = b: int | 0 <= b < 256

  function Pow256(k: nat): (r: nat)
    ensures r > 0
  {
    if k == 0 then 1 else 256 * Pow256(k - 1)
  }

  /** The k low octets of n, most significant first. */
  function BigEndian(k: nat, n: nat): (r: seq<byte>)
    ensures |r| == k
  {
    if k == 0 then [] else BigEndian(k - 1, n / 256) + [n % 256]
  }

  function ToNat(bs: seq<byte>): nat {
    if bs == [] then 0 else ToNat(bs[..|bs| - 1]) * 256 + bs[|bs| - 1]
  }

  lemma {:induction false} ToNatOfBigEndian(k: nat, n: nat)
    requires n < Pow256(k)
    ensures ToNat(BigEndian(k, n)) == n
  {
    if k > 0 {
      ToNatOfBigEndian(k - 1, n / 256);
      assert BigEndian(k, n)[..k - 1] == BigEndian(k - 1, n / 256);
    }
  }

  lemma {:induction false} BigEndianOfToNat(bs: seq<byte>)
    ensures ToNat(bs) < Pow256(|bs|) && BigEndian(|bs|, ToNat(bs)) == bs
  {
    if bs != [] {
      BigEndianOfToNat(bs[..|bs| - 1]);
      assert bs == bs[..|bs| - 1] + [bs[|bs| - 1]];
    }
  }

  lemma Pow256Of4()
    ensures Pow256(4) == 0x1_0000_0000
  {
    assert Pow256(1) == 256 && Pow256(2) == 0x1_0000 && Pow256(3) == 0x100_0000;
  }
}
