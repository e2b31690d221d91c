/** Machine words as byte strings, least significant byte first. */
module MachineWords {

  type Byte = b: int | 0 <= b < 256

  /** The little-endian value of some bytes. */
  function LittleEndian(bs: seq<Byte>): nat {
    if bs == [] then 0 else bs[0] + 256 * LittleEndian(bs[1..])
  }

  function Pow256(k: nat): (p: nat)
    ensures p > 0
  {
    if k == 0 then 1 else 256 * Pow256(k - 1)
  }

  /** The `k` bytes of `n`, least significant first. */
  function LittleBytes(n: nat, k: nat): (r: seq<Byte>)
    ensures |r| == k
  {
    if k == 0 then [] else [n % 256] + LittleBytes(n / 256, k - 1)
  }

  lemma {:induction false} ReadLittle(n: nat, k: nat)
    requires n < Pow256(k)
    ensures LittleEndian(LittleBytes(n, k)) == n
  {
    if k > 0 {
      ReadLittle(n / 256, k - 1);
      assert LittleBytes(n, k)[1..] == LittleBytes(n / 256, k - 1);
    }
  }

  lemma {:induction false} Pow256Values()
    ensures Pow256(1) == 0x100 && Pow256(2) == 0x1_0000 && Pow256(4) == 0x1_0000_0000
    ensures Pow256(8) == 0x1_0000_0000_0000_0000
  {
    assert Pow256(4) == 256 * 256 * Pow256(2);
    assert Pow256(6) == 256 * 256 * Pow256(4);
  }

  lemma {:induction false} LittleEndianBound(bs: seq<Byte>)
    ensures LittleEndian(bs) < Pow256(|bs|)
    decreases |bs|
  {
    if bs != [] { LittleEndianBound(bs[1..]); }
  }

  lemma {:induction false} WriteRead(bs: seq<Byte>)
    ensures LittleBytes(LittleEndian(bs), |bs|) == bs
    decreases |bs|
  {
    if bs != [] {
      var n := LittleEndian(bs);
      assert n % 256 == bs[0] && n / 256 == LittleEndian(bs[1..]);
      WriteRead(bs[1..]);
      assert bs == [bs[0]] + bs[1..];
    }
  }

  lemma {:induction false} Scale(x: int, y: int, p: int, n: int)
    ensures x + 256 * (y + p * n) == (x + 256 * y) + (256 * p) * n
  {
    assert (256 * p) * n == 256 * (p * n);
  }

  /** The later bytes are the more significant ones. */
  lemma {:induction false} LittleSplit(a: seq<Byte>, b: seq<Byte>)
    ensures LittleEndian(a + b) == LittleEndian(a) + Pow256(|a|) * LittleEndian(b)
    decreases |a|
  {
    if a == [] {
      assert a + b == b;
    } else {
      assert (a + b)[0] == a[0] && (a + b)[1..] == a[1..] + b;
      LittleSplit(a[1..], b);
      Scale(a[0], LittleEndian(a[1..]), Pow256(|a| - 1), LittleEndian(b));
    }
  }
}
