/** Bytes: integers in host order and on the wire. */
module Bytes {
  import opened Machine

  /** Little-endian value: what a host load of a packed field yields. */
  function LittleEndian(b: seq<u8>): nat {
    if b == [] then 0 else b[0] + 0x100 * LittleEndian(b[1..])
  }

  /** Big-endian value: what the bytes on the wire mean. */
  function BigEndian(b: seq<u8>): nat {
    if b == [] then 0 else BigEndian(b[..|b| - 1]) * 0x100 + b[|b| - 1]
  }

  /** The `n` bytes of `v` in host order. */
  function HostBytes(v: nat, n: nat): (b: seq<u8>)
    ensures |b| == n
  {
    if n == 0 then [] else [v % 0x100] + HostBytes(v / 0x100, n - 1)
  }

  /** The `n` bytes of `v` on the wire. */
  function WireBytes(v: nat, n: nat): (b: seq<u8>)
    ensures |b| == n
  {
    if n == 0 then [] else WireBytes(v / 0x100, n - 1) + [v % 0x100]
  }

  /** `be16`, `be32`, `be64`: reverses the `n` bytes of a host value. */
  function ByteSwap(v: nat, n: nat): nat {
    BigEndian(HostBytes(v, n))
  }

  function Pow256(n: nat): nat {
    if n == 0 then 1 else 0x100 * Pow256(n - 1)
  }

  lemma {:induction false} HostBytesInverse(b: seq<u8>)
    ensures HostBytes(LittleEndian(b), |b|) == b
  {
    if b != [] {
      HostBytesInverse(b[1..]);
      assert LittleEndian(b) % 0x100 == b[0] && LittleEndian(b) / 0x100 == LittleEndian(b[1..]);
    }
  }

  /** Swapping a host load gives the big-endian value of the bytes loaded. */
  lemma SwapOfLoad(b: seq<u8>)
    ensures ByteSwap(LittleEndian(b), |b|) == BigEndian(b)
  {
    HostBytesInverse(b);
  }

  lemma {:induction false} BigEndianInverse(v: nat, n: nat)
    requires v < Pow256(n)
    ensures BigEndian(WireBytes(v, n)) == v
  {
    if n > 0 {
      BigEndianInverse(v / 0x100, n - 1);
      assert WireBytes(v, n)[..n - 1] == WireBytes(v / 0x100, n - 1);
    }
  }

  lemma {:induction false} PowMono(i: nat, j: nat)
    requires i <= j
    ensures 1 <= Pow256(i) <= Pow256(j)
  {
    if j > 0 {
      if i < j { PowMono(i, j - 1); } else { PowMono(i - 1, j - 1); }
    }
  }

  lemma Pow5()
    ensures Pow256(1) == 0x100 && Pow256(2) == 0x1_0000 && Pow256(4) == TWO_32
    ensures Pow256(5) == 0x100_0000_0000 && Pow256(6) == 0x1_0000_0000_0000 && Pow256(8) == TWO_64
  {
    assert Pow256(3) == 0x100_0000;
    assert Pow256(4) == TWO_32;
    assert Pow256(6) == 0x1_0000_0000_0000;
    assert Pow256(7) == 0x100_0000_0000_0000;
  }

  lemma {:induction false} BigEndianBound(b: seq<u8>)
    ensures BigEndian(b) < Pow256(|b|)
  {
    if b != [] {
      BigEndianBound(b[..|b| - 1]);
    }
  }

  /** The first byte is the most significant one. */
  lemma {:induction false} BigEndianPlaces(b: seq<u8>)
    requires b != []
    ensures BigEndian(b) == b[0] * Pow256(|b| - 1) + BigEndian(b[1..])
  {
    var n := |b| - 1;
    if n > 0 {
      BigEndianPlaces(b[..n]);
      assert b[..n][1..] == b[1..][..n - 1];
      ScaleByte(b[0], Pow256(n - 1));
    } else {
      assert b[..0] == [] && b[1..] == [];
    }
  }

  lemma ScaleByte(x: u8, p: nat)
    ensures x * p * 0x100 == x * (0x100 * p)
  {
  }

  lemma {:induction false} WireBytesInverse(b: seq<u8>)
    ensures WireBytes(BigEndian(b), |b|) == b
  {
    if b != [] {
      WireBytesInverse(b[..|b| - 1]);
    }
  }

  lemma Regroup<T>(a: seq<T>, b: seq<T>, c: seq<T>)
    ensures (a + b) + c == a + (b + c)
  {
  }
}
