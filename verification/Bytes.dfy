/** Bytes and the fixed-width little-endian integers that the on-disk structures are made of. */
module Bytes {

  type byte = x: int | 0 <= x < 256

  /** A string of bytes. */
  type Text = seq<byte>

  const TWO_32: int := 0x1_0000_0000

  const TWO_64: int := 0x1_0000_0000_0000_0000

  datatype Option<+T> = None | Some(value: T)

  /** The value of a 32-bit unsigned expression: arithmetic wraps modulo 2^32. */
  function U32(x: int): nat {
    x % TWO_32
  }

  function Pow256(n: nat): nat {
    if n == 0 then 1 else 256 * Pow256(n - 1)
  }

  function ToBytes(v: nat, n: nat): (s: seq<byte>)
    ensures |s| == n
  {
    if n == 0 then [] else [v % 256] + ToBytes(v / 256, n - 1)
  }

  function FromBytes(s: seq<byte>): nat {
    if s == [] then 0 else s[0] + 256 * FromBytes(s[1..])
  }

  lemma {:induction false} LittleEndianRoundTrip(v: nat, n: nat)
    requires v < Pow256(n)
    ensures FromBytes(ToBytes(v, n)) == v
  {
    if n != 0 {
      LittleEndianRoundTrip(v / 256, n - 1);
      assert ToBytes(v, n)[1..] == ToBytes(v / 256, n - 1);
    }
  }

  /** Little-endian bytes are decided by the number they stand for. */
  lemma {:induction false} FromBytesExactly(s: seq<byte>, v: nat)
    requires v < Pow256(|s|)
    ensures FromBytes(s) == v <==> s == ToBytes(v, |s|)
  {
    if s != [] {
      FromBytesExactly(s[1..], v / 256);
      assert s == [s[0]] + s[1..];
    }
  }

  /** Four bytes, the least significant first. */
  lemma FourBytes(a: byte, b: byte, c: byte, d: byte)
    ensures ToBytes(a + 0x100 * b + 0x1_0000 * c + 0x100_0000 * d, 4) == [a, b, c, d]
  {
    var v := a + 0x100 * b + 0x1_0000 * c + 0x100_0000 * d;
    assert v % 256 == a && v / 256 == b + 0x100 * c + 0x1_0000 * d;
    assert v / 256 / 256 == c + 0x100 * d && v / 256 / 256 / 256 == d;
    assert ToBytes(d, 1) == [d];
    assert ToBytes(c + 0x100 * d, 2) == [c, d];
    assert ToBytes(b + 0x100 * c + 0x1_0000 * d, 3) == [b, c, d];
  }

  lemma Pow256Values()
    ensures Pow256(4) == TWO_32
    ensures Pow256(8) == TWO_64
  {
    assert Pow256(2) == 0x1_0000;
    assert Pow256(4) == TWO_32;
    assert Pow256(6) == 0x1_0000_0000_0000;
  }
}
