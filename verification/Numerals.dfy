/** Numbers as bytes, the lowest byte first. */
module Numerals {

  const UINT64_SIZE: nat := 8

  ghost function Pow256(n: nat): nat {
    if n == 0 then 1 else 256 * Pow256(n - 1)
  }

  function ByteOf(n: nat): (b: bv8)
    requires n < 256
    ensures b as int == n
  {
    if n == 0 then 0
    else
      var half := ByteOf(n / 2);
      Doubled(half);
      if n % 2 == 0 then half << 1 else (half << 1) | 1
  }

  lemma Doubled(b: bv8)
    requires b as int < 128
    ensures (b << 1) as int == 2 * (b as int)
    ensures ((b << 1) | 1) as int == 2 * (b as int) + 1
  {
    assert b < 128;
  }

  /** The n lowest bytes of a number, the lowest first. */
  function LittleEndian(value: nat, n: nat): seq<bv8> {
    if n == 0 then [] else [ByteOf(value % 256)] + LittleEndian(value / 256, n - 1)
  }

  function FromLittleEndian(bytes: seq<bv8>): nat {
    if bytes == [] then 0 else bytes[0] as nat + 256 * FromLittleEndian(bytes[1..])
  }

  lemma {:induction false} LittleEndianRoundTrip(value: nat, n: nat)
    requires value < Pow256(n)
    ensures |LittleEndian(value, n)| == n
    ensures FromLittleEndian(LittleEndian(value, n)) == value
  {
    if n != 0 {
      LittleEndianRoundTrip(value / 256, n - 1);
      assert LittleEndian(value, n)[1..] == LittleEndian(value / 256, n - 1);
    }
  }

  lemma Uint64RoundTrip(value: nat)
    requires value < 0x1_0000_0000_0000_0000
    ensures |LittleEndian(value, UINT64_SIZE)| == UINT64_SIZE
    ensures FromLittleEndian(LittleEndian(value, UINT64_SIZE)) == value
  {
    assert Pow256(4) == 0x1_0000_0000;
    assert Pow256(8) == 0x1_0000_0000_0000_0000;
    LittleEndianRoundTrip(value, UINT64_SIZE);
  }
}
