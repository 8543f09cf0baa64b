// Bytes, little-endian numbers, and writing a run of bytes at an offset.
module Bytes {

  newtype byte = x: int | 0 <= x < 256

  /** The low n bytes of v, least significant first. */
  function LittleEndian(v: nat, n: nat): (b: seq<byte>)
    ensures |b| == n
  {
    if n == 0 then [] else [(v % 256) as byte] + LittleEndian(v / 256, n - 1)
  }

  function FromLittleEndian(b: seq<byte>): nat {
    if b == [] then 0 else b[0] as nat + 256 * FromLittleEndian(b[1..])
  }

  function Power256(n: nat): nat { if n == 0 then 1 else 256 * Power256(n - 1) }

  lemma {:induction false} LittleEndianRoundTrip(v: nat, n: nat)
    requires v < Power256(n)
    ensures FromLittleEndian(LittleEndian(v, n)) == v
  {
    if n > 0 {
      LittleEndianRoundTrip(v / 256, n - 1);
      assert LittleEndian(v, n)[1..] == LittleEndian(v / 256, n - 1);
    }
  }

  /** The last byte is the most significant one. */
  lemma {:induction false} LastByteIsHighest(b: seq<byte>, x: byte)
    ensures FromLittleEndian(b + [x]) == FromLittleEndian(b) + Power256(|b|) * x as nat
  {
    if b == [] {
      assert [x][1..] == [];
    } else {
      assert (b + [x])[1..] == b[1..] + [x];
      LastByteIsHighest(b[1..], x);
    }
  }

  /** The bytes with `data` written at an offset. */
  function Splice(bytes: seq<byte>, at: nat, data: seq<byte>): (b: seq<byte>)
    requires at + |data| <= |bytes|
    ensures |b| == |bytes| && b[at..at + |data|] == data
    ensures forall k | 0 <= k < |b| && !(at <= k < at + |data|) :: b[k] == bytes[k]
  {
    bytes[..at] + data + bytes[at + |data|..]
  }

  lemma LowByte(x: nat, rest: nat)
    requires x < 256
    ensures (x + 256 * rest) % 256 == x && (x + 256 * rest) / 256 == rest
  {}

  /** Four bytes read as a number and written back are the same four bytes, and so for any count. */
  lemma {:induction false} BytesRoundTrip(b: seq<byte>)
    ensures FromLittleEndian(b) < Power256(|b|) && LittleEndian(FromLittleEndian(b), |b|) == b
  {
    if b != [] {
      BytesRoundTrip(b[1..]);
      LowByte(b[0] as nat, FromLittleEndian(b[1..]));
    }
  }
}
