/** Bytes and the big-endian encoding used on the wire and in kernel structures. */
module Octets {
  type Byte = b: int | 0 <= b < 256

  function Min(a: int, b: int): (m: int)
    ensures m <= a && m <= b && (m == a || m == b)
  {
    if a <= b then a else b
  }

  /** 256 to the power `n`. */
  function Pow256(n: nat): (p: nat)
    ensures p > 0
  {
    if n == 0 then 1 else 256 * Pow256(n - 1)
  }

  /** The `width` low-order bytes of `v`, most significant first. */
  function ToBigEndian(v: nat, width: nat): (s: seq<Byte>)
    ensures |s| == width
  {
    if width == 0 then [] else ToBigEndian(v / 256, width - 1) + [v % 256]
  }

  function FromBigEndian(s: seq<Byte>): (v: nat)
  {
    if s == [] then 0 else 256 * FromBigEndian(s[..|s| - 1]) + s[|s| - 1]
  }

  /** Encoding then decoding gives the value back exactly when it fits in `width` bytes. */
  lemma {:induction false} BigEndianRoundTrip(v: nat, width: nat)
    ensures FromBigEndian(ToBigEndian(v, width)) == v <==> v < Pow256(width)
  {
    if width > 0 {
      BigEndianRoundTrip(v / 256, width - 1);
      var s := ToBigEndian(v, width);
      assert s[..width - 1] == ToBigEndian(v / 256, width - 1);
      assert v == 256 * (v / 256) + v % 256;
    }
  }
}
