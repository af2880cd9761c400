/**
 * Bytes and network byte order.
 *
 * Stands in for the `hton` / `ntoh` conversions of the codec: a fixed-width
 * integer is stored most significant byte first. Signed integer types are
 * converted to their two's complement bit pattern before the byte order is
 * applied, which is what a byte swap of the in-memory value amounts to.
 */
module Wire {

  newtype byte = x: int | 0 <= x < 256

  /** 256 to the power n: the number of distinct values of n bytes. */
  function Pow256(n: nat): (r: nat)
    ensures r >= 1
    ensures n >= 1 ==> r >= 256
  {
    if n == 0 then 1 else 256 * Pow256(n - 1)
  }

  lemma DivModByte(v: nat, p: nat)
    requires v < 256 * p
    ensures v / 256 < p
    ensures v == 256 * (v / 256) + v % 256
  {
  }

  lemma ShiftInByte(x: nat, b: nat, p: nat)
    requires x < p && b < 256
    ensures 256 * x + b < 256 * p
    ensures (256 * x + b) / 256 == x && (256 * x + b) % 256 == b
  {
  }

  /** The `width` bytes of `v`, most significant first. */
  function ToBigEndian(v: nat, width: nat): (r: seq<byte>)
    requires v < Pow256(width)
    ensures |r| == width
  {
    if width == 0 then []
    else
      DivModByte(v, Pow256(width - 1));
      ToBigEndian(v / 256, width - 1) + [(v % 256) as byte]
  }

  /** The number whose bytes, most significant first, are `bs`. */
  function FromBigEndian(bs: seq<byte>): (v: nat)
    ensures v < Pow256(|bs|)
  {
    if bs == [] then 0
    else
      var high := FromBigEndian(bs[..|bs| - 1]);
      ShiftInByte(high, bs[|bs| - 1] as nat, Pow256(|bs| - 1));
      256 * high + bs[|bs| - 1] as nat
  }

  /** Reading back what was written gives the value again. */
  lemma {:induction false} FromToBigEndian(v: nat, width: nat)
    requires v < Pow256(width)
    ensures FromBigEndian(ToBigEndian(v, width)) == v
  {
    if width > 0 {
      DivModByte(v, Pow256(width - 1));
      var high := ToBigEndian(v / 256, width - 1);
      var bs := high + [(v % 256) as byte];
      assert bs[..|bs| - 1] == high;
      FromToBigEndian(v / 256, width - 1);
    }
  }

  /** Writing what was read gives the bytes again: the encoding is a bijection. */
  lemma {:induction false} ToFromBigEndian(bs: seq<byte>)
    ensures ToBigEndian(FromBigEndian(bs), |bs|) == bs
  {
    if bs != [] {
      var init := bs[..|bs| - 1];
      var high := FromBigEndian(init);
      ShiftInByte(high, bs[|bs| - 1] as nat, Pow256(|bs| - 1));
      ToFromBigEndian(init);
      assert init + [bs[|bs| - 1]] == bs;
    }
  }

  /** The arithmetic types the codec handles (floating point is not modelled). */
  datatype IntType = UInt8 | UInt16 | UInt32 | UInt64 | Int8 | Int16 | Int32 | Int64

  /** `sizeof(T)` */
  function SizeOf(t: IntType): (n: nat)
    ensures n == 1 || n == 2 || n == 4 || n == 8
  {
    match t
    case UInt8 => 1
    case Int8 => 1
    case UInt16 => 2
    case Int16 => 2
    case UInt32 => 4
    case Int32 => 4
    case UInt64 => 8
    case Int64 => 8
  }

  predicate IsSigned(t: IntType) {
    t.Int8? || t.Int16? || t.Int32? || t.Int64?
  }

  /** The values a variable of type `t` can hold. */
  predicate InRange(t: IntType, v: int) {
    var m := Pow256(SizeOf(t));
    if IsSigned(t) then -(m / 2) <= v < m / 2 else 0 <= v < m
  }

  /** The bit pattern of `v` read as an unsigned number (two's complement). */
  function ToBits(t: IntType, v: int): (u: nat)
    requires InRange(t, v)
    ensures u < Pow256(SizeOf(t))
  {
    if v < 0 then v + Pow256(SizeOf(t)) else v
  }

  /** The value of type `t` whose bit pattern is `u`. */
  function FromBits(t: IntType, u: nat): (v: int)
    requires u < Pow256(SizeOf(t))
    ensures InRange(t, v)
  {
    var m := Pow256(SizeOf(t));
    if IsSigned(t) && u >= m / 2 then u - m else u
  }

  lemma {:induction false} BitsRoundTrip(t: IntType, v: int, u: nat)
    requires InRange(t, v) && u < Pow256(SizeOf(t))
    ensures FromBits(t, ToBits(t, v)) == v
    ensures ToBits(t, FromBits(t, u)) == u
  {
    var m := Pow256(SizeOf(t));
    assert m % 2 == 0 by { assert m == 256 * Pow256(SizeOf(t) - 1); }
  }

  /** `hton(val)`: the bytes of `val` in network order. */
  function Hton(t: IntType, v: int): (bs: seq<byte>)
    requires InRange(t, v)
    ensures |bs| == SizeOf(t)
  {
    ToBigEndian(ToBits(t, v), SizeOf(t))
  }

  /** `ntoh(val)`: the value whose network-order bytes are `bs`. */
  function Ntoh(t: IntType, bs: seq<byte>): (v: int)
    requires |bs| == SizeOf(t)
    ensures InRange(t, v)
  {
    FromBits(t, FromBigEndian(bs))
  }

  /** `ntoh(hton(v)) == v` */
  lemma NtohHton(t: IntType, v: int)
    requires InRange(t, v)
    ensures Ntoh(t, Hton(t, v)) == v
  {
    FromToBigEndian(ToBits(t, v), SizeOf(t));
    BitsRoundTrip(t, v, 0);
  }

  /** `hton(ntoh(bs)) == bs` */
  lemma HtonNtoh(t: IntType, bs: seq<byte>)
    requires |bs| == SizeOf(t)
    ensures Hton(t, Ntoh(t, bs)) == bs
  {
    BitsRoundTrip(t, 0, FromBigEndian(bs));
    ToFromBigEndian(bs);
  }
}
