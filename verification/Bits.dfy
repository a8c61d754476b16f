/**
  The bit operations of the C code, on machine words, with their arithmetic meaning
  over the non-negative integers.
 */
module Bits {
  import opened Prelude
  import opened Wire

  /** The machine word that stands for the number. */
  function Octet(b: int): (v: bv8)
    requires 0 <= b < 256
    ensures v as int == b
  {
    if b == 0 then 0 else Octet(b - 1) + 1
  }

  function OrBits(t: bv8, info: bv8): (c: byte)
    requires t as int % 32 == 0 && info as int < 32
    ensures c == t as int + info as int
  {
    (t | info) as int
  }

  function MaskType(c: bv8): (t: byte)
    ensures t == c as int / 32 * 32
  {
    (c & 0xE0) as int
  }

  function MaskInfo(c: bv8): (i: byte)
    ensures i == c as int % 32
  {
    (c & 0x1F) as int
  }

  /** `c & CBOR_TYPE_MASK` and `c & CBOR_INFO_BITS` */
  method SplitHead(c: byte) returns (t: byte, info: byte)
    ensures t == TypeBits(c) && info == InfoBits(c) && IsMajor(t)
  {
    t, info := MaskType(Octet(c)), MaskInfo(Octet(c));
  }

  /** `cbor_type | info` */
  method JoinHead(t: byte, info: byte) returns (c: byte)
    requires IsMajor(t) && info < 32
    ensures c == TypeOr(t, info)
  {
    c := OrBits(Octet(t), Octet(info));
  }
}
