/**
  The floats that the decoders return: a half or single float becomes the double of the
  same number, computed as `decodeFloat16` and `_loads_tb` compute it.
 */
module Floats {
  import opened Prelude
  import opened BigEndian
  import opened Values

  // ---------- Scaling ----------

  lemma {:induction false} ScaledTwice(x: real, e: int)
    ensures Scaled(2.0 * x, e) == Scaled(x, e + 1)
    decreases if e < 0 then -e else e
  {
    if e > 0 {
      ScaledTwice(x, e - 1);
    } else if e < 0 {
      ScaledTwice(x, e + 1);
    }
  }

  lemma {:induction false} ScaledZero(e: int)
    ensures Scaled(0.0, e) == 0.0
    decreases if e < 0 then -e else e
  {
    if e > 0 {
      ScaledZero(e - 1);
    } else if e < 0 {
      ScaledZero(e + 1);
    }
  }

  lemma {:induction false} TwoToGrows(a: nat, b: nat)
    requires a <= b
    ensures TwoTo(a) <= TwoTo(b)
    decreases b
  {
    if a < b {
      TwoToGrows(a, b - 1);
    }
  }

  // ---------- Doubles ----------

  const FRACTION: nat := 0x10_0000_0000_0000  // 2^52
  const DOUBLES: nat := 0x800                 // exponents of a double

  lemma FractionIsPower()
    ensures FRACTION == TwoTo(52)
  {
    TwoTo256(6);
    assert Pow256(3) == 0x100_0000;
    assert Pow256(6) == 0x1_0000_0000_0000;
    assert TwoTo(52) == 16 * TwoTo(48);
  }

  /** The 64 bits of a double with these fields. */
  function Bits(negative: bool, exp: nat, fraction: nat): (bits: nat)
    requires exp < DOUBLES && fraction < FRACTION
    ensures bits < 0x1_0000_0000_0000_0000
  {
    ((if negative then DOUBLES else 0) + exp) * FRACTION + fraction
  }

  function DoubleKey(bits: nat): Key {
    IeeeKey(bits, DOUBLES, FRACTION, 1074)
  }

  lemma BitsKey(negative: bool, exp: nat, fraction: nat)
    requires exp < DOUBLES && fraction < FRACTION
    ensures DoubleKey(Bits(negative, exp, fraction)) == Ieee(negative, exp, fraction, DOUBLES, FRACTION, 1074)
  {
    var top := (if negative then DOUBLES else 0) + exp;
    DivModUnique(Bits(negative, exp, fraction), FRACTION, top, fraction);
  }

  // ---------- ldexp ----------

  /** `m * 2^e` with the 53 bits that a double has. */
  function Normal(m: nat, e: int): (r: (nat, int))
    requires 0 < m < 2 * FRACTION
    ensures FRACTION <= r.0 < 2 * FRACTION && r.1 <= e
    decreases 2 * FRACTION - m
  {
    if m >= FRACTION then (m, e) else Normal(2 * m, e - 1)
  }

  lemma {:induction false} NormalKeeps(m: nat, e: int)
    requires 0 < m < 2 * FRACTION
    ensures var r := Normal(m, e); Scaled(r.0 as real, r.1) == Scaled(m as real, e)
    decreases 2 * FRACTION - m
  {
    if m < FRACTION {
      ScaledTwice(m as real, e - 1);
      NormalKeeps(2 * m, e - 1);
    }
  }

  /** A number of `i` bits and more takes `52 - i` doublings at most. */
  lemma {:induction false} NormalBound(m: nat, e: int, i: nat)
    requires 0 < m < 2 * FRACTION && TwoTo(i) <= m
    ensures e - Normal(m, e).1 <= 52 - i
    decreases 2 * FRACTION - m
  {
    if m < FRACTION {
      NormalBound(2 * m, e - 1, i + 1);
    } else if i > 52 {
      FractionIsPower();
      TwoToGrows(53, i);
    }
  }

  /** `ldexp(m, e)` or its negation, for exponents that stay clear of subnormal doubles. */
  function Ldexp(negative: bool, m: nat, e: int): (bits: nat)
    requires m < 2 * FRACTION && -1022 <= e <= 971
    ensures bits < 0x1_0000_0000_0000_0000
  {
    if m == 0 then Bits(negative, 0, 0)
    else
      var r := Normal(m, e);
      NormalBound(m, e, 0);
      Bits(negative, r.1 + 1075, r.0 - FRACTION)
  }

  /** The double is the number. */
  lemma LdexpKey(negative: bool, m: nat, e: int)
    requires m < 2 * FRACTION && -1022 <= e <= 971
    ensures DoubleKey(Ldexp(negative, m, e)) == SignedKey(negative, Scaled(m as real, e))
  {
    if m == 0 {
      BitsKey(negative, 0, 0);
      ScaledZero(e);
      ScaledZero(0 - 1074);
    } else {
      var r := Normal(m, e);
      NormalBound(m, e, 0);
      NormalKeeps(m, e);
      BitsKey(negative, r.1 + 1075, r.0 - FRACTION);
    }
  }

  // ---------- Payloads ----------

  /** The sizes of the fields of a half or single float. */
  predicate Short(exponents: nat, mantissas: nat, scale: nat) {
    0 < exponents <= 0x100 && 0 < mantissas <= FRACTION && 0 < scale <= 1022
  }

  /** An infinity or, as its quiet form, a NaN. */
  function Special(negative: bool, mant: nat): (bits: nat)
    ensures bits < 0x1_0000_0000_0000_0000
  {
    if mant == 0 then Bits(negative, DOUBLES - 1, 0) else Bits(false, DOUBLES - 1, FRACTION / 2)
  }

  /** The double for a short float with these fields. */
  function FromFields(negative: bool, exp: nat, mant: nat, exponents: nat, mantissas: nat, scale: nat): (bits: nat)
    requires Short(exponents, mantissas, scale) && exp < exponents && mant < mantissas
    ensures bits < 0x1_0000_0000_0000_0000
  {
    if exp == exponents - 1 then Special(negative, mant)
    else if exp == 0 then Ldexp(negative, mant, 0 - scale)
    else Ldexp(negative, mant + mantissas, exp - 1 - scale)
  }

  lemma FromFieldsKey(negative: bool, exp: nat, mant: nat, exponents: nat, mantissas: nat, scale: nat)
    requires Short(exponents, mantissas, scale) && exp < exponents && mant < mantissas
    ensures DoubleKey(FromFields(negative, exp, mant, exponents, mantissas, scale)) ==
            Ieee(negative, exp, mant, exponents, mantissas, scale)
  {
    if exp == exponents - 1 {
      BitsKey(negative, DOUBLES - 1, 0);
      BitsKey(false, DOUBLES - 1, FRACTION / 2);
    } else if exp == 0 {
      LdexpKey(negative, mant, 0 - scale);
    } else {
      LdexpKey(negative, mant + mantissas, exp - 1 - scale);
    }
  }

  function Widened(bits: nat, exponents: nat, mantissas: nat, scale: nat): (r: nat)
    requires Short(exponents, mantissas, scale)
    ensures r < 0x1_0000_0000_0000_0000
  {
    FromFields(bits / mantissas / exponents % 2 == 1, bits / mantissas % exponents, bits % mantissas,
               exponents, mantissas, scale)
  }

  lemma WidenedKey(bits: nat, exponents: nat, mantissas: nat, scale: nat)
    requires Short(exponents, mantissas, scale)
    ensures DoubleKey(Widened(bits, exponents, mantissas, scale)) == IeeeKey(bits, exponents, mantissas, scale)
  {
    FromFieldsKey(bits / mantissas / exponents % 2 == 1, bits / mantissas % exponents, bits % mantissas,
                  exponents, mantissas, scale);
  }

  predicate IsPayload(payload: seq<byte>) {
    |payload| == 2 || |payload| == 4 || |payload| == 8
  }

  /** The eight bytes of the double that a payload is decoded to. */
  function Double(payload: seq<byte>): (d: seq<byte>)
    ensures IsPayload(payload) ==> |d| == 8
    ensures |payload| == 8 ==> d == payload
  {
    if |payload| == 2 then ToBE(Widened(FromBE(payload), 0x20, 0x400, 24), 8)
    else if |payload| == 4 then ToBE(Widened(FromBE(payload), 0x100, 0x80_0000, 149), 8)
    else payload
  }

  /** It is the number that the payload stands for. */
  lemma DoubleOf(payload: seq<byte>)
    requires IsPayload(payload)
    ensures FloatKey(Double(payload)) == FloatKey(payload)
  {
    var bits := FromBE(payload);
    Powers();
    if |payload| == 2 {
      WidenedKey(bits, 0x20, 0x400, 24);
      ToBEInverse(Widened(bits, 0x20, 0x400, 24), 8);
    } else if |payload| == 4 {
      WidenedKey(bits, 0x100, 0x80_0000, 149);
      ToBEInverse(Widened(bits, 0x100, 0x80_0000, 149), 8);
    }
  }

  /** The arithmetic of `decodeFloat16` on its two bytes. */
  method Half(hi: byte, lo: byte) returns (d: seq<byte>)
    ensures d == Double([hi, lo])
  {
    var exp, mant := hi / 4 % 32, hi % 4 * 256 + lo;
    var negative := hi >= 0x80;
    var bits;
    if exp == 0 {
      bits := Ldexp(negative, mant, -24);
    } else if exp != 31 {
      bits := Ldexp(negative, mant + 1024, exp - 25);
    } else {
      bits := Special(negative, mant);
    }
    HalfFields(hi, lo);
    return ToBE(bits, 8);
  }

  lemma HalfFields(hi: byte, lo: byte)
    ensures var n := FromBE([hi, lo]);
            && n % 0x400 == hi % 4 * 256 + lo && n / 0x400 % 0x20 == hi / 4 % 32
            && (n / 0x400 / 0x20 % 2 == 1 <==> hi >= 0x80)
  {
    FromBESnoc([hi], lo);
    FromBESnoc([], hi);
    assert [] + [hi] == [hi] && [hi] + [lo] == [hi, lo];
    var n := FromBE([hi, lo]);
    DivModUnique(n, 0x400, hi / 4, hi % 4 * 256 + lo);
  }
}
