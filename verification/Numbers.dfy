/**
  Numbers as Python compares them, read off the objects themselves: integers, booleans and
  the fields of doubles, all counted in units of the smallest double.  What `Values` says of
  keys and `Floats` of conversions is measured against it.
 */
module Numbers {
  import opened Prelude
  import opened BigEndian
  import opened Values
  import opened Floats

  // ---------- The fields of a double ----------

  predicate Negative(p: seq<byte>)
    requires |p| == 8
  {
    p[0] >= 0x80
  }

  function Exponent(p: seq<byte>): (e: nat)
    requires |p| == 8
    ensures e <= 0x7FF
  {
    p[0] as int % 0x80 * 16 + p[1] as int / 16
  }

  function Fraction(p: seq<byte>): (f: nat)
    requires |p| == 8
    ensures f < 0x10_0000_0000_0000
  {
    p[1] as int % 16 * 0x1_0000_0000_0000 + p[2] as int * 0x100_0000_0000 + p[3] as int * 0x1_0000_0000
    + p[4] as int * 0x100_0000 + p[5] as int * 0x1_0000 + p[6] as int * 0x100 + p[7] as int
  }

  predicate NotANumber(p: seq<byte>)
    requires |p| == 8
  {
    Exponent(p) == 0x7FF && Fraction(p) != 0
  }

  predicate Unbounded(p: seq<byte>)
    requires |p| == 8
  {
    Exponent(p) == 0x7FF && Fraction(p) == 0
  }

  /** The eight bytes as one number are these fields side by side. */
  lemma FieldsOf(p: seq<byte>)
    requires |p| == 8
    ensures FromBE(p) == ((if Negative(p) then 0x800 else 0) + Exponent(p)) * 0x10_0000_0000_0000 + Fraction(p)
  {
    FirstHalf(p);
    SecondHalf(p);
    Digits(p[0], p[1], p[2], p[3], p[4], p[5], p[6], p[7]);
  }

  lemma FirstHalf(p: seq<byte>)
    requires |p| == 8
    ensures FromBE(p[..4]) == ((p[0] as int * 256 + p[1]) * 256 + p[2]) * 256 + p[3]
  {
    NextByte(p, 0);
    NextByte(p, 1);
    NextByte(p, 2);
    NextByte(p, 3);
    assert p[..0] == [];
  }

  lemma SecondHalf(p: seq<byte>)
    requires |p| == 8
    ensures FromBE(p) == (((FromBE(p[..4]) * 256 + p[4]) * 256 + p[5]) * 256 + p[6]) * 256 + p[7]
  {
    NextByte(p, 4);
    NextByte(p, 5);
    NextByte(p, 6);
    NextByte(p, 7);
    assert p[..8] == p;
  }

  lemma NextByte(p: seq<byte>, k: nat)
    requires k < |p|
    ensures FromBE(p[..k + 1]) == FromBE(p[..k]) * 256 + p[k]
  {
    assert p[..k + 1] == p[..k] + [p[k]];
    FromBESnoc(p[..k], p[k]);
  }

  lemma Digits(a: int, b: int, c: int, d: int, e: int, f: int, g: int, h: int)
    requires 0 <= a < 0x100 && 0 <= b < 0x100
    ensures ((((((a * 256 + b) * 256 + c) * 256 + d) * 256 + e) * 256 + f) * 256 + g) * 256 + h ==
            ((if a >= 0x80 then 0x800 else 0) + (a % 0x80 * 16 + b / 16)) * 0x10_0000_0000_0000
            + (b % 16 * 0x1_0000_0000_0000 + c * 0x100_0000_0000 + d * 0x1_0000_0000
               + e * 0x100_0000 + f * 0x1_0000 + g * 0x100 + h)
  {
  }

  lemma KeyOfFields(p: seq<byte>)
    requires |p| == 8
    ensures FloatKey(p) == Ieee(Negative(p), Exponent(p), Fraction(p), 0x800, 0x10_0000_0000_0000, 1074)
  {
    FieldsOf(p);
    var top := (if Negative(p) then 0x800 else 0) + Exponent(p);
    DivModUnique(FromBE(p), 0x10_0000_0000_0000, top, Fraction(p));
  }

  // ---------- Units ----------

  /** `n * 2^k` */
  function Doubled(n: int, k: nat): int {
    if k == 0 then n else 2 * Doubled(n, k - 1)
  }

  /** How many units of 2^-1074 a double has, without its sign. */
  function Magnitude(p: seq<byte>): int
    requires |p| == 8
  {
    if Exponent(p) == 0 then Fraction(p)
    else Doubled(Fraction(p) + 0x10_0000_0000_0000, Exponent(p) - 1)
  }

  predicate Finite(v: Value) {
    v.Int? || v.Bool? || (v.Float? && |v.payload| == 8 && Exponent(v.payload) < 0x7FF)
  }

  predicate Infinity(v: Value, negative: bool) {
    v.Float? && |v.payload| == 8 && Unbounded(v.payload) && Negative(v.payload) == negative
  }

  /** A number in units of 2^-1074. */
  function Units(v: Value): int
    requires Finite(v)
  {
    match v
    case Int(n) => Doubled(n, 1074)
    case Bool(b) => Doubled(if b then 1 else 0, 1074)
    case Float(p) => if Negative(p) then 0 - Magnitude(p) else Magnitude(p)
  }

  lemma {:induction false} ScaledDoubled(n: int, k: nat, e: int)
    ensures Scaled(Doubled(n, k) as real, e) == Scaled(n as real, e + k)
    decreases k
  {
    if k > 0 {
      ScaledTwice(Doubled(n, k - 1) as real, e);
      ScaledDoubled(n, k - 1, e + 1);
    }
  }

  lemma {:induction false} ScaledNegated(x: real, e: int)
    ensures Scaled(0.0 - x, e) == 0.0 - Scaled(x, e)
    decreases if e < 0 then -e else e
  {
    if e > 0 {
      ScaledNegated(x, e - 1);
    } else if e < 0 {
      ScaledNegated(x, e + 1);
    }
  }

  lemma {:induction false} ScaledOrder(x: real, y: real, e: int)
    ensures x < y <==> Scaled(x, e) < Scaled(y, e)
    ensures x == y <==> Scaled(x, e) == Scaled(y, e)
    decreases if e < 0 then -e else e
  {
    if e > 0 {
      ScaledOrder(x, y, e - 1);
    } else if e < 0 {
      ScaledOrder(x, y, e + 1);
    }
  }

  /** The key of a number is the number. */
  lemma KeyIsUnits(v: Value)
    requires Finite(v)
    ensures KeyOf(v) == Numeric(Scaled(Units(v) as real, 0 - 1074))
  {
    match v
    case Int(n) => ScaledDoubled(n, 1074, 0 - 1074);
    case Bool(b) => ScaledDoubled(if b then 1 else 0, 1074, 0 - 1074);
    case Float(p) => FloatIsUnits(p);
  }

  lemma FloatIsUnits(p: seq<byte>)
    requires |p| == 8 && Exponent(p) < 0x7FF
    ensures FloatKey(p) == Numeric(Scaled(Units(Float(p)) as real, 0 - 1074))
  {
    KeyOfFields(p);
    var m := Magnitude(p) as real;
    if Exponent(p) > 0 {
      ScaledDoubled(Fraction(p) + 0x10_0000_0000_0000, Exponent(p) - 1, 0 - 1074);
    }
    if Negative(p) {
      ScaledNegated(m, 0 - 1074);
    }
  }

  // ---------- Equal keys ----------

  /** A number, text, byte string or None; a float has the eight bytes of a double. */
  predicate KeyLike(v: Value) {
    Scalar(v) && (v.Float? ==> |v.payload| == 8)
  }

  lemma UnitsDecide(a: Value, b: Value)
    requires Finite(a) && Finite(b)
    ensures KeyOf(a) == KeyOf(b) <==> Units(a) == Units(b)
  {
    KeyIsUnits(a);
    KeyIsUnits(b);
    ScaledOrder(Units(a) as real, Units(b) as real, 0 - 1074);
  }

  lemma FloatKinds(v: Value)
    requires v.Float? && |v.payload| == 8
    ensures Finite(v) <==> KeyOf(v).Numeric?
    ensures KeyOf(v).NaN? <==> NotANumber(v.payload)
    ensures forall negative :: Infinity(v, negative) <==> KeyOf(v) == Infinite(negative)
  {
    KeyOfFields(v.payload);
  }

  /**
    Which keys a dict takes for one: None and None, the same text, the same bytes, the same
    number whatever its type, the same infinity.  A NaN is no other key, not even itself.
   */
  lemma KeysEqual(a: Value, b: Value)
    requires KeyLike(a) && KeyLike(b)
    ensures KeyEq(a, b) <==>
            || (a.Null? && b.Null?)
            || (a.Text? && b.Text? && a.data == b.data)
            || (a.Bytes? && b.Bytes? && a.data == b.data)
            || (Finite(a) && Finite(b) && Units(a) == Units(b))
            || (Infinity(a, false) && Infinity(b, false))
            || (Infinity(a, true) && Infinity(b, true))
  {
    if a.Float? {
      FloatKinds(a);
    }
    if b.Float? {
      FloatKinds(b);
    }
    if Finite(a) && Finite(b) {
      UnitsDecide(a, b);
    }
  }

  /** True is 1 and False is 0; integers are equal only to themselves. */
  lemma SmallKeys(b: bool, n: int, k: int)
    ensures KeyEq(Bool(b), Int(n)) <==> n == if b then 1 else 0
    ensures KeyEq(Int(n), Int(k)) <==> n == k
  {
  }

  /** Both zeros are the integer 0, and 1.0 is the integer 1. */
  lemma SmallFloats()
    ensures KeyEq(Int(0), Float([0, 0, 0, 0, 0, 0, 0, 0])) && KeyEq(Int(0), Float([0x80, 0, 0, 0, 0, 0, 0, 0]))
    ensures KeyEq(Int(1), Float([0x3F, 0xF0, 0, 0, 0, 0, 0, 0]))
  {
    ZeroFields([0, 0, 0, 0, 0, 0, 0, 0]);
    ZeroFields([0x80, 0, 0, 0, 0, 0, 0, 0]);
    OneFields([0x3F, 0xF0, 0, 0, 0, 0, 0, 0]);
  }

  lemma ZeroFields(p: seq<byte>)
    requires |p| == 8 && Exponent(p) == 0 && Fraction(p) == 0
    ensures KeyEq(Int(0), Float(p))
  {
    DoubledZero(1074);
    KeysEqual(Int(0), Float(p));
  }

  lemma OneFields(p: seq<byte>)
    requires |p| == 8 && !Negative(p) && Exponent(p) == 1023 && Fraction(p) == 0
    ensures KeyEq(Int(1), Float(p))
  {
    DoubledMore(1, 52, 1022);
    FractionIsPower();
    DoubledIsPower(52);
    KeysEqual(Int(1), Float(p));
  }

  lemma {:induction false} DoubledZero(k: nat)
    ensures Doubled(0, k) == 0
  {
    if k > 0 {
      DoubledZero(k - 1);
    }
  }

  lemma {:induction false} DoubledMore(n: int, j: nat, k: nat)
    ensures Doubled(Doubled(n, j), k) == Doubled(n, j + k)
  {
    if k > 0 {
      DoubledMore(n, j, k - 1);
    }
  }

  lemma {:induction false} DoubledIsPower(k: nat)
    ensures Doubled(1, k) == TwoTo(k)
  {
    if k > 0 {
      DoubledIsPower(k - 1);
    }
  }

  /** The dict keeps the key that came first, in its place, with the value that came last. */
  lemma PutReplaces(es: seq<Entry>, k: Value, v: Value, i: nat)
    requires ScalarKeys(es) && Scalar(k) && i < |es| && KeyEq(es[i].key, k)
    requires forall j :: 0 <= j < i ==> !KeyEq(es[j].key, k)
    ensures Put(es, k, v) == es[..i] + [Entry(es[i].key, v)] + es[i + 1..]
  {
    assert FindKey(es, k) == i;
  }

  // ---------- A payload is its number and its sign ----------

  lemma {:induction false} DoubledGrows(n: int, k: nat)
    requires n >= 0
    ensures Doubled(n, k) >= n
  {
    if k > 0 {
      DoubledGrows(n, k - 1);
    }
  }

  lemma {:induction false} DoubledUnique(m: int, k: nat, n: int, j: nat)
    requires FRACTION <= m < 2 * FRACTION && FRACTION <= n < 2 * FRACTION && Doubled(m, k) == Doubled(n, j)
    ensures m == n && k == j
  {
    if k > 0 && j > 0 {
      DoubledUnique(m, k - 1, n, j - 1);
    } else if k > 0 {
      DoubledGrows(m, k - 1);
    } else if j > 0 {
      DoubledGrows(n, j - 1);
    }
  }

  lemma MagnitudeUnique(p: seq<byte>, q: seq<byte>)
    requires |p| == 8 && |q| == 8 && Magnitude(p) == Magnitude(q)
    ensures Exponent(p) == Exponent(q) && Fraction(p) == Fraction(q)
  {
    var m, n := Fraction(p) + FRACTION, Fraction(q) + FRACTION;
    if Exponent(p) > 0 && Exponent(q) > 0 {
      DoubledUnique(m, Exponent(p) - 1, n, Exponent(q) - 1);
    } else if Exponent(p) > 0 {
      DoubledGrows(m, Exponent(p) - 1);
    } else if Exponent(q) > 0 {
      DoubledGrows(n, Exponent(q) - 1);
    }
  }

  lemma MagnitudePositive(p: seq<byte>)
    requires |p| == 8
    ensures Magnitude(p) >= 0
  {
    if Exponent(p) > 0 {
      DoubledGrows(Fraction(p) + 0x10_0000_0000_0000, Exponent(p) - 1);
    }
  }

  lemma FieldsUnique(p: seq<byte>, q: seq<byte>)
    requires |p| == 8 && |q| == 8
    requires Negative(p) == Negative(q) && Exponent(p) == Exponent(q) && Fraction(p) == Fraction(q)
    ensures p == q
  {
    FieldsOf(p);
    FieldsOf(q);
    FromBEInverse(p);
    FromBEInverse(q);
  }

  /** Doubles that are one key, with one sign, are one double, unless they are NaNs. */
  lemma SamePayload(p: seq<byte>, q: seq<byte>)
    requires |p| == 8 && |q| == 8 && !NotANumber(p) && !NotANumber(q)
    requires FloatKey(p) == FloatKey(q) && Negative(p) == Negative(q)
    ensures p == q
  {
    FloatKinds(Float(p));
    FloatKinds(Float(q));
    if Exponent(p) < 0x7FF {
      UnitsDecide(Float(p), Float(q));
      MagnitudeUnique(p, q);
    }
    FieldsUnique(p, q);
  }

  // ---------- The sign of a float that is read ----------

  lemma BitsFields(negative: bool, exp: nat, fraction: nat)
    requires exp < DOUBLES && fraction < FRACTION
    ensures var p := ToBE(Bits(negative, exp, fraction), 8);
            Negative(p) == negative && Exponent(p) == exp && Fraction(p) == fraction
  {
    var bits := Bits(negative, exp, fraction);
    var p := ToBE(bits, 8);
    Powers();
    ToBEInverse(bits, 8);
    FieldsOf(p);
    var top := (if negative then 0x800 else 0) + exp;
    DivModUnique(bits, FRACTION, top, fraction);
    DivModUnique(bits, FRACTION, (if Negative(p) then 0x800 else 0) + Exponent(p), Fraction(p));
  }

  lemma FromFieldsSign(negative: bool, exp: nat, mant: nat, exponents: nat, mantissas: nat, scale: nat)
    requires Short(exponents, mantissas, scale) && exp < exponents && mant < mantissas
    requires exp < exponents - 1 || mant == 0
    ensures Negative(ToBE(FromFields(negative, exp, mant, exponents, mantissas, scale), 8)) == negative
  {
    if exp == exponents - 1 {
      BitsFields(negative, DOUBLES - 1, 0);
    } else if exp == 0 {
      LdexpSign(negative, mant, 0 - scale);
    } else {
      LdexpSign(negative, mant + mantissas, exp - 1 - scale);
    }
  }

  lemma LdexpSign(negative: bool, m: nat, e: int)
    requires m < 2 * FRACTION && -1022 <= e <= 971
    ensures Negative(ToBE(Ldexp(negative, m, e), 8)) == negative
  {
    if m == 0 {
      BitsFields(negative, 0, 0);
    } else {
      var r := Normal(m, e);
      NormalBound(m, e, 0);
      BitsFields(negative, r.1 + 1075, r.0 - FRACTION);
    }
  }

  lemma TopBit(payload: seq<byte>)
    requires |payload| == 2 || |payload| == 4
    ensures var n := FromBE(payload);
            payload[0] >= 0x80 <==> (if |payload| == 2 then n / 0x400 / 0x20 else n / 0x80_0000 / 0x100) % 2 == 1
  {
    NextByte(payload, 0);
    NextByte(payload, 1);
    assert payload[..0] == [];
    if |payload| == 2 {
      assert payload[..2] == payload;
    } else {
      NextByte(payload, 2);
      NextByte(payload, 3);
      assert payload[..4] == payload;
    }
  }

  /** The sign of a half or single float goes over to its double, that of a zero as well. */
  lemma SignKept(payload: seq<byte>)
    requires IsPayload(payload) && FloatKey(payload) != NaN
    ensures Double(payload)[0] >= 0x80 <==> payload[0] >= 0x80
  {
    var n := FromBE(payload);
    if |payload| == 2 {
      TopBit(payload);
      FromFieldsSign(n / 0x400 / 0x20 % 2 == 1, n / 0x400 % 0x20, n % 0x400, 0x20, 0x400, 24);
    } else if |payload| == 4 {
      TopBit(payload);
      FromFieldsSign(n / 0x80_0000 / 0x100 % 2 == 1, n / 0x80_0000 % 0x100, n % 0x80_0000, 0x100, 0x80_0000, 149);
    }
  }

  /** So that all eight bytes are determined: by the number of the payload and by its sign. */
  lemma DoubleDetermined(payload: seq<byte>, q: seq<byte>)
    requires IsPayload(payload) && FloatKey(payload) != NaN
    requires |q| == 8 && FloatKey(q) == FloatKey(payload) && (q[0] >= 0x80 <==> payload[0] >= 0x80)
    ensures Double(payload) == q
  {
    SignKept(payload);
    DoubleOf(payload);
    FloatKinds(Float(q));
    FloatKinds(Float(Double(payload)));
    SamePayload(Double(payload), q);
  }

  /** For instance: both zeros. */
  lemma HalfZero(hi: byte)
    requires hi == 0x00 || hi == 0x80
    ensures Double([hi, 0x00]) == [hi, 0, 0, 0, 0, 0, 0, 0]
  {
    var q: seq<byte> := [hi, 0, 0, 0, 0, 0, 0, 0];
    HalfFields(hi, 0);
    ScaledZero(0 - 24);
    ScaledZero(0 - 1074);
    KeyOfFields(q);
    assert Exponent(q) == 0 && Fraction(q) == 0;
    DoubleDetermined([hi, 0x00], q);
  }

  /** The infinities. */
  lemma HalfInfinity(hi: byte)
    requires hi == 0x7C || hi == 0xFC
    ensures Double([hi, 0x00]) == [if hi == 0x7C then 0x7F else 0xFF, 0xF0, 0, 0, 0, 0, 0, 0]
  {
    var q: seq<byte> := [if hi == 0x7C then 0x7F else 0xFF, 0xF0, 0, 0, 0, 0, 0, 0];
    HalfFields(hi, 0);
    KeyOfFields(q);
    assert Exponent(q) == 0x7FF && Fraction(q) == 0;
    DoubleDetermined([hi, 0x00], q);
  }

  /** Every NaN that is no double becomes this one. */
  lemma ShortNaN(payload: seq<byte>)
    requires |payload| == 2 || |payload| == 4
    requires FloatKey(payload) == NaN
    ensures Double(payload) == [0x7F, 0xF8, 0, 0, 0, 0, 0, 0]
  {
    var q: seq<byte> := [0x7F, 0xF8, 0, 0, 0, 0, 0, 0];
    assert Exponent(q) == 0x7FF && Fraction(q) == FRACTION / 2 && !Negative(q);
    BitsFields(false, DOUBLES - 1, FRACTION / 2);
    FieldsUnique(Double(payload), q);
  }
}
