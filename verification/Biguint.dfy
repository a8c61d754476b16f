/**
  `_bytes_to_biguint`: the loop `out = out << 8 | ch` over whatever Python can iterate over,
  on integers of any size and sign.
 */
module Biguint {
  import opened Prelude
  import opened BigEndian
  import opened Values

  // ---------- The or of two integers ----------

  /** The `i`-th bit in two's complement. */
  predicate Bit(a: int, i: nat)
    decreases i
  {
    if i == 0 then a % 2 == 1 else Bit(a / 2, i - 1)
  }

  function Size(a: int): nat {
    if a < 0 then 0 - a else a
  }

  /** `a | b` on Python integers. */
  function BitOr(a: int, b: int): int
    decreases Size(a) + Size(b)
  {
    if a == 0 then b
    else if b == 0 then a
    else if a == -1 || b == -1 then -1
    else 2 * BitOr(a / 2, b / 2) + if a % 2 == 1 || b % 2 == 1 then 1 else 0
  }

  lemma {:induction false} BitsOf(i: nat)
    ensures !Bit(0, i) && Bit(-1, i)
  {
    if i > 0 {
      BitsOf(i - 1);
    }
  }

  /** Bit by bit, it is the or of the bits. */
  lemma {:induction false} OrIsBitwise(a: int, b: int, i: nat)
    ensures Bit(BitOr(a, b), i) <==> Bit(a, i) || Bit(b, i)
    decreases i
  {
    BitsOf(i);
    if a != 0 && b != 0 && a != -1 && b != -1 && i > 0 {
      OrIsBitwise(a / 2, b / 2, i - 1);
    }
  }

  /** The or of a multiple of 2^k and a number below it is their sum. */
  lemma {:induction false} OrLow(a: int, b: nat, k: nat)
    requires b < TwoTo(k)
    ensures BitOr(a * TwoTo(k), b) == a * TwoTo(k) + b
    decreases k
  {
    if k > 0 && b != 0 {
      var p := TwoTo(k - 1);
      assert a * TwoTo(k) == 2 * (a * p);
      OrLow(a, b / 2, k - 1);
    }
  }

  /** Two numbers in [-2^k, 2^k) have their or there as well. */
  lemma {:induction false} OrBound(a: int, b: int, k: nat)
    requires 0 - TwoTo(k) <= a < TwoTo(k) && 0 - TwoTo(k) <= b < TwoTo(k)
    ensures 0 - TwoTo(k) <= BitOr(a, b) < TwoTo(k)
    decreases k
  {
    if k > 0 && a != 0 && b != 0 && a != -1 && b != -1 {
      OrBound(a / 2, b / 2, k - 1);
    }
  }

  /** One step of the loop, for an octet. */
  lemma OrByte(a: int, b: byte)
    ensures BitOr(a * 256, b) == a * 256 + b
  {
    TwoTo256(1);
    assert Pow256(1) == 256 * Pow256(0);
    OrLow(a, b, 8);
  }

  // ---------- The loop ----------

  /** What `for ch in v` runs over, or None where `v` is not iterable. */
  function Elements(v: Value): Option<seq<Value>> {
    match v
    case Bytes(data) => Some(Octets(data))
    case Text(data) => Some(if data == [] then [] else [v])  // the first character is no number
    case List(items, _) => Some(items)
    case Dict(entries) => Some(Keys(entries))
    case _ => None
  }

  function Octets(data: seq<byte>): (vs: seq<Value>)
    ensures |vs| == |data| && forall i :: 0 <= i < |data| ==> vs[i] == Int(data[i])
  {
    seq(|data|, i requires 0 <= i < |data| => Int(data[i]))
  }

  function Keys(es: seq<Entry>): (vs: seq<Value>)
    ensures |vs| == |es| && forall i :: 0 <= i < |es| ==> vs[i] == es[i].key
  {
    seq(|es|, i requires 0 <= i < |es| => es[i].key)
  }

  /** What `|` takes on its right: `True` counts as 1. */
  function NumberOf(v: Value): Option<int> {
    match v case Int(n) => Some(n) case Bool(b) => Some(if b then 1 else 0) case _ => None
  }

  function FoldedAll(vs: seq<Value>): Option<int> {
    if vs == [] then Some(0)
    else Step(FoldedAll(vs[..|vs| - 1]), vs[|vs| - 1])
  }

  function Step(out: Option<int>, ch: Value): Option<int> {
    var n := NumberOf(ch);
    if out.Some? && n.Some? then Some(BitOr(out.value * 256, n.value)) else None
  }

  function Folded(v: Value): Option<int> {
    var vs := Elements(v);
    if vs.None? then None else FoldedAll(vs.value)
  }

  lemma {:induction false} FoldedOctets(data: seq<byte>)
    ensures FoldedAll(Octets(data)) == Some(FromBE(data))
  {
    if data != [] {
      var init, last := data[..|data| - 1], data[|data| - 1];
      FoldedOctets(init);
      assert Octets(data)[..|data| - 1] == Octets(init);
      OrByte(FromBE(init), last);
    }
  }

  /** Over a byte string the loop computes its big-endian value. */
  lemma FoldedBytes(data: seq<byte>)
    ensures Folded(Bytes(data)) == Some(FromBE(data))
  {
    FoldedOctets(data);
  }

  lemma {:induction false} FoldedSpoilt(vs: seq<Value>, k: nat)
    requires k <= |vs| && FoldedAll(vs[..k]).None?
    ensures FoldedAll(vs).None?
    decreases |vs|
  {
    if k < |vs| {
      assert vs[..|vs| - 1][..k] == vs[..k];
      FoldedSpoilt(vs[..|vs| - 1], k);
    } else {
      assert vs[..k] == vs;
    }
  }

  // ---------- How large it can get ----------

  predicate Within(n: int, k: nat) {
    0 - Pow256(k) <= n < Pow256(k)
  }

  lemma {:induction false} PowGrows(a: nat, b: nat)
    requires a <= b
    ensures Pow256(a) <= Pow256(b)
  {
    if a < b {
      PowGrows(a, b - 1);
    }
  }

  lemma WithinMore(n: int, a: nat, b: nat)
    requires Within(n, a) && a <= b
    ensures Within(n, b)
  {
    PowGrows(a, b);
  }

  lemma StepWithin(out: int, n: int, k: nat)
    requires Within(out, k) && Within(n, k + 1)
    ensures Within(BitOr(out * 256, n), k + 1)
  {
    TwoTo256(k + 1);
    OrBound(out * 256, n, 8 * (k + 1));
  }

  /** Every element adds one byte to what the largest of them takes. */
  lemma {:induction false} FoldedWithin(vs: seq<Value>, m: nat)
    requires FoldedAll(vs).Some? && m > 0
    requires forall i :: 0 <= i < |vs| && vs[i].Int? ==> Within(vs[i].n, m)
    ensures Within(FoldedAll(vs).value, m + |vs|)
  {
    if vs == [] {
      PowGrows(0, m);
    } else {
      var init, last := vs[..|vs| - 1], vs[|vs| - 1];
      FoldedWithin(init, m);
      var n := NumberOf(last).value;
      PowGrows(1, m);
      assert Pow256(1) == 256 * Pow256(0);
      WithinMore(n, m, m + |vs|);
      StepWithin(FoldedAll(init).value, n, m + |init|);
    }
  }
}
