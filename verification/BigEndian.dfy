/**
  Big-endian unsigned numbers: the payloads of heads and of bignums
  (sections 2.1 and 2.4.2 of RFC 7049).
 */
module BigEndian {
  import opened Prelude

  function Pow256(k: nat): (p: nat)
    ensures p >= 1
  {
    if k == 0 then 1 else 256 * Pow256(k - 1)
  }

  /** Reads a big-endian number: `out = out << 8 | b`, byte after byte. */
  function FromBE(s: seq<byte>): nat {
    if s == [] then 0 else FromBE(s[..|s| - 1]) * 256 + s[|s| - 1]
  }

  /** The low `k` bytes of `n`, most significant first, zero-padded. */
  function ToBE(n: nat, k: nat): (s: seq<byte>)
    ensures |s| == k
  {
    if k == 0 then [] else ToBE(n / 256, k - 1) + [n % 256]
  }

  /** The bytes of `n` without padding, cut off after the `k` lowest ones. */
  function LowBytes(n: nat, k: nat): (s: seq<byte>)
    ensures |s| <= k
  {
    if n == 0 || k == 0 then [] else LowBytes(n / 256, k - 1) + [n % 256]
  }

  /** The bytes of `n` without padding. */
  function MinBE(n: nat): seq<byte> {
    if n == 0 then [] else MinBE(n / 256) + [n % 256]
  }

  lemma FromBESnoc(s: seq<byte>, b: byte)
    ensures FromBE(s + [b]) == FromBE(s) * 256 + b
  {
    assert (s + [b])[..|s|] == s;
  }

  /** One octet of a big-endian number at a time, from the front. */
  lemma {:induction false} FromBECons(b: byte, s: seq<byte>)
    ensures FromBE([b] + s) == b * Pow256(|s|) + FromBE(s)
  {
    if s == [] {
      assert [b] + s == [] + [b];
      FromBESnoc([], b);
    } else {
      var init, last := s[..|s| - 1], s[|s| - 1];
      assert [b] + s == ([b] + init) + [last];
      FromBESnoc([b] + init, last);
      FromBECons(b, init);
    }
  }

  lemma {:induction false} FromBEBound(s: seq<byte>)
    ensures FromBE(s) < Pow256(|s|)
  {
    if s != [] {
      FromBEBound(s[..|s| - 1]);
    }
  }

  /** Fixed-width payloads lose nothing when the number fits. */
  lemma {:induction false} ToBEInverse(n: nat, k: nat)
    requires n < Pow256(k)
    ensures FromBE(ToBE(n, k)) == n
  {
    if k > 0 {
      ToBEInverse(n / 256, k - 1);
      FromBESnoc(ToBE(n / 256, k - 1), n % 256);
    }
  }

  lemma OneByte(n: nat)
    requires n <= 0xFF
    ensures ToBE(n, 1) == [n]
  {
    assert ToBE(n / 256, 0) == [];
  }

  lemma TwoBytes(n: nat)
    requires n <= 0xFFFF
    ensures ToBE(n, 2) == [n / 256, n % 256]
  {
    OneByte(n / 256);
  }

  lemma {:induction false} FromBEInverse(s: seq<byte>)
    ensures ToBE(FromBE(s), |s|) == s
  {
    if s != [] {
      FromBEInverse(s[..|s| - 1]);
      assert s == s[..|s| - 1] + [s[|s| - 1]];
    }
  }

  lemma ModStep(n: nat, p: nat)
    requires p >= 1
    ensures (n / 256) % p * 256 + n % 256 == n % (256 * p)
  {
    var q, r := n / 256, n % 256;
    var t, u := q / p, q % p;
    assert n == 256 * (p * t + u) + r;
    assert n == (256 * p) * t + (256 * u + r);
    assert 0 <= 256 * u + r < 256 * p;
    DivModUnique(n, 256 * p, t, 256 * u + r);
  }

  lemma DivModUnique(n: nat, d: nat, q: nat, r: nat)
    requires d >= 1 && n == d * q + r && r < d
    ensures n % d == r && n / d == q
  {
    var q', r' := n / d, n % d;
    assert d * q + r == d * q' + r';
    if q < q' {
      MulGap(d, q, q');
    } else if q' < q {
      MulGap(d, q', q);
    }
  }

  lemma {:induction false} MulGap(d: nat, a: nat, b: nat)
    requires a < b
    ensures d * a + d <= d * b
  {
    assert d * b == d * (b - 1) + d;
    if a < b - 1 {
      MulGap(d, a, b - 1);
    }
  }

  /** Cutting after `k` bytes keeps exactly the number modulo 256^k. */
  lemma {:induction false} LowBytesValue(n: nat, k: nat)
    ensures FromBE(LowBytes(n, k)) == n % Pow256(k)
  {
    if n == 0 || k == 0 {
    } else {
      LowBytesValue(n / 256, k - 1);
      FromBESnoc(LowBytes(n / 256, k - 1), n % 256);
      ModStep(n, Pow256(k - 1));
    }
  }

  lemma {:induction false} LowBytesAll(n: nat, k: nat)
    requires n < Pow256(k)
    ensures LowBytes(n, k) == MinBE(n)
  {
    if n != 0 && k != 0 {
      LowBytesAll(n / 256, k - 1);
    }
  }

  /** Unpadded bytes: they fold back to the number, and no leading byte is zero. */
  lemma {:induction false} MinBEInverse(n: nat)
    ensures FromBE(MinBE(n)) == n
    ensures MinBE(n) != [] ==> MinBE(n)[0] != 0
    ensures n != 0 ==> MinBE(n) != []
  {
    if n != 0 {
      MinBEInverse(n / 256);
      FromBESnoc(MinBE(n / 256), n % 256);
    }
  }

  /** A number takes at most `k` unpadded bytes exactly when it is below 256^k. */
  lemma {:induction false} MinBELength(n: nat, k: nat)
    ensures |MinBE(n)| <= k <==> n < Pow256(k)
  {
    if n != 0 && k != 0 {
      MinBELength(n / 256, k - 1);
    }
  }

  /** The unpadded form is the only one without a leading zero byte. */
  lemma {:induction false} MinBEUnique(s: seq<byte>)
    requires s != [] ==> s[0] != 0
    ensures MinBE(FromBE(s)) == s
  {
    if s != [] {
      var init, last := s[..|s| - 1], s[|s| - 1];
      MinBEUnique(init);
      assert s == init + [last];
      assert init != [] ==> init[0] == s[0];
      assert FromBE(s) / 256 == FromBE(init) && FromBE(s) % 256 == last;
    }
  }

  lemma Powers()
    ensures Pow256(1) == 0x100
    ensures Pow256(2) == 0x1_0000
    ensures Pow256(4) == 0x1_0000_0000
    ensures Pow256(8) == 0x1_0000_0000_0000_0000
    ensures Pow256(23) == 0x100_0000_0000_0000 * 0x1_0000_0000_0000_0000 * 0x1_0000_0000_0000_0000
  {
    assert Pow256(1) == 256 * Pow256(0);
    assert Pow256(2) == 256 * Pow256(1);
    assert Pow256(4) == 0x1_0000 * Pow256(2) by { assert Pow256(3) == 256 * Pow256(2); }
    PowSplit(4, 4);
    PowSplit(8, 8);
    assert Pow256(7) == 0x1_00_00_00 * Pow256(4) by {
      assert Pow256(5) == 256 * Pow256(4); assert Pow256(6) == 256 * Pow256(5);
    }
    PowSplit(7, 16);
  }

  lemma {:induction false} PowSplit(a: nat, b: nat)
    ensures Pow256(a + b) == Pow256(a) * Pow256(b)
  {
    if a > 0 {
      PowSplit(a - 1, b);
      assert Pow256(a + b) == 256 * Pow256(a - 1 + b);
    }
  }

  // ---------- Powers of two ----------

  function TwoTo(k: nat): (p: nat)
    ensures p >= 1
  {
    if k == 0 then 1 else 2 * TwoTo(k - 1)
  }

  lemma {:induction false} TwoTo256(k: nat)
    ensures TwoTo(8 * k) == Pow256(k)
  {
    if k > 0 {
      TwoTo256(k - 1);
      var n := 8 * (k - 1);
      assert TwoTo(n + 8) == 2 * TwoTo(n + 7) && TwoTo(n + 7) == 2 * TwoTo(n + 6) && TwoTo(n + 6) == 2 * TwoTo(n + 5);
      assert TwoTo(n + 5) == 2 * TwoTo(n + 4) && TwoTo(n + 4) == 2 * TwoTo(n + 3) && TwoTo(n + 3) == 2 * TwoTo(n + 2);
      assert TwoTo(n + 2) == 2 * TwoTo(n + 1) && TwoTo(n + 1) == 2 * TwoTo(n);
    }
  }
}
