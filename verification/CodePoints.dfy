/**
  Texts as sequences of code points: the byte strings that `Utf8` lets pass are exactly the
  encodings of them (section 3 of RFC 3629), and they are in the order of the code points.
 */
module CodePoints {
  import opened Prelude
  import opened BigEndian
  import Utf8

  /** A Unicode scalar value: no surrogate. */
  predicate CodePoint(c: int) {
    0 <= c <= 0xD7FF || 0xE000 <= c <= 0x10FFFF
  }

  predicate AllCodePoints(cs: seq<int>) {
    forall i :: 0 <= i < |cs| ==> CodePoint(cs[i])
  }

  function Char(c: int): (s: seq<byte>)
    requires CodePoint(c)
    ensures 1 <= |s| <= 4
  {
    if c <= 0x7F then [c]
    else if c <= 0x7FF then [0xC0 + c / 0x40, 0x80 + c % 0x40]
    else if c <= 0xFFFF then [0xE0 + c / 0x1000, 0x80 + c / 0x40 % 0x40, 0x80 + c % 0x40]
    else [0xF0 + c / 0x4_0000, 0x80 + c / 0x1000 % 0x40, 0x80 + c / 0x40 % 0x40, 0x80 + c % 0x40]
  }

  function Chars(cs: seq<int>): seq<byte>
    requires AllCodePoints(cs)
  {
    if cs == [] then [] else Char(cs[0]) + Chars(cs[1..])
  }

  lemma CharIsValid(c: int, more: seq<byte>)
    requires CodePoint(c)
    ensures Utf8.CharLength(Char(c) + more) == |Char(c)|
  {
  }

  /** Two, three and four octets, of which six bits each but for the first one are taken. */
  lemma Pack(a: nat, b: nat, c: nat, d: nat)
    requires b < 0x40 && c < 0x40 && d < 0x40
    ensures var n := a * 0x40 + d; n / 0x40 == a && n % 0x40 == d
    ensures var n := a * 0x1000 + c * 0x40 + d; n / 0x1000 == a && n / 0x40 % 0x40 == c && n % 0x40 == d
    ensures var n := a * 0x4_0000 + b * 0x1000 + c * 0x40 + d;
            n / 0x4_0000 == a && n / 0x1000 % 0x40 == b && n / 0x40 % 0x40 == c && n % 0x40 == d
  {
    DivModUnique(a * 0x40 + d, 0x40, a, d);
    DivModUnique(a * 0x1000 + c * 0x40 + d, 0x40, a * 0x40 + c, d);
    DivModUnique(a * 0x40 + c, 0x40, a, c);
    Nested(a * 0x1000 + c * 0x40 + d);
    var n := a * 0x4_0000 + b * 0x1000 + c * 0x40 + d;
    DivModUnique(n, 0x40, a * 0x1000 + b * 0x40 + c, d);
    DivModUnique(a * 0x1000 + b * 0x40 + c, 0x40, a * 0x40 + b, c);
    DivModUnique(a * 0x40 + b, 0x40, a, b);
    Nested(n);
  }

  lemma Nested(c: nat)
    ensures c / 0x1000 == c / 0x40 / 0x40 && c / 0x4_0000 == c / 0x1000 / 0x40
  {
  }

  /** The code point that `s` starts with. */
  lemma FirstChar(s: seq<byte>) returns (c: int)
    requires Utf8.CharLength(s) > 0
    ensures CodePoint(c) && s[..Utf8.CharLength(s)] == Char(c)
  {
    var k, b0 := Utf8.CharLength(s), s[0] as int;
    if k == 1 {
      c := b0;
    } else if k == 2 {
      c := TwoBytes(s);
    } else if k == 3 {
      c := ThreeBytes(s);
    } else {
      c := FourBytes(s);
    }
  }

  lemma TwoBytes(s: seq<byte>) returns (c: int)
    requires Utf8.CharLength(s) == 2
    ensures CodePoint(c) && s[..2] == Char(c)
  {
    var b0, b1 := s[0] as int, s[1] as int;
    c := (b0 - 0xC0) * 0x40 + (b1 - 0x80);
    Pack(b0 - 0xC0, 0, 0, b1 - 0x80);
  }

  lemma ThreeBytes(s: seq<byte>) returns (c: int)
    requires Utf8.CharLength(s) == 3
    ensures CodePoint(c) && s[..3] == Char(c)
  {
    var b0, b1, b2 := s[0] as int, s[1] as int, s[2] as int;
    c := (b0 - 0xE0) * 0x1000 + (b1 - 0x80) * 0x40 + (b2 - 0x80);
    Pack(b0 - 0xE0, 0, b1 - 0x80, b2 - 0x80);
  }

  lemma FourBytes(s: seq<byte>) returns (c: int)
    requires Utf8.CharLength(s) == 4
    ensures CodePoint(c) && s[..4] == Char(c)
  {
    var b0, b1, b2, b3 := s[0] as int, s[1] as int, s[2] as int, s[3] as int;
    c := (b0 - 0xF0) * 0x4_0000 + (b1 - 0x80) * 0x1000 + (b2 - 0x80) * 0x40 + (b3 - 0x80);
    Pack(b0 - 0xF0, b1 - 0x80, b2 - 0x80, b3 - 0x80);
  }

  lemma {:induction false} CharsValid(cs: seq<int>)
    requires AllCodePoints(cs)
    ensures Utf8.Valid(Chars(cs))
  {
    if cs != [] {
      var c, more := Char(cs[0]), Chars(cs[1..]);
      CharIsValid(cs[0], more);
      CharsValid(cs[1..]);
      assert (c + more)[|c|..] == more;
    }
  }

  lemma Halves(s: seq<byte>, k: nat)
    requires k <= |s|
    ensures s == s[..k] + s[k..]
  {
  }

  lemma CharsCons(c: int, cs: seq<int>)
    requires CodePoint(c) && AllCodePoints(cs)
    ensures AllCodePoints([c] + cs) && Chars([c] + cs) == Char(c) + Chars(cs)
  {
    assert ([c] + cs)[1..] == cs;
  }

  lemma {:induction false} CharsOf(s: seq<byte>) returns (cs: seq<int>)
    requires Utf8.Valid(s)
    ensures AllCodePoints(cs) && Chars(cs) == s
    decreases |s|
  {
    cs := [];
    if s != [] {
      var k := Utf8.CharLength(s);
      var c := FirstChar(s);
      var more := CharsOf(s[k..]);
      cs := [c] + more;
      CharsCons(c, more);
      Halves(s, k);
    }
  }

  /** A byte string is a text if and only if it encodes some code points. */
  lemma TextIsChars(s: seq<byte>)
    ensures Utf8.Valid(s) <==> exists cs :: AllCodePoints(cs) && Chars(cs) == s
  {
    if Utf8.Valid(s) {
      var cs := CharsOf(s);
    }
    forall cs | AllCodePoints(cs) && Chars(cs) == s ensures Utf8.Valid(s) {
      CharsValid(cs);
    }
  }

  // ---------- Order ----------

  /** `a` comes before `b` in a dictionary: it is a proper part of its start, or smaller where they first differ. */
  ghost predicate InOrder(a: seq<int>, b: seq<int>) {
    || (|a| < |b| && a == b[..|a|])
    || exists k :: 0 <= k < |a| && k < |b| && a[..k] == b[..k] && a[k] < b[k]
  }

  lemma SameFirst(a: seq<int>, b: seq<int>, k: nat)
    requires 0 < k <= |a| && k <= |b| && a[..k] == b[..k]
    ensures a[0] == b[0]
  {
    assert a[..k][0] == a[0] && b[..k][0] == b[0];
  }

  lemma InOrderFirst(a: seq<int>, b: seq<int>)
    ensures b == [] ==> !InOrder(a, b)
    ensures a == [] && b != [] ==> InOrder(a, b)
    ensures a != [] && b != [] && a[0] < b[0] ==> InOrder(a, b)
    ensures a != [] && b != [] && a[0] > b[0] ==> !InOrder(a, b)
  {
    if a != [] && b != [] && a[0] < b[0] {
      assert a[..0] == b[..0];
    }
    if a != [] && b != [] && a[0] > b[0] {
      assert |a| < |b| ==> b[..|a|][0] == b[0];
      forall k | 0 <= k < |a| && k < |b| && a[..k] == b[..k] ensures a[k] >= b[k] {
        if k > 0 {
          SameFirst(a, b, k);
          assert false;
        }
      }
    }
  }

  lemma InOrderNext(a: seq<int>, b: seq<int>)
    requires a != [] && b != [] && a[0] == b[0]
    ensures InOrder(a, b) <==> InOrder(a[1..], b[1..])
  {
    var c, d := a[1..], b[1..];
    assert a == [a[0]] + c && b == [a[0]] + d;
    if InOrder(a, b) {
      WithoutFirst(a[0], c, d);
    }
    if InOrder(c, d) {
      WithFirst(a[0], c, d);
    }
  }

  lemma WithoutFirst(x: int, c: seq<int>, d: seq<int>)
    requires InOrder([x] + c, [x] + d)
    ensures InOrder(c, d)
  {
    var a, b := [x] + c, [x] + d;
    assert a[1..] == c && b[1..] == d;
    if |a| < |b| && a == b[..|a|] {
      assert b[..|a|][1..] == b[1..][..|a| - 1];
    } else {
      var k :| 0 <= k < |a| && k < |b| && a[..k] == b[..k] && a[k] < b[k];
      assert c[..k - 1] == a[..k][1..] && d[..k - 1] == b[..k][1..];
      assert c[k - 1] < d[k - 1];
    }
  }

  lemma WithFirst(x: int, c: seq<int>, d: seq<int>)
    requires InOrder(c, d)
    ensures InOrder([x] + c, [x] + d)
  {
    var a, b := [x] + c, [x] + d;
    if |c| < |d| && c == d[..|c|] {
      assert a == b[..|a|];
    } else {
      var k :| 0 <= k < |c| && k < |d| && c[..k] == d[..k] && c[k] < d[k];
      assert a[..k + 1] == [x] + c[..k] && b[..k + 1] == [x] + d[..k];
      assert a[k + 1] < b[k + 1];
    }
  }

  lemma {:induction false} InOrderBehind(p: seq<int>, a: seq<int>, b: seq<int>)
    ensures InOrder(p + a, p + b) <==> InOrder(a, b)
  {
    if p == [] {
      assert p + a == a && p + b == b;
    } else {
      InOrderNext(p + a, p + b);
      assert (p + a)[1..] == p[1..] + a && (p + b)[1..] == p[1..] + b;
      InOrderBehind(p[1..], a, b);
    }
  }

  lemma {:induction false} InOrderOneWay(a: seq<int>, b: seq<int>)
    requires InOrder(a, b)
    ensures !InOrder(b, a)
    decreases |a|
  {
    InOrderFirst(a, b);
    InOrderFirst(b, a);
    if a != [] && b != [] && a[0] == b[0] {
      InOrderNext(a, b);
      InOrderNext(b, a);
      InOrderOneWay(a[1..], b[1..]);
    }
  }

  lemma DigitsLess(c: nat, d: nat)
    requires c < d
    ensures c / 0x40 < d / 0x40 || (c / 0x40 == d / 0x40 && c % 0x40 < d % 0x40)
  {
  }

  /** A smaller code point has the smaller encoding, whatever follows. */
  lemma CharsInOrder(c: int, d: int, x: seq<byte>, y: seq<byte>)
    requires CodePoint(c) && CodePoint(d) && c < d
    ensures InOrder(Char(c) + x, Char(d) + y)
  {
    var k := CharsDiffer(c, d);
    var a, b := Char(c) + x, Char(d) + y;
    assert a[..k] == Char(c)[..k] && b[..k] == Char(d)[..k];
    assert a[k] == Char(c)[k] && b[k] == Char(d)[k];
  }

  /** Where they differ for the first time. */
  lemma CharsDiffer(c: int, d: int) returns (k: nat)
    requires CodePoint(c) && CodePoint(d) && c < d
    ensures k < |Char(c)| && k < |Char(d)| && Char(c)[..k] == Char(d)[..k] && Char(c)[k] < Char(d)[k]
  {
    if |Char(c)| != |Char(d)| || |Char(c)| == 1 {
      k := 0;
      LongerIsGreater(c, d);
    } else {
      k := DigitsDiffer(c, d);
    }
  }

  lemma LongerIsGreater(c: int, d: int)
    requires CodePoint(c) && CodePoint(d) && c < d && (|Char(c)| != |Char(d)| || |Char(c)| == 1)
    ensures Char(c)[0] < Char(d)[0]
  {
  }

  lemma DigitsDiffer(c: int, d: int) returns (k: nat)
    requires CodePoint(c) && CodePoint(d) && c < d && |Char(c)| == |Char(d)| > 1
    ensures k < |Char(c)| && Char(c)[..k] == Char(d)[..k] && Char(c)[k] < Char(d)[k]
  {
    var n := |Char(c)|;
    Nested(c);
    Nested(d);
    DigitsLess(c, d);
    k := n - 1;
    if c / 0x40 < d / 0x40 {
      DigitsLess(c / 0x40, d / 0x40);
      k := n - 2;
      if n > 2 && c / 0x1000 < d / 0x1000 {
        DigitsLess(c / 0x1000, d / 0x1000);
        k := n - 3;
        if n > 3 && c / 0x4_0000 < d / 0x4_0000 {
          k := 0;
        }
      }
    }
  }

  /** The bytes of texts are in the order of their code points. */
  lemma {:induction false} TextOrder(cs: seq<int>, ds: seq<int>)
    requires AllCodePoints(cs) && AllCodePoints(ds)
    ensures InOrder(Chars(cs), Chars(ds)) <==> InOrder(cs, ds)
    decreases |cs|
  {
    InOrderFirst(cs, ds);
    InOrderFirst(Chars(cs), Chars(ds));
    if cs != [] && ds != [] {
      var x, y := Chars(cs[1..]), Chars(ds[1..]);
      if cs[0] == ds[0] {
        InOrderNext(cs, ds);
        InOrderBehind(Char(cs[0]), x, y);
        TextOrder(cs[1..], ds[1..]);
      } else if cs[0] < ds[0] {
        CharsInOrder(cs[0], ds[0], x, y);
      } else {
        CharsInOrder(ds[0], cs[0], y, x);
        InOrderOneWay(Chars(ds), Chars(cs));
      }
    }
  }
}
