/**
  What the encoders write, byte for byte: the values of RFC 7049 that the other modules name
  by constants stand here as numbers.
 */
module EncodedBytes {
  import opened Prelude
  import opened BigEndian
  import opened Values
  import opened Encoding
  import Wire
  import Utf8
  import CEncoder
  import Numbers

  // ---------- Heads ----------

  /** How large a number can be that `k` bytes behind the first one hold, or the first one itself. */
  function Room(k: nat): nat {
    if k == 0 then 24
    else if k == 1 then 0x100
    else if k == 2 then 0x1_0000
    else if k == 4 then 0x1_0000_0000
    else if k == 8 then 0x1_0000_0000_0000_0000
    else 0
  }

  /** The first byte `first` of a kind of item with the number `n`, of which `k` bytes follow. */
  function Lead(first: nat, k: nat, n: nat): (s: seq<byte>)
    requires first <= 0xC0 && first % 0x20 == 0 && n < Room(k)
    ensures |s| == 1 + k
  {
    if k == 0 then [first + n]
    else if k == 1 then [first + 24, n]
    else if k == 2 then [first + 25, n / 0x100, n % 0x100]
    else if k == 4 then
      [first + 26, n / 0x100_0000, n / 0x1_0000 % 0x100, n / 0x100 % 0x100, n % 0x100]
    else
      [first + 27, n / 0x100_0000_0000_0000, n / 0x1_0000_0000_0000 % 0x100, n / 0x100_0000_0000 % 0x100,
       n / 0x1_0000_0000 % 0x100, n / 0x100_0000 % 0x100, n / 0x1_0000 % 0x100, n / 0x100 % 0x100, n % 0x100]
  }

  /** The shortest of them. */
  function Start(first: nat, n: nat): seq<byte>
    requires first <= 0xC0 && first % 0x20 == 0 && n < 0x1_0000_0000_0000_0000
  {
    if n < 24 then Lead(first, 0, n)
    else if n < 0x100 then Lead(first, 1, n)
    else if n < 0x1_0000 then Lead(first, 2, n)
    else if n < 0x1_0000_0000 then Lead(first, 4, n)
    else Lead(first, 8, n)
  }

  function WidthFor(k: nat): Wire.Width {
    if k == 0 then Wire.Imm
    else if k == 1 then Wire.One
    else if k == 2 then Wire.Two
    else if k == 4 then Wire.Four
    else Wire.Eight
  }

  lemma SmallPowers()
    ensures Pow256(0) == 1 && Pow256(1) == 0x100 && Pow256(2) == 0x1_0000 && Pow256(3) == 0x100_0000
    ensures Pow256(4) == 0x1_0000_0000 && Pow256(5) == 0x100_0000_0000 && Pow256(6) == 0x1_0000_0000_0000
    ensures Pow256(7) == 0x100_0000_0000_0000
  {
    Pow256Next(0);
    Pow256Next(1);
    Pow256Next(2);
    Pow256Next(3);
    Pow256Next(4);
    Pow256Next(5);
    Pow256Next(6);
  }

  lemma Pow256Next(k: nat)
    ensures Pow256(k + 1) == 256 * Pow256(k)
  {
  }

  lemma FourDigits(n: nat)
    requires n < 0x1_0000_0000
    ensures ToBE(n, 4) == [n / 0x100_0000, n / 0x1_0000 % 0x100, n / 0x100 % 0x100, n % 0x100]
  {
    CEncoder.FourBytes(n);
    SmallPowers();
  }

  lemma EightDigits(n: nat)
    requires n < 0x1_0000_0000_0000_0000
    ensures ToBE(n, 8) ==
            [n / 0x100_0000_0000_0000, n / 0x1_0000_0000_0000 % 0x100, n / 0x100_0000_0000 % 0x100,
             n / 0x1_0000_0000 % 0x100, n / 0x100_0000 % 0x100, n / 0x1_0000 % 0x100, n / 0x100 % 0x100, n % 0x100]
  {
    CEncoder.EightBytes(n);
    SmallPowers();
    DigitAt(n, 0, 1);
    DigitAt(n, 1, 0x100);
    DigitAt(n, 2, 0x1_0000);
    DigitAt(n, 3, 0x100_0000);
    DigitAt(n, 4, 0x1_0000_0000);
    DigitAt(n, 5, 0x100_0000_0000);
    DigitAt(n, 6, 0x1_0000_0000_0000);
    DigitAt(n, 7, 0x100_0000_0000_0000);
    DivModUnique(n / 0x100_0000_0000_0000, 0x100, 0, n / 0x100_0000_0000_0000);
  }

  lemma DigitAt(n: nat, k: nat, p: nat)
    requires p >= 1 && Pow256(k) == p
    ensures CEncoder.ByteOf(n, k) == n / p % 0x100
  {
  }

  lemma LeadIsHead(first: nat, k: nat, n: nat)
    requires first <= 0xC0 && first % 0x20 == 0 && n < Room(k)
    ensures Wire.Fits(WidthFor(k), n) && Wire.Follow(WidthFor(k)) == k
    ensures Wire.HeadAt(first, WidthFor(k), n) == Lead(first, k, n)
  {
    if k == 1 {
      OneByte(n);
    } else if k == 2 {
      TwoBytes(n);
    } else if k == 4 {
      FourDigits(n);
    } else if k == 8 {
      EightDigits(n);
    }
  }

  lemma StartIsHead(first: nat, n: nat)
    requires first <= 0xC0 && first % 0x20 == 0 && n < 0x1_0000_0000_0000_0000
    ensures Wire.Head(first, n) == Start(first, n)
  {
    var k := if n < 24 then 0 else if n < 0x100 then 1 else if n < 0x1_0000 then 2 else if n < 0x1_0000_0000 then 4 else 8;
    LeadIsHead(first, k, n);
  }

  // ---------- Objects ----------

  /** None, booleans, strings and floats, with either encoder. */
  lemma EncodesLeaf(d: Codec, data: seq<byte>, payload: seq<byte>)
    requires |data| < 0x8000_0000_0000_0000 && |payload| == 8
    ensures Ready(d, Null) && Enc(d, Null) == [0xF6]
    ensures Ready(d, Bool(false)) && Enc(d, Bool(false)) == [0xF4]
    ensures Ready(d, Bool(true)) && Enc(d, Bool(true)) == [0xF5]
    ensures Ready(d, Float(payload)) && Enc(d, Float(payload)) == [0xFB] + payload
    ensures Ready(d, Bytes(data)) && Enc(d, Bytes(data)) == Start(0x40, |data|) + data
    ensures Ready(d, Text(data)) <==> Utf8.Valid(data)
    ensures Ready(d, Text(data)) ==> Enc(d, Text(data)) == Start(0x60, |data|) + data
  {
    StartIsHead(0x40, |data|);
    StartIsHead(0x60, |data|);
  }

  /** Containers and tags: the head with the number of elements, entries or the tag, and then what they hold. */
  lemma EncodesNode(d: Codec, v: Value)
    requires Ready(d, v)
    ensures v.List? ==> |v.items| < 0x8000_0000_0000_0000 && ReadyAll(d, v.items)
    ensures v.List? ==> Enc(d, v) == Start(0x80, |v.items|) + EncAll(d, v.items)
    ensures v.Dict? ==> |v.entries| < 0x8000_0000_0000_0000 && ReadyEntries(d, v.entries)
    ensures v.Dict? ==> Enc(d, v) == Start(0xA0, |v.entries|) + EncEntries(d, v.entries)
    ensures v.Tag? ==> 0 <= v.num < 0x1_0000_0000_0000_0000 && Ready(d, v.item)
    ensures v.Tag? ==> Enc(d, v) == Start(0xC0, v.num) + Enc(d, v.item)
    ensures v.BareTag? ==> Enc(d, v) == []
  {
    if v.List? {
      StartIsHead(0x80, |v.items|);
    } else if v.Dict? {
      StartIsHead(0xA0, |v.entries|);
    } else if v.Tag? {
      StartIsHead(0xC0, v.num);
    }
  }

  /** One element behind the other, one entry behind the other, the key first. */
  lemma EncodesRow(d: Codec, v: Value, vs: seq<Value>, e: Entry, es: seq<Entry>)
    requires Ready(d, v) && ReadyAll(d, vs) && Ready(d, e.key) && Ready(d, e.val) && ReadyEntries(d, es)
    ensures EncAll(d, []) == [] && EncEntries(d, []) == []
    ensures ReadyAll(d, [v] + vs) && EncAll(d, [v] + vs) == Enc(d, v) + EncAll(d, vs)
    ensures ReadyEntries(d, [e] + es) && EncEntries(d, [e] + es) == Enc(d, e.key) + Enc(d, e.val) + EncEntries(d, es)
  {
    assert ([v] + vs)[1..] == vs && ([e] + es)[1..] == es;
  }

  /** The payload of a bignum: the number in bytes, in C no more than its 23 lowest ones. */
  lemma Payload(d: Codec, n: nat)
    ensures d.Python? ==> FromBE(BigBytes(d, n)) == n && (n > 0 ==> BigBytes(d, n) != [] && BigBytes(d, n)[0] != 0)
    ensures d.C? ==> |BigBytes(d, n)| <= 23 && FromBE(BigBytes(d, n)) == n % Pow256(23)
    ensures d.C? && n < Pow256(23) ==> BigBytes(d, n) == BigBytes(Python, n)
  {
    if d.C? {
      LowBytesValue(n, 23);
      if n < Pow256(23) {
        LowBytesAll(n, 23);
      }
    } else {
      MinBEInverse(n);
    }
  }

  /** Integers: with a head of their own, or as bignums, from where on depends on the encoder. */
  lemma EncodesInt(d: Codec, n: int)
    requires SizedInt(n)
    ensures Ready(d, Int(n))
    ensures 0 <= n < 0x8000_0000_0000_0000 ==> Enc(d, Int(n)) == Start(0x00, n)
    ensures d.Python? && 0 <= n < 0x1_0000_0000_0000_0000 ==> Enc(d, Int(n)) == Start(0x00, n)
    ensures 0 <= -1 - n < 0x8000_0000_0000_0000 ==> Enc(d, Int(n)) == Start(0x20, -1 - n)
    ensures n >= (if d.C? then 0x8000_0000_0000_0000 else 0x1_0000_0000_0000_0000) ==>
              var b := BigBytes(d, n);
              |b| < 0x8000_0000_0000_0000 && Enc(d, Int(n)) == [0xC2] + Start(0x40, |b|) + b
    ensures -1 - n >= 0x8000_0000_0000_0000 ==>
              var b := BigBytes(d, -1 - n);
              |b| < 0x8000_0000_0000_0000 && Enc(d, Int(n)) == [0xC3] + Start(0x40, |b|) + b
  {
    var m: nat := if n < 0 then -1 - n else n;
    BigBytesSize(d, m);
    StartIsHead(0x40, |BigBytes(d, m)|);
    if m < 0x1_0000_0000_0000_0000 {
      StartIsHead(0x00, m);
      StartIsHead(0x20, m);
    }
  }

  const TOP: nat := 0x8000_0000_0000_0000

  /** The integers around the limits. */
  lemma EncodesLimits(d: Codec)
    ensures SizedInt(TOP - 1) && Enc(d, Int(TOP - 1)) == [0x1B, 0x7F, 0xFF, 0xFF, 0xFF, 0xFF, 0xFF, 0xFF, 0xFF]
    ensures SizedInt(0 - TOP) && Enc(d, Int(0 - TOP)) == [0x3B, 0x7F, 0xFF, 0xFF, 0xFF, 0xFF, 0xFF, 0xFF, 0xFF]
    ensures SizedInt(TOP) && Enc(Codec.C, Int(TOP)) == [0xC2, 0x48, 0x80, 0, 0, 0, 0, 0, 0, 0]
    ensures Enc(Python, Int(TOP)) == [0x1B, 0x80, 0, 0, 0, 0, 0, 0, 0]
    ensures SizedInt(-1 - TOP) && Enc(d, Int(-1 - TOP)) == [0xC3, 0x48, 0x80, 0, 0, 0, 0, 0, 0, 0]
  {
    LimitsSized();
    EncodesBelow(d);
    EncodesTop();
    EncodesUnder(d);
  }

  lemma LimitsSized()
    ensures SizedInt(TOP - 1) && SizedInt(0 - TOP) && SizedInt(TOP) && SizedInt(-1 - TOP)
  {
    Powers();
    MinBELength(TOP - 1, 8);
    MinBELength(TOP, 8);
  }

  lemma EncodesBelow(d: Codec)
    requires SizedInt(TOP - 1) && SizedInt(0 - TOP)
    ensures Enc(d, Int(TOP - 1)) == [0x1B, 0x7F, 0xFF, 0xFF, 0xFF, 0xFF, 0xFF, 0xFF, 0xFF]
    ensures Enc(d, Int(0 - TOP)) == [0x3B, 0x7F, 0xFF, 0xFF, 0xFF, 0xFF, 0xFF, 0xFF, 0xFF]
  {
    EncodesInt(d, TOP - 1);
    EncodesInt(d, 0 - TOP);
    BelowTop(0x00);
    BelowTop(0x20);
  }

  lemma EncodesTop()
    requires SizedInt(TOP)
    ensures Enc(Codec.C, Int(TOP)) == [0xC2, 0x48, 0x80, 0, 0, 0, 0, 0, 0, 0]
    ensures Enc(Python, Int(TOP)) == [0x1B, 0x80, 0, 0, 0, 0, 0, 0, 0]
  {
    EncodesInt(Codec.C, TOP);
    EncodesInt(Python, TOP);
    AtTop();
    TopPayload(Codec.C);
  }

  lemma EncodesUnder(d: Codec)
    requires SizedInt(-1 - TOP)
    ensures Enc(d, Int(-1 - TOP)) == [0xC3, 0x48, 0x80, 0, 0, 0, 0, 0, 0, 0]
  {
    EncodesInt(d, -1 - TOP);
    AtTop();
    TopPayload(d);
  }

  lemma BelowTop(first: nat)
    requires first <= 0xC0 && first % 0x20 == 0
    ensures Start(first, TOP - 1) == [first + 27, 0x7F, 0xFF, 0xFF, 0xFF, 0xFF, 0xFF, 0xFF, 0xFF]
  {
  }

  lemma AtTop()
    ensures Start(0x00, TOP) == [0x1B, 0x80, 0, 0, 0, 0, 0, 0, 0] && Start(0x40, 8) == [0x48]
  {
    assert Start(0x00, TOP) == Lead(0x00, 8, TOP);
    assert TOP / 0x100_0000_0000_0000 == 0x80 && TOP / 0x1_0000_0000_0000 % 0x100 == 0;
    assert TOP / 0x100_0000_0000 % 0x100 == 0 && TOP / 0x1_0000_0000 % 0x100 == 0;
  }

  lemma TopPayload(d: Codec)
    ensures BigBytes(d, TOP) == [0x80, 0, 0, 0, 0, 0, 0, 0]
  {
    var big: seq<byte> := [0x80, 0, 0, 0, 0, 0, 0, 0];
    TopNumber(big);
    MinBEUnique(big);
    BelowLimit();
    LowBytesAll(TOP, 23);
  }

  lemma BelowLimit()
    ensures TOP < Pow256(23)
  {
    Powers();
  }

  lemma TopNumber(big: seq<byte>)
    requires big == [0x80, 0, 0, 0, 0, 0, 0, 0]
    ensures FromBE(big) == TOP
  {
    Numbers.FieldsOf(big);
  }
}
