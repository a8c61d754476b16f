/**
  Well-formed UTF-8 (section 4 of RFC 3629), the check that both
  `PyUnicode_FromStringAndSize` and `bytes.decode('utf8')` make.
 */
module Utf8 {
  import opened Prelude

  predicate Tail(b: byte) { 0x80 <= b <= 0xBF }

  /** The length of the well-formed character that `s` starts with, or 0. */
  function CharLength(s: seq<byte>): (k: nat)
    ensures k <= |s| && k <= 4
  {
    if s == [] then 0
    else if s[0] <= 0x7F then 1
    else if |s| < 2 || !Tail(s[1]) then 0
    else if 0xC2 <= s[0] <= 0xDF then 2
    else if |s| < 3 || !Tail(s[2]) then 0
    else if s[0] == 0xE0 && s[1] >= 0xA0 then 3
    else if 0xE1 <= s[0] <= 0xEC || 0xEE <= s[0] <= 0xEF then 3
    else if s[0] == 0xED && s[1] <= 0x9F then 3
    else if |s| < 4 || !Tail(s[3]) then 0
    else if s[0] == 0xF0 && s[1] >= 0x90 then 4
    else if 0xF1 <= s[0] <= 0xF3 then 4
    else if s[0] == 0xF4 && s[1] <= 0x8F then 4
    else 0
  }

  predicate Valid(s: seq<byte>)
    decreases |s|
  {
    s == [] || (CharLength(s) > 0 && Valid(s[CharLength(s)..]))
  }

  lemma CharLengthPrefix(a: seq<byte>, b: seq<byte>)
    requires CharLength(a) > 0
    ensures CharLength(a + b) == CharLength(a)
  {
  }

  /** Texts can be joined before or after decoding. */
  lemma {:induction false} ValidConcat(a: seq<byte>, b: seq<byte>)
    requires Valid(a)
    ensures Valid(a + b) <==> Valid(b)
    decreases |a|
  {
    if a == [] {
      assert a + b == b;
    } else {
      var k := CharLength(a);
      CharLengthPrefix(a, b);
      assert (a + b)[k..] == a[k..] + b;
      ValidConcat(a[k..], b);
    }
  }
}
