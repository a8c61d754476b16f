/**
  What the C decoder makes of bytes, with the values of RFC 7049 as numbers: one equation for
  every kind of item.
 */
module CDecodedBytes {
  import opened Prelude
  import opened BigEndian
  import opened Values
  import opened CGrammar
  import opened EncodedBytes
  import opened Floats
  import Wire
  import CCompleteness
  import Utf8

  lemma ReadsLead(m: Mode, first: nat, k: nat, n: nat, s: seq<byte>)
    requires first <= 0xC0 && first % 0x20 == 0 && n < Room(k)
    ensures Item(m, Lead(first, k, n) + s) == Body(m, first, Wire.Info(WidthFor(k), n), n, s)
    ensures Wire.Info(WidthFor(k), n) != 31
  {
    LeadIsHead(first, k, n);
    CCompleteness.ReadHead(m, first, WidthFor(k), n, s);
  }

  lemma DecodesInt(m: Mode, k: nat, n: nat, s: seq<byte>)
    requires n < Room(k)
    ensures Item(m, Lead(0x00, k, n) + s) == Ok(Int(n), s)
    ensures Item(m, Lead(0x20, k, n) + s) == Ok(Int(-1 - n), s)
  {
    ReadsLead(m, 0x00, k, n, s);
    ReadsLead(m, 0x20, k, n, s);
  }

  /** Byte strings and texts whose length is given; a text must be one. */
  lemma DecodesString(m: Mode, k: nat, data: seq<byte>, s: seq<byte>)
    requires |data| < 0x8000_0000_0000_0000 && |data| < Room(k)
    ensures Item(m, Lead(0x40, k, |data|) + (data + s)) == Ok(Bytes(data), s)
    ensures Item(m, Lead(0x60, k, |data|) + (data + s)) == if Utf8.Valid(data) then Ok(Text(data), s) else Fail
  {
    ReadsLead(m, 0x40, k, |data|, data + s);
    ReadsLead(m, 0x60, k, |data|, data + s);
    CCompleteness.ReadBlob(m, data, s);
  }

  /** Strings that are too long, or not all there. */
  lemma RejectsString(m: Mode, k: nat, n: nat, s: seq<byte>)
    requires n < Room(k) && (n >= 0x8000_0000_0000_0000 || n > |s|)
    ensures !Item(m, Lead(0x40, k, n) + s).Ok? && !Item(m, Lead(0x60, k, n) + s).Ok?
  {
    ReadsLead(m, 0x40, k, n, s);
    ReadsLead(m, 0x60, k, n, s);
  }

  /** Arrays whose length is given, as far as 32 bits can count. */
  lemma DecodesArray(m: Mode, k: nat, n: nat, s: seq<byte>)
    requires n < Room(k)
    ensures n < 0x1_0000_0000 ==>
              var r := Items(m, s, n);
              Item(m, Lead(0x80, k, n) + s) == if r.Ok? then Ok(List(r.value, false), r.rest) else Failure(r)
    ensures n >= 0x1_0000_0000 ==> !Item(m, Lead(0x80, k, n) + s).Ok?
  {
    ReadsLead(m, 0x80, k, n, s);
  }

  /** Maps, which have two items for every entry. */
  lemma DecodesMap(m: Mode, k: nat, n: nat, s: seq<byte>)
    requires n < Room(k)
    ensures n < 0x1_0000_0000 ==>
              var r := Items(m, s, 2 * n);
              Item(m, Lead(0xA0, k, n) + s) ==
              if !r.Ok? then Failure(r)
              else if Build(r.value).Some? then Ok(Dict(Build(r.value).value), r.rest)
              else Fail
    ensures n >= 0x1_0000_0000 ==> !Item(m, Lead(0xA0, k, n) + s).Ok?
  {
    ReadsLead(m, 0xA0, k, n, s);
  }

  /** Items in a row, and items up to a break, which is FF. */
  lemma DecodesRow(m: Mode, s: seq<byte>, n: nat)
    ensures Items(m, s, 0) == Ok([], s)
    ensures var r := Item(m, s);
            Items(m, s, n + 1) ==
            if !r.Ok? then Failure(r)
            else
              var more := Items(m, r.rest, n);
              if more.Ok? then Ok([r.value] + more.value, more.rest) else Failure(more)
    ensures ItemsToBreak(m, []) == Fail && ItemsToBreak(m, [0xFF] + s) == Ok([], s) && Item(m, [0xFF] + s) == Fail
    ensures s != [] && s[0] != 0xFF ==>
              var r := Item(m, s);
              ItemsToBreak(m, s) ==
              if !r.Ok? then Failure(r)
              else
                var more := ItemsToBreak(m, r.rest);
                if more.Ok? then Ok([r.value] + more.value, more.rest) else Failure(more)
  {
    assert ([0xFF] + s)[1..] == s;
    BreakIsNoItem(m, [0xFF] + s);
  }

  /** Tags other than 2 and 3. */
  lemma DecodesTag(m: Mode, k: nat, n: nat, s: seq<byte>)
    requires n < Room(k) && n != 2 && n != 3
    ensures var r := Item(m, s);
            Item(m, Lead(0xC0, k, n) + s) == if r.Ok? then Ok(Tag(n, r.value), r.rest) else Failure(r)
  {
    ReadsLead(m, 0xC0, k, n, s);
  }

  /** Tags 2 and 3 in front of a byte string of less than 24 bytes; in front of anything else they fail. */
  lemma DecodesBignum(m: Mode, k: nat, data: seq<byte>, s: seq<byte>)
    requires k == 0 || k == 1 || k == 2 || k == 4 || k == 8
    ensures |data| < 24 ==>
              && Item(m, Lead(0xC0, k, 2) + ([0x40 + |data|] + (data + s))) == Ok(Int(FromBE(data)), s)
              && Item(m, Lead(0xC0, k, 3) + ([0x40 + |data|] + (data + s))) == Ok(Int(-1 - FromBE(data)), s)
    ensures s == [] || s[0] < 0x40 || s[0] >= 0x58 ==>
              Item(m, Lead(0xC0, k, 2) + s) == Fail && Item(m, Lead(0xC0, k, 3) + s) == Fail
  {
    BignumFollows(m, k, 2, data, s);
    BignumFollows(m, k, 3, data, s);
  }

  lemma BignumFollows(m: Mode, k: nat, num: nat, data: seq<byte>, s: seq<byte>)
    requires (k == 0 || k == 1 || k == 2 || k == 4 || k == 8) && (num == 2 || num == 3)
    ensures |data| < 24 ==>
              Item(m, Lead(0xC0, k, num) + ([0x40 + |data|] + (data + s))) ==
              Ok(Int(if num == 2 then FromBE(data) else -1 - FromBE(data)), s)
    ensures s == [] || s[0] < 0x40 || s[0] >= 0x58 ==> Item(m, Lead(0xC0, k, num) + s) == Fail
  {
    TagIsBignum(m, k, num, s);
    if |data| < 24 {
      TagIsBignum(m, k, num, [0x40 + |data|] + (data + s));
      PayloadFollows(num, data, s);
    }
  }

  lemma PayloadFollows(num: nat, data: seq<byte>, s: seq<byte>)
    requires |data| < 24 && (num == 2 || num == 3)
    ensures BignumItem(num, [0x40 + |data|] + (data + s)) ==
            Ok(Int(if num == 2 then FromBE(data) else -1 - FromBE(data)), s)
  {
    var c := PayloadByte(|data|);
    PayloadOf(num, c, data, data + s, s);
  }

  lemma PayloadOf(num: nat, c: byte, data: seq<byte>, u: seq<byte>, s: seq<byte>)
    requires |data| < 24 && (num == 2 || num == 3) && u == data + s
    requires Wire.TypeBits(c) == 0x40 && Wire.InfoBits(c) == |data|
    ensures BignumItem(num, [c] + u) == Ok(Int(if num == 2 then FromBE(data) else -1 - FromBE(data)), s)
  {
    PayloadAfter(num, c, u);
    PayloadBody(data, u, s);
  }

  lemma PayloadBody(data: seq<byte>, u: seq<byte>, s: seq<byte>)
    requires |data| < 24 && u == data + s
    ensures BignumBody(|data|, u) == Ok(FromBE(data), s)
  {
    assert u[..|data|] == data;
    assert u[|data|..] == s;
  }

  lemma PayloadByte(n: nat) returns (c: byte)
    requires n < 24
    ensures c == 0x40 + n && Wire.TypeBits(c) == 0x40 && Wire.InfoBits(c) == n
  {
    c := 0x40 + n;
  }

  lemma PayloadAfter(num: nat, c: byte, s: seq<byte>)
    requires Wire.TypeBits(c) == 0x40
    ensures BignumItem(num, [c] + s) == Signed(num, BignumBody(Wire.InfoBits(c), s))
  {
    assert ([c] + s)[1..] == s;
  }

  lemma TagIsBignum(m: Mode, k: nat, num: nat, s: seq<byte>)
    requires (k == 0 || k == 1 || k == 2 || k == 4 || k == 8) && (num == 2 || num == 3)
    ensures Item(m, Lead(0xC0, k, num) + s) == BignumItem(num, s)
  {
    ReadsLead(m, 0xC0, k, num, s);
    BodyOfTag(m, Wire.Info(WidthFor(k), num), num, s);
  }

  /** False, true, null and undefined; no other value in the first byte, or the byte behind F8. */
  lemma DecodesSimple(m: Mode, c: byte, s: seq<byte>)
    ensures Item(m, [0xF4] + s) == Ok(Bool(false), s) && Item(m, [0xF5] + s) == Ok(Bool(true), s)
    ensures Item(m, [0xF6] + s) == Ok(Null, s) && Item(m, [0xF7] + s) == Ok(Null, s)
    ensures Item(m, [0xF8, c] + s) == if 20 <= c <= 23 then Item(m, [0xE0 + c] + s) else Fail
    ensures 0xE0 <= c < 0xF4 || 0xFC <= c ==> Item(m, [c] + s) == Fail
  {
    SimpleAfter(m, 0xF4, s);
    SimpleAfter(m, 0xF5, s);
    SimpleAfter(m, 0xF6, s);
    SimpleAfter(m, 0xF7, s);
    if 0xE0 <= c < 0xF8 || 0xFC <= c {
      SimpleAfter(m, c, s);
    }
    TwoByteSimple(m, c, s);
  }

  lemma SimpleAfter(m: Mode, c: byte, s: seq<byte>)
    requires 0xE0 <= c < 0xF8 || 0xFC <= c
    ensures Item(m, [c] + s) ==
            if c == 0xF4 then Ok(Bool(false), s)
            else if c == 0xF5 then Ok(Bool(true), s)
            else if c == 0xF6 || c == 0xF7 then Ok(Null, s)
            else Fail
  {
    FirstOf(m, c, s);
    assert ItemAfter(m, c, s) == Body(m, 0xE0, c - 0xE0, if c < 0xF8 then c - 0xE0 else 0, s);
  }

  lemma TwoByteSimple(m: Mode, c: byte, s: seq<byte>)
    ensures Item(m, [0xF8, c] + s) == if 20 <= c <= 23 then Item(m, [0xE0 + c] + s) else Fail
  {
    assert [0xF8, c] + s == [0xF8] + ([c] + s);
    FirstOf(m, 0xF8, [c] + s);
    assert ([c] + s)[1..] == s;
    assert ItemAfter(m, 0xF8, [c] + s) == Body(m, 0xE0, 24, c, s);
    if 20 <= c <= 23 {
      SimpleAfter(m, 0xE0 + c, s);
    }
  }

  lemma FirstOf(m: Mode, c: byte, s: seq<byte>)
    ensures Item(m, [c] + s) == ItemAfter(m, c, s)
  {
    assert ([c] + s)[1..] == s;
  }

  /** Half, single and double floats. */
  lemma DecodesFloat(m: Mode, p: seq<byte>, s: seq<byte>)
    ensures |p| == 2 ==> Item(m, [0xF9] + (p + s)) == Ok(Float(Double(p)), s)
    ensures |p| == 4 ==> Item(m, [0xFA] + (p + s)) == Ok(Float(Double(p)), s)
    ensures |p| == 8 ==> Item(m, [0xFB] + (p + s)) == Ok(Float(p), s)
  {
    FirstOf(m, 0xF9, p + s);
    FirstOf(m, 0xFA, p + s);
    FirstOf(m, 0xFB, p + s);
    if |p| <= 8 {
      CCompleteness.ReadBlob(m, p, s);
    }
  }

  /** Strings, arrays and maps of open length. */
  lemma DecodesOpen(m: Mode, s: seq<byte>)
    ensures var r := Chunks(m, s);
            Item(m, [0x5F] + s) == if r.Ok? then Ok(Bytes(r.value), r.rest) else Failure(r)
    ensures var r := ItemsToBreak(m, s);
            Item(m, [0x7F] + s) ==
            if !r.Ok? then Failure(r)
            else if forall i :: 0 <= i < |r.value| ==> r.value[i].Text? then Ok(Text(Concat(r.value)), r.rest)
            else Fail
    ensures var r := ItemsToBreak(m, s);
            Item(m, [0x9F] + s) == if r.Ok? then Ok(List(r.value, false), r.rest) else Failure(r)
    ensures var r := ItemsToBreak(m, s);
            Item(m, [0xBF] + s) ==
            if !r.Ok? then Failure(r)
            else if Build(r.value).Some? then Ok(Dict(Build(r.value).value), r.rest)
            else Fail
  {
    OpenBytes(m, s);
    OpenText(m, s);
    OpenGroup(m, false, s);
    OpenGroup(m, true, s);
  }

  lemma OpenBytes(m: Mode, s: seq<byte>)
    ensures var r := Chunks(m, s);
            Item(m, [0x5F] + s) == if r.Ok? then Ok(Bytes(r.value), r.rest) else Failure(r)
  {
    FirstOf(m, 0x5F, s);
    BodyOfString(m, false, 31, 0, s);
    assert ItemAfter(m, 0x5F, s) == Body(m, 0x40, 31, 0, s);
  }

  lemma OpenText(m: Mode, s: seq<byte>)
    ensures var r := ItemsToBreak(m, s);
            Item(m, [0x7F] + s) ==
            if !r.Ok? then Failure(r)
            else if forall i :: 0 <= i < |r.value| ==> r.value[i].Text? then Ok(Text(Concat(r.value)), r.rest)
            else Fail
  {
    FirstOf(m, 0x7F, s);
    BodyOfString(m, true, 31, 0, s);
    assert ItemAfter(m, 0x7F, s) == Body(m, 0x60, 31, 0, s);
    var r := ItemsToBreak(m, s);
    if r.Ok? {
      JoinIsConcat(r.value);
    }
  }

  lemma OpenGroup(m: Mode, isMap: bool, s: seq<byte>)
    ensures var r := ItemsToBreak(m, s);
            Item(m, [if isMap then 0xBF else 0x9F] + s) ==
            if !r.Ok? then Failure(r)
            else if !isMap then Ok(List(r.value, false), r.rest)
            else if Build(r.value).Some? then Ok(Dict(Build(r.value).value), r.rest)
            else Fail
  {
    var c := if isMap then 0xBF else 0x9F;
    FirstOf(m, c, s);
    BodyOfGroup(m, isMap, 31, 0, s);
    assert ItemAfter(m, c, s) == Body(m, if isMap then 0xA0 else 0x80, 31, 0, s);
  }

  /** The texts among some objects, one behind the other. */
  function Concat(vs: seq<Value>): seq<byte> {
    if vs == [] then [] else (if vs[0].Text? then vs[0].data else []) + Concat(vs[1..])
  }

  lemma {:induction false} JoinIsConcat(vs: seq<Value>)
    ensures JoinTexts(vs) == if forall i :: 0 <= i < |vs| ==> vs[i].Text? then Some(Concat(vs)) else None
  {
    if vs != [] {
      JoinIsConcat(vs[1..]);
      assert forall i :: 1 <= i < |vs| ==> vs[i] == vs[1..][i - 1];
      assert forall i :: 0 <= i < |vs| - 1 ==> vs[1..][i] == vs[i + 1];
    }
  }

  /** The chunks of a byte string of open length, up to FF. */
  lemma DecodesChunks(m: Mode, k: nat, data: seq<byte>, s: seq<byte>)
    requires |data| < 0x8000_0000_0000_0000 && |data| < Room(k)
    ensures Chunks(m, []) == Fail && Chunks(m, [0xFF] + s) == Ok([], s)
    ensures var r := Chunks(m, s);
            Chunks(m, Lead(0x40, k, |data|) + (data + s)) ==
            if m.Object? && data == [] then Fail
            else if r.Ok? then Ok(data + r.value, r.rest)
            else Failure(r)
    ensures s != [] && s[0] != 0xFF && !(0x40 <= s[0] <= 0x5F) ==> Chunks(m, s) == Fail
  {
    assert ([0xFF] + s)[1..] == s;
    LeadIsHead(0x40, k, |data|);
    var c := Wire.Chunk(WidthFor(k), data);
    assert Lead(0x40, k, |data|) + (data + s) == Wire.FlattenChunk(false, c) + s;
    CCompleteness.ReadByteChunk(m, c, s);
  }
}
