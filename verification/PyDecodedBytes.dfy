/**
  What the Python decoder makes of bytes, with the values of RFC 7049 as numbers: one equation
  for every kind of item, with the number of bytes that it reports.
 */
module PyDecodedBytes {
  import opened Prelude
  import opened BigEndian
  import opened Values
  import opened PyGrammar
  import opened EncodedBytes
  import opened Floats
  import Biguint
  import Wire
  import PyCompleteness
  import Utf8

  lemma FirstOf(c: byte, s: seq<byte>)
    ensures Item([c] + s) == ItemAfter(c, s)
  {
    assert ([c] + s)[1..] == s;
  }

  /** Integers; one of open length is None. */
  lemma DecodesInt(k: nat, n: nat, s: seq<byte>)
    requires n < Room(k)
    ensures Item(Lead(0x00, k, n) + s) == Got(Int(n), s, 1 + k)
    ensures Item(Lead(0x20, k, n) + s) == Got(Int(-1 - n), s, 1 + k)
    ensures Item([0x1F] + s) == Got(Null, s, 1) && Item([0x3F] + s) == Raises
  {
    IntAfter(false, k, n, s);
    IntAfter(true, k, n, s);
    FirstOf(0x1F, s);
    FirstOf(0x3F, s);
  }

  lemma IntAfter(neg: bool, k: nat, n: nat, s: seq<byte>)
    requires n < Room(k)
    ensures Item(Lead(if neg then 0x20 else 0x00, k, n) + s) == Got(Int(if neg then -1 - n else n), s, 1 + k)
  {
    var first := if neg then 0x20 else 0x00;
    LeadIsHead(first, k, n);
    PyCompleteness.ReadHead(first, WidthFor(k), n, s);
    assert Wire.TypeBits(Wire.TypeOr(first, Wire.Info(WidthFor(k), n))) == first;
  }

  /** Byte strings and texts whose length is given, as far as there are bytes. */
  lemma DecodesString(k: nat, n: nat, s: seq<byte>)
    requires n < Room(k)
    ensures n < 0x8000_0000_0000_0000 ==>
              var j := if n <= |s| then n else |s|;
              && Item(Lead(0x40, k, n) + s) == Got(Bytes(s[..j]), s[j..], 1 + k + n)
              && Item(Lead(0x60, k, n) + s) == if Utf8.Valid(s[..j]) then Got(Text(s[..j]), s[j..], 1 + k + n) else Raises
    ensures n >= 0x8000_0000_0000_0000 ==> Item(Lead(0x40, k, n) + s) == Raises && Item(Lead(0x60, k, n) + s) == Raises
  {
    StringAfter(false, k, n, s);
    StringAfter(true, k, n, s);
  }

  lemma StringAfter(text: bool, k: nat, n: nat, s: seq<byte>)
    requires n < Room(k)
    ensures var first, r := if text then 0x60 else 0x40, LoadsBytes(if text then 0x60 else 0x40, Some(n), s);
            Item(Lead(first, k, n) + s) == if text then AsText(r, 1 + k) else AsBytes(r, 1 + k)
  {
    var first := if text then 0x60 else 0x40;
    LeadIsHead(first, k, n);
    PyCompleteness.ReadHead(first, WidthFor(k), n, s);
    PyCompleteness.BodyOfString(text, Wire.Info(WidthFor(k), n), Some(n), s, 1 + k);
  }

  lemma GroupAfter(isMap: bool, k: nat, n: nat, s: seq<byte>)
    requires n < Room(k)
    ensures Item(Lead(if isMap then 0xA0 else 0x80, k, n) + s) == AsGroup(isMap, Items(s, if isMap then 2 * n else n), 1 + k)
  {
    var first := if isMap then 0xA0 else 0x80;
    LeadIsHead(first, k, n);
    PyCompleteness.ReadHead(first, WidthFor(k), n, s);
    PyCompleteness.BodyOfGroup(isMap, Wire.Info(WidthFor(k), n), Some(n), s, 1 + k);
  }

  lemma DecodesArray(k: nat, n: nat, s: seq<byte>)
    requires n < Room(k)
    ensures var r := Items(s, n);
            Item(Lead(0x80, k, n) + s) ==
            if r.Got? then Got(List(r.value, false), r.rest, 1 + k + r.count) else Failed(r)
  {
    GroupAfter(false, k, n, s);
  }

  /** Maps, which have two items for every entry. */
  lemma DecodesMap(k: nat, n: nat, s: seq<byte>)
    requires n < Room(k)
    ensures var r := Items(s, 2 * n);
            Item(Lead(0xA0, k, n) + s) ==
            if !r.Got? then Failed(r)
            else if Build(r.value).Some? then Got(Dict(Build(r.value).value), r.rest, 1 + k + r.count)
            else Raises
  {
    GroupAfter(true, k, n, s);
  }

  /** Items in a row. */
  lemma DecodesRow(s: seq<byte>, n: nat)
    ensures Item([]) == Raises && Items(s, 0) == Got([], s, 0)
    ensures var r := Item(s);
            Items(s, n + 1) ==
            if !r.Got? then Failed(r)
            else
              var more := Items(r.rest, n);
              if more.Got? then Got([r.value] + more.value, more.rest, r.count + more.count) else Failed(more)
  {
  }

  /** Items, and pairs of them, up to a break, which is FF; the first byte of each, or of each key, counts twice. */
  lemma DecodesToBreak(s: seq<byte>)
    ensures ItemsToBreak([]) == Raises && ItemsToBreak([0xFF] + s) == Got([], s, 1)
    ensures PairsToBreak([]) == Raises && PairsToBreak([0xFF] + s) == Got([], s, 1) && Item([0xFF] + s) == Raises
    ensures s != [] && s[0] != 0xFF ==>
              var r := Item(s);
              ItemsToBreak(s) ==
              if !r.Got? then Failed(r)
              else
                var more := ItemsToBreak(r.rest);
                if more.Got? then Got([r.value] + more.value, more.rest, 1 + r.count + more.count) else Failed(more)
    ensures s != [] && s[0] != 0xFF ==>
              var k := Item(s);
              PairsToBreak(s) ==
              if !k.Got? then Failed(k)
              else
                var v := Item(k.rest);
                if !v.Got? then Failed(v)
                else
                  var more := PairsToBreak(v.rest);
                  if more.Got?
                  then Got([k.value, v.value] + more.value, more.rest, 1 + (k.count + v.count) + more.count)
                  else Failed(more)
  {
    assert ([0xFF] + s)[1..] == s;
    FirstOf(0xFF, s);
    if s != [] && s[0] != 0xFF {
      PyCompleteness.PairsStep(s);
    }
  }

  /** Tags: 2 and 3 become integers, 1 and 35 go to a library, the others are objects. */
  lemma DecodesTag(k: nat, n: nat, s: seq<byte>)
    requires n < Room(k)
    ensures var r := Item(s);
            Item(Lead(0xC0, k, n) + s) ==
            if !r.Got? then Failed(r)
            else if n == 1 || n == 35 then Foreign
            else if n == 2 || n == 3 then
              var i := Biguint.Folded(r.value);
              if i.Some? then Got(Int(if n == 2 then i.value else -1 - i.value), r.rest, 1 + k + r.count) else Raises
            else Got(Tag(n, r.value), r.rest, 1 + k + r.count)
    ensures var r := Item(s);
            Item([0xDF] + s) == if r.Got? then Got(BareTag(r.value), r.rest, 1 + r.count) else Failed(r)
  {
    TagAfter(k, n, s);
    TagOutcome(n, Item(s), 1 + k);
    VoidTagAfter(s);
  }

  lemma TagOutcome(n: nat, r: PyParsed<Value>, read: nat)
    ensures AsTag(Some(n), r, read) ==
            if !r.Got? then Failed(r)
            else if n == 1 || n == 35 then Foreign
            else if n == 2 || n == 3 then
              var i := Biguint.Folded(r.value);
              if i.Some? then Got(Int(if n == 2 then i.value else -1 - i.value), r.rest, read + r.count) else Raises
            else Got(Tag(n, r.value), r.rest, read + r.count)
  {
    if r.Got? && r.value.Bytes? {
      Biguint.FoldedBytes(r.value.data);
    }
  }

  lemma VoidTagAfter(s: seq<byte>)
    ensures var r := Item(s);
            Item([0xDF] + s) == if r.Got? then Got(BareTag(r.value), r.rest, 1 + r.count) else Failed(r)
  {
    FirstOf(0xDF, s);
    assert ItemAfter(0xDF, s) == Body(0xDF, None, s, 1);
    PyCompleteness.BodyOfTag(31, None, s, 1);
  }

  lemma TagAfter(k: nat, n: nat, s: seq<byte>)
    requires n < Room(k)
    ensures Item(Lead(0xC0, k, n) + s) == AsTag(Some(n), Item(s), 1 + k)
  {
    LeadIsHead(0xC0, k, n);
    PyCompleteness.ReadHead(0xC0, WidthFor(k), n, s);
    PyCompleteness.BodyOfTag(Wire.Info(WidthFor(k), n), Some(n), s, 1 + k);
  }

  /** Tags 2 and 3 fold what they hold: bytes to their number, nothing to 0, True to 1, the keys of a dict. */
  lemma FoldsContent(data: seq<byte>, n: int, v: Value)
    ensures Biguint.Folded(Bytes(data)) == Some(FromBE(data))
    ensures Biguint.Folded(Text([])) == Some(0) && Biguint.Folded(List([], false)) == Some(0)
    ensures data != [] ==> Biguint.Folded(Text(data)) == None
    ensures Biguint.Folded(List([Int(n)], false)) == Some(n)
    ensures Biguint.Folded(List([Bool(true)], false)) == Some(1) && Biguint.Folded(List([Bool(false)], false)) == Some(0)
    ensures Biguint.Folded(Dict([Entry(Int(n), v)])) == Some(n)
    ensures v.Null? || v.Bytes? || v.Text? || v.List? || v.Dict? || v.Float? ==> Biguint.Folded(List([v], false)) == None
    ensures v.Null? || v.Int? || v.Bool? || v.Float? || v.Tag? || v.BareTag? ==> Biguint.Folded(v) == None
  {
    Biguint.FoldedBytes(data);
    OneElement(Int(n));
    OneElement(Bool(true));
    OneElement(Bool(false));
    OneElement(v);
    if data != [] {
      OneElement(Text(data));
    }
    assert Biguint.Keys([Entry(Int(n), v)]) == [Int(n)];
  }

  lemma OneElement(v: Value)
    ensures Biguint.FoldedAll([v]) == Biguint.NumberOf(v)
  {
    assert [v][..0] == [];
    assert Biguint.BitOr(0, if Biguint.NumberOf(v).Some? then Biguint.NumberOf(v).value else 0) ==
           if Biguint.NumberOf(v).Some? then Biguint.NumberOf(v).value else 0;
  }

  /** False, true, null and undefined; no other value in the first byte, and none behind F8. */
  lemma DecodesSimple(c: byte, s: seq<byte>)
    ensures Item([0xF4] + s) == Got(Bool(false), s, 1) && Item([0xF5] + s) == Got(Bool(true), s, 1)
    ensures Item([0xF6] + s) == Got(Null, s, 1) && Item([0xF7] + s) == Got(Null, s, 1)
    ensures 0xE0 <= c < 0xF4 || c == 0xF8 || 0xFC <= c ==> Item([c] + s) == Raises
  {
    FirstOf(0xF4, s);
    FirstOf(0xF5, s);
    FirstOf(0xF6, s);
    FirstOf(0xF7, s);
    FirstOf(c, s);
  }

  /** Half, single and double floats. */
  lemma DecodesFloat(p: seq<byte>, s: seq<byte>)
    ensures |p| == 2 ==> Item([0xF9] + (p + s)) == Got(Float(Double(p)), s, 3)
    ensures |p| == 4 ==> Item([0xFA] + (p + s)) == Got(Float(Double(p)), s, 5)
    ensures |p| == 8 ==> Item([0xFB] + (p + s)) == Got(Float(p), s, 9)
  {
    FirstOf(0xF9, p + s);
    FirstOf(0xFA, p + s);
    FirstOf(0xFB, p + s);
    PyCompleteness.ReadBlob(p, s);
  }

  /** Strings, arrays and maps of open length. */
  lemma DecodesOpen(s: seq<byte>)
    ensures var r := Chunks(0x40, s);
            Item([0x5F] + s) == if r.Got? then Got(Bytes(r.value), r.rest, 1 + r.count) else Failed(r)
    ensures var r := Chunks(0x60, s);
            Item([0x7F] + s) ==
            if !r.Got? then Failed(r)
            else if Utf8.Valid(r.value) then Got(Text(r.value), r.rest, 1 + r.count)
            else Raises
    ensures var r := ItemsToBreak(s);
            Item([0x9F] + s) == if r.Got? then Got(List(r.value, false), r.rest, 1 + r.count) else Failed(r)
    ensures var r := PairsToBreak(s);
            Item([0xBF] + s) ==
            if !r.Got? then Failed(r)
            else if Build(r.value).Some? then Got(Dict(Build(r.value).value), r.rest, 1 + r.count)
            else Raises
  {
    OpenBytes(s);
    OpenText(s);
    OpenArray(s);
    OpenMap(s);
  }

  lemma OpenBytes(s: seq<byte>)
    ensures var r := Chunks(0x40, s);
            Item([0x5F] + s) == if r.Got? then Got(Bytes(r.value), r.rest, 1 + r.count) else Failed(r)
  {
    OpenString(false, s);
  }

  lemma OpenText(s: seq<byte>)
    ensures var r := Chunks(0x60, s);
            Item([0x7F] + s) ==
            if !r.Got? then Failed(r)
            else if Utf8.Valid(r.value) then Got(Text(r.value), r.rest, 1 + r.count)
            else Raises
  {
    OpenString(true, s);
  }

  lemma OpenArray(s: seq<byte>)
    ensures var r := ItemsToBreak(s);
            Item([0x9F] + s) == if r.Got? then Got(List(r.value, false), r.rest, 1 + r.count) else Failed(r)
  {
    OpenGroup(false, s);
  }

  lemma OpenMap(s: seq<byte>)
    ensures var r := PairsToBreak(s);
            Item([0xBF] + s) ==
            if !r.Got? then Failed(r)
            else if Build(r.value).Some? then Got(Dict(Build(r.value).value), r.rest, 1 + r.count)
            else Raises
  {
    OpenGroup(true, s);
  }

  lemma OpenString(text: bool, s: seq<byte>)
    ensures var r := Chunks(if text then 0x60 else 0x40, s);
            Item([if text then 0x7F else 0x5F] + s) == if text then AsText(r, 1) else AsBytes(r, 1)
  {
    var first := if text then 0x60 else 0x40;
    PyCompleteness.ReadOpenHead(first, s);
    PyCompleteness.BodyOfString(text, 31, None, s, 1);
  }

  lemma OpenGroup(isMap: bool, s: seq<byte>)
    ensures Item([if isMap then 0xBF else 0x9F] + s) ==
            AsGroup(isMap, if isMap then PairsToBreak(s) else ItemsToBreak(s), 1)
  {
    PyCompleteness.ReadOpenHead(if isMap then 0xA0 else 0x80, s);
    PyCompleteness.BodyOfGroup(isMap, 31, None, s, 1);
  }

  /** A chunk of a string of open length: a string of its kind, as far as there are bytes. */
  lemma DecodesChunk(first: byte, k: nat, n: nat, s: seq<byte>, j: nat)
    requires (first == 0x40 || first == 0x60) && n < 0x8000_0000_0000_0000 && n < Room(k)
    requires j == if n <= |s| then n else |s|
    ensures var r := Chunks(first, s[j..]);
            Chunks(first, Lead(first, k, n) + s) ==
            if r.Got? then Got(s[..j] + r.value, r.rest, 1 + k + n + r.count) else Failed(r)
  {
    ChunkFirst(first, k, n, s, j);
    ChunkThen(first, Lead(first, k, n) + s, s[..j], s[j..], 1 + k + n);
  }

  lemma ChunkThen(t: byte, s: seq<byte>, ob: seq<byte>, s1: seq<byte>, read: nat)
    requires s != [] && s[0] != 0xFF && ChunkAt(t, s[0], s[1..]) == Got(ob, s1, read)
    ensures var r := Chunks(t, s1);
            Chunks(t, s) == if r.Got? then Got(ob + r.value, r.rest, read + r.count) else Failed(r)
  {
    PyCompleteness.ChunksStep(t, s, ob, s1, read);
  }

  /** The chunks end with FF; anything else that is no string of the kind raises. */
  lemma EndsChunks(first: byte, s: seq<byte>)
    requires first == 0x40 || first == 0x60
    ensures Chunks(first, []) == Raises && Chunks(first, [0xFF] + s) == Got([], s, 1)
    ensures s != [] && s[0] != 0xFF && !(first <= s[0] < first + 28) ==> Chunks(first, s) == Raises
  {
    assert ([0xFF] + s)[1..] == s;
    if s != [] && s[0] != 0xFF && !(first <= s[0] < first + 28) {
      NoChunk(first, s[0], s[1..]);
      PyCompleteness.ChunksStop(first, s);
    }
  }

  lemma ChunkFirst(first: byte, k: nat, n: nat, s: seq<byte>, j: nat)
    requires (first == 0x40 || first == 0x60) && n < 0x8000_0000_0000_0000 && n < Room(k)
    requires j == if n <= |s| then n else |s|
    ensures var t := Lead(first, k, n) + s;
            t != [] && t[0] != 0xFF && ChunkAt(first, t[0], t[1..]) == Got(s[..j], s[j..], 1 + k + n)
  {
    LeadIsHead(first, k, n);
    var t := Lead(first, k, n) + s;
    var info := Wire.Info(WidthFor(k), n);
    assert t[0] == Wire.TypeOr(first, info) && t[1..] == ToBE(n, k) + s;
    assert Wire.TypeBits(t[0]) == first;
    PyCompleteness.ReadAux(first, WidthFor(k), n, s);
  }

  lemma NoChunk(first: byte, tb: byte, s: seq<byte>)
    requires (first == 0x40 || first == 0x60) && !(first <= tb < first + 28)
    ensures ChunkAt(first, tb, s) == Raises
  {
  }
}
