/**
  The C decoder on arbitrary bytes, well-formed or not: exactly which ones it accepts, and
  which values it can return.
 */
module CSoundness {
  import opened Prelude
  import opened BigEndian
  import opened Values
  import opened Floats
  import opened Wire
  import opened CGrammar
  import opened CCompleteness
  import Delimiting
  import Utf8

  /** The bytes `s` are the item `w`, which means `r`, and what is left over. */
  ghost predicate ReadsAs(m: Mode, w: DataItem, s: seq<byte>, r: Parsed<Value>) {
    r.Ok? && Readable(w) && Meaning(ReadingOf(m), w) == Some(r.value) && s == Flatten(w) + r.rest
  }

  ghost predicate ReadsAllAs(m: Mode, ws: seq<DataItem>, s: seq<byte>, r: Parsed<seq<Value>>) {
    r.Ok? && ReadableAll(ws) && MeaningAll(ReadingOf(m), ws) == Some(r.value) && s == FlattenAll(ws) + r.rest
  }

  /** The same up to a break. */
  ghost predicate ReadsOpenAs(m: Mode, ws: seq<DataItem>, s: seq<byte>, r: Parsed<seq<Value>>) {
    r.Ok? && ReadableAll(ws) && MeaningAll(ReadingOf(m), ws) == Some(r.value) && s == FlattenAll(ws) + ([BREAK] + r.rest)
  }

  // ---------- Heads and strings ----------

  /** A head that was read spells its number; reserved additional information spells 0. */
  lemma NumberWidth(m: Mode, t: byte, info: byte, s: seq<byte>)
    requires IsMajor(t) && info < 32 && Number(m, info, s).Ok?
    ensures var r, w := Number(m, info, s), WidthOf(info);
            && Spells(w, r.value) && Info(w, r.value) == info
            && [TypeOr(t, info)] + s == HeadAt(t, w, r.value) + r.rest
  {
    var r, w := Number(m, info, s), WidthOf(info);
    var k := Follow(w);
    NumberBytes(m, info, s);
    DigitsSpell(info, s[..k], r.value);
    HeadDigits(t, info, s[..k], r.value);
    assert s == s[..k] + s[k..];
    Assoc([TypeOr(t, info)], s[..k], s[k..]);
  }

  lemma DigitsSpell(info: byte, digits: seq<byte>, n: nat)
    requires info < 32 && |digits| == Follow(WidthOf(info))
    requires n == if digits != [] then FromBE(digits) else if info <= 23 then info else 0
    ensures Spells(WidthOf(info), n) && Info(WidthOf(info), n) == info
  {
    FromBEBound(digits);
    Powers();
  }

  lemma HeadDigits(t: byte, info: byte, digits: seq<byte>, n: nat)
    requires IsMajor(t) && info < 32 && |digits| == Follow(WidthOf(info))
    requires Spells(WidthOf(info), n) && Info(WidthOf(info), n) == info && (digits != [] ==> n == FromBE(digits))
    ensures HeadAt(t, WidthOf(info), n) == [TypeOr(t, info)] + digits
  {
    if digits != [] {
      FromBEInverse(digits);
    }
  }

  lemma NumberBytes(m: Mode, info: byte, s: seq<byte>)
    requires info < 32 && Number(m, info, s).Ok?
    ensures var r, k := Number(m, info, s), Follow(WidthOf(info));
            && k <= |s| && r.rest == s[k..] && (k > 0 ==> r.value == FromBE(s[..k]))
            && (k == 0 ==> r.value == if info <= 23 then info else 0)
  {
    if info == UINT8_FOLLOWS {
      assert s[..1] == [] + [s[0]];
      FromBESnoc([], s[0]);
    } else if info == UINT16_FOLLOWS {
      assert s[..2] == [s[0]] + [s[1]] && [s[0]] == [] + [s[0]];
      FromBESnoc([], s[0]);
      FromBESnoc([s[0]], s[1]);
    }
  }

  /** An item behind the head `head` that has been read; sealed. */
  ghost predicate ReadsBehind(m: Mode, w: DataItem, head: seq<byte>, s: seq<byte>, r: Parsed<Value>) {
    forall k {:trigger Unsealed(k)} :: Unsealed(k) ==> ReadsAs(m, w, head + s, r)
  }

  lemma ReadsFloat(m: Mode, info: byte, s: seq<byte>) returns (w: DataItem)
    requires UINT16_FOLLOWS <= info <= UINT64_FOLLOWS && FloatItem(m, info, s).Ok?
    ensures ReadsBehind(m, w, [TypeOr(SEVEN, info)], s, FloatItem(m, info, s))
  {
    var r := FloatItem(m, info, s);
    var k := |s| - |r.rest|;
    w := WFloat(s[..k]);
    assert s == s[..k] + r.rest;
  }

  lemma ReadsChunk(m: Mode, c: byte, s: seq<byte>) returns (k: Chunk)
    requires ChunkAfter(m, c, s).Ok?
    ensures var r := ChunkAfter(m, c, s);
            && ChunkReadable(false, k) && JoinedChunk(k) == r.value && [c] + s == FlattenChunk(false, k) + r.rest
            && (m.Object? ==> JoinedChunk(k) != [])
  {
    var info := InfoBits(c);
    var n := Number(m, info, s);
    NumberWidth(m, BYTES, info, s);
    assert c == TypeOr(BYTES, info);
    var r := Take(m, n.rest, n.value);
    k := Chunk(WidthOf(info), r.value);
    Assoc(HeadAt(BYTES, k.w, n.value), r.value, r.rest);
  }

  lemma {:induction false} ReadsChunks(m: Mode, s: seq<byte>) returns (cs: seq<Chunk>)
    requires Chunks(m, s).Ok?
    ensures var r := Chunks(m, s);
            && ChunksReadable(false, cs) && Joined(cs) == r.value && s == FlattenChunks(false, cs) + ([BREAK] + r.rest)
            && (m.Object? ==> NoneEmpty(cs))
    decreases |s|
  {
    if s[0] == BREAK {
      cs := [];
      assert s == [] + ([BREAK] + s[1..]);
    } else {
      ChunksStep(m, s);
      var c := ChunkAfter(m, s[0], s[1..]);
      var k := ReadsChunk(m, s[0], s[1..]);
      var more := ReadsChunks(m, c.rest);
      FlattenChunksCons(false, k, more);
      cs := [k] + more;
      NoneEmptyCons(cs);
      assert s == [s[0]] + s[1..];
      Assoc(FlattenChunk(false, k), FlattenChunks(false, more), [BREAK] + Chunks(m, c.rest).rest);
    }
  }

  /** An item that the C decoder reads as a text, as a chunk of a longer one. */
  function ChunkOf(w: DataItem): Chunk {
    match w case WStr(_, wd, data) => Chunk(wd, data) case WChunked(_, chunks) => Nest(chunks) case _ => Nest([])
  }

  lemma TextItem(m: Mode, w: DataItem)
    requires Readable(w) && Meaning(ReadingOf(m), w).Some? && Meaning(ReadingOf(m), w).value.Text?
    ensures var c := ChunkOf(w);
            && ChunkReadable(true, c) && ChunkValid(c) && FlattenChunk(true, c) == Flatten(w)
            && JoinedChunk(c) == Meaning(ReadingOf(m), w).value.data
  {
    assert !w.WTag? by {
      if w.WTag? { TagIsNoText(m, w); }
    }
  }

  lemma TagIsNoText(m: Mode, w: DataItem)
    requires w.WTag? && Meaning(ReadingOf(m), w).Some?
    ensures !Meaning(ReadingOf(m), w).value.Text?
  {
  }

  /** Texts in a row are the chunks of one text. */
  lemma {:induction false} JoinedTexts(m: Mode, ws: seq<DataItem>) returns (cs: seq<Chunk>)
    requires ReadableAll(ws) && MeaningAll(ReadingOf(m), ws).Some?
    requires JoinTexts(MeaningAll(ReadingOf(m), ws).value).Some?
    ensures ChunksReadable(true, cs) && EachValid(cs) && FlattenChunks(true, cs) == FlattenAll(ws)
    ensures Joined(cs) == JoinTexts(MeaningAll(ReadingOf(m), ws).value).value
  {
    if ws == [] {
      cs := [];
    } else {
      var p := ReadingOf(m);
      var v, vs := Meaning(p, ws[0]).value, MeaningAll(p, ws[1..]).value;
      assert MeaningAll(p, ws).value == [v] + vs && ([v] + vs)[1..] == vs;
      TextItem(m, ws[0]);
      var more := JoinedTexts(m, ws[1..]);
      var c := ChunkOf(ws[0]);
      FlattenChunksCons(true, c, more);
      cs := [c] + more;
      EachValidCons(cs);
    }
  }

  // ---------- Items ----------

  /**
    Whatever bytes the C decoder accepts are an item, with reserved heads and nested chunks
    where they are not well-formed, and what it returns is what the item means to it.
   */
  lemma {:induction false} ReadsItem(m: Mode, s: seq<byte>) returns (w: DataItem)
    requires Item(m, s).Ok?
    ensures ReadsAs(m, w, s, Item(m, s))
    decreases |s|, 1
  {
    var c, tail := s[0], s[1..];
    assert [c] + tail == s;
    w := ReadsAfter(m, c, tail);
    assert ReadsAs(m, w, [c] + tail, ItemAfter(m, c, tail)) by { assert Unsealed(0); }
  }

  lemma {:induction false} ReadsAfter(m: Mode, c: byte, s: seq<byte>) returns (w: DataItem)
    requires ItemAfter(m, c, s).Ok?
    ensures ReadsBehind(m, w, [c], s, ItemAfter(m, c, s))
    decreases |s| + 1, 0
  {
    var t, info := TypeBits(c), InfoBits(c);
    assert c == TypeOr(t, info);
    if t == SEVEN && UINT16_FOLLOWS <= info <= UINT64_FOLLOWS {
      w := ReadsFloat(m, info, s);
    } else {
      var n := Number(m, info, s);
      NumberWidth(m, t, info, s);
      var wd := WidthOf(info);
      w := ReadsBody(m, t, wd, n.value, n.rest);
      SameBehind(m, w, HeadAt(t, wd, n.value), n.rest, [c], s, Body(m, t, Info(wd, n.value), n.value, n.rest));
    }
  }

  lemma SameBehind(m: Mode, w: DataItem, head: seq<byte>, s: seq<byte>, head': seq<byte>, s': seq<byte>, r: Parsed<Value>)
    requires ReadsBehind(m, w, head, s, r) && head + s == head' + s'
    ensures ReadsBehind(m, w, head', s', r)
  {
  }

  /** What follows a head; `Readable` has no head of major type 7 that is not a simple value. */
  lemma {:induction false} ReadsBody(m: Mode, t: byte, wd: Width, aux: nat, s: seq<byte>) returns (w: DataItem)
    requires IsMajor(t) && Spells(wd, aux) && Body(m, t, Info(wd, aux), aux, s).Ok?
    requires t == SEVEN ==> Info(wd, aux) !in {UINT16_FOLLOWS, UINT32_FOLLOWS, UINT64_FOLLOWS}
    ensures ReadsBehind(m, w, HeadAt(t, wd, aux), s, Body(m, t, Info(wd, aux), aux, s))
    decreases |s|, 4
  {
    if t == UINT || t == NEGINT || t == SEVEN {
      w := ReadsLeaf(m, t, wd, aux, s);
    } else if t == BYTES {
      w := ReadsBytes(m, wd, aux, s);
    } else if t == TEXT {
      w := ReadsText(m, wd, aux, s);
    } else if t == ARRAY || t == MAP {
      w := ReadsGroup(m, t == MAP, wd, aux, s);
    } else {
      w := ReadsTag(m, wd, aux, s);
    }
  }

  lemma ReadsLeaf(m: Mode, t: byte, wd: Width, aux: nat, s: seq<byte>) returns (w: DataItem)
    requires Spells(wd, aux) && Body(m, t, Info(wd, aux), aux, s).Ok?
    requires t == UINT || t == NEGINT || t == SEVEN
    requires t == SEVEN ==> Info(wd, aux) !in {UINT16_FOLLOWS, UINT32_FOLLOWS, UINT64_FOLLOWS}
    ensures ReadsBehind(m, w, HeadAt(t, wd, aux), s, Body(m, t, Info(wd, aux), aux, s))
  {
    if t == SEVEN {
      w := ReadsSimple(m, wd, aux, s);
    } else {
      w := WInt(t == NEGINT, wd, aux);
    }
  }

  lemma ReadsSimple(m: Mode, wd: Width, aux: nat, s: seq<byte>) returns (w: DataItem)
    requires Spells(wd, aux) && Body(m, SEVEN, Info(wd, aux), aux, s).Ok?
    requires Info(wd, aux) !in {UINT16_FOLLOWS, UINT32_FOLLOWS, UINT64_FOLLOWS}
    ensures ReadsBehind(m, w, HeadAt(SEVEN, wd, aux), s, Body(m, SEVEN, Info(wd, aux), aux, s))
  {
    var r := Body(m, SEVEN, Info(wd, aux), aux, s);
    assert 20 <= aux <= 23 && r == Expect(SimpleOf(aux), s);
    w := WSimple(wd, aux);
    SimpleBehind(m, wd, aux, s);
  }

  lemma SimpleBehind(m: Mode, wd: Width, code: byte, s: seq<byte>)
    requires (wd.Imm? || wd.One?) && 20 <= code <= 23
    ensures ReadsBehind(m, WSimple(wd, code), HeadAt(SEVEN, wd, code), s, Expect(SimpleOf(code), s))
  {
  }

  lemma OpenHead(t: byte, wd: Width, aux: nat)
    requires IsMajor(t) && Spells(wd, aux) && Info(wd, aux) == VAR_FOLLOWS
    ensures HeadAt(t, wd, aux) == [TypeOr(t, VAR_FOLLOWS)]
  {
  }

  lemma ReadsBytes(m: Mode, wd: Width, aux: nat, s: seq<byte>) returns (w: DataItem)
    requires Spells(wd, aux) && Body(m, BYTES, Info(wd, aux), aux, s).Ok?
    ensures ReadsBehind(m, w, HeadAt(BYTES, wd, aux), s, Body(m, BYTES, Info(wd, aux), aux, s))
  {
    var info := Info(wd, aux);
    BodyOfString(m, false, info, aux, s);
    if info == VAR_FOLLOWS {
      OpenHead(BYTES, wd, aux);
      var cs := ReadsChunks(m, s);
      w := WChunked(false, cs);
      ChunkedBytes(false, cs, Chunks(m, s).rest);
    } else {
      w := ReadsBlob(m, false, wd, aux, s);
    }
  }

  lemma ReadsBlob(m: Mode, text: bool, wd: Width, aux: nat, s: seq<byte>) returns (w: DataItem)
    requires Spells(wd, aux) && Definite(wd) && Blob(m, aux, s).Ok?
    ensures w == WStr(text, wd, Blob(m, aux, s).value) && Readable(w)
    ensures HeadAt(StrType(text), wd, aux) + s == Flatten(w) + Blob(m, aux, s).rest
  {
    var r := Blob(m, aux, s);
    w := WStr(text, wd, r.value);
    assert s == r.value + r.rest;
    Assoc(HeadAt(StrType(text), wd, aux), r.value, r.rest);
  }

  lemma {:induction false} ReadsText(m: Mode, wd: Width, aux: nat, s: seq<byte>) returns (w: DataItem)
    requires Spells(wd, aux) && Body(m, TEXT, Info(wd, aux), aux, s).Ok?
    ensures ReadsBehind(m, w, HeadAt(TEXT, wd, aux), s, Body(m, TEXT, Info(wd, aux), aux, s))
    decreases |s|, 3
  {
    var info := Info(wd, aux);
    BodyOfString(m, true, info, aux, s);
    if info == VAR_FOLLOWS {
      OpenHead(TEXT, wd, aux);
      var ws := ReadsToBreak(m, s);
      var cs := JoinedTexts(m, ws);
      EachValidJoined(cs);
      w := WChunked(true, cs);
      ChunkedBytes(true, cs, ItemsToBreak(m, s).rest);
    } else {
      w := ReadsBlob(m, true, wd, aux, s);
    }
  }

  lemma {:induction false} ReadsGroup(m: Mode, isMap: bool, wd: Width, aux: nat, s: seq<byte>)
    returns (w: DataItem)
    requires Spells(wd, aux) && Body(m, GroupType(isMap), Info(wd, aux), aux, s).Ok?
    ensures ReadsBehind(m, w, HeadAt(GroupType(isMap), wd, aux), s, Body(m, GroupType(isMap), Info(wd, aux), aux, s))
    decreases |s|, 3
  {
    var info := Info(wd, aux);
    BodyOfGroup(m, isMap, info, aux, s);
    if info == VAR_FOLLOWS {
      OpenHead(GroupType(isMap), wd, aux);
      var ws := ReadsToBreak(m, s);
      if isMap {
        BuildEven(ItemsToBreak(m, s).value);
      }
      w := WOpenGroup(isMap, ws);
      OpenBehind(m, isMap, ws, s, ItemsToBreak(m, s));
    } else {
      var n := if isMap then 2 * Rounds(aux, s) else Rounds(aux, s);
      var ws := ReadsItems(m, s, n);
      w := WGroup(isMap, wd, ws);
      assert Count(isMap, ws) == aux;
      GroupBehind(m, isMap, wd, ws, s, Items(m, s, n));
    }
  }

  lemma OpenBehind(m: Mode, isMap: bool, ws: seq<DataItem>, s: seq<byte>, r: Parsed<seq<Value>>)
    requires ReadsOpenAs(m, ws, s, r) && (isMap ==> |ws| % 2 == 0) && AsGroup(isMap, r).Ok?
    ensures ReadsBehind(m, WOpenGroup(isMap, ws), [TypeOr(GroupType(isMap), VAR_FOLLOWS)], s, AsGroup(isMap, r))
  {
    var w, head := WOpenGroup(isMap, ws), [TypeOr(GroupType(isMap), VAR_FOLLOWS)];
    assert Readable(w) && head + s == Flatten(w) + r.rest by {
      OpenBytes(w, r.rest);
    }
    GroupMeans(m, w, r);
  }

  lemma GroupMeans(m: Mode, w: DataItem, r: Parsed<seq<Value>>)
    requires (w.WGroup? || w.WOpenGroup?) && (w.WGroup? ==> Count(w.isMap, w.items) < MAX_COUNT)
    requires r.Ok? && MeaningAll(ReadingOf(m), w.items) == Some(r.value)
    ensures AsGroup(w.isMap, r).Ok? ==>
            AsGroup(w.isMap, r).rest == r.rest && Meaning(ReadingOf(m), w) == Some(AsGroup(w.isMap, r).value)
  {
  }

  lemma GroupBehind(m: Mode, isMap: bool, wd: Width, ws: seq<DataItem>, s: seq<byte>, r: Parsed<seq<Value>>)
    requires ReadsAllAs(m, ws, s, r) && Readable(WGroup(isMap, wd, ws)) && Count(isMap, ws) < MAX_COUNT
    requires AsGroup(isMap, r).Ok?
    ensures ReadsBehind(m, WGroup(isMap, wd, ws), HeadAt(GroupType(isMap), wd, Count(isMap, ws)), s, AsGroup(isMap, r))
  {
    var w := WGroup(isMap, wd, ws);
    GroupBytes(w, r.rest);
    GroupMeans(m, w, r);
  }

  lemma ReadsBignum(num: nat, s: seq<byte>) returns (item: DataItem)
    requires (num == TAG_BIGNUM || num == TAG_NEGBIGNUM) && BignumItem(num, s).Ok?
    ensures item.WStr? && !item.text && item.w.Imm? && Readable(item)
    ensures Bignum(num, item.data) == Some(BignumItem(num, s).value) && s == Flatten(item) + BignumItem(num, s).rest
  {
    var n := InfoBits(s[0]);
    var data := s[1..][..n];
    item := WStr(false, Imm, data);
    ShortHead(BYTES, n);
    assert s == [s[0]] + data + s[1..][n..];
  }

  lemma {:induction false} ReadsTag(m: Mode, wd: Width, num: nat, s: seq<byte>) returns (w: DataItem)
    requires Spells(wd, num) && Body(m, TAG, Info(wd, num), num, s).Ok?
    ensures ReadsBehind(m, w, HeadAt(TAG, wd, num), s, Body(m, TAG, Info(wd, num), num, s))
    decreases |s|, 3
  {
    BodyOfTag(m, Info(wd, num), num, s);
    var item;
    if num == TAG_BIGNUM || num == TAG_NEGBIGNUM {
      item := ReadsBignum(num, s);
      TagBehind(m, wd, num, item, s, BignumItem(num, s));
    } else {
      item := ReadsItem(m, s);
      OtherTag(m, wd, num, item, s, Item(m, s));
    }
    w := WTag(wd, num, item);
  }

  lemma OtherTag(m: Mode, wd: Width, num: nat, item: DataItem, s: seq<byte>, r: Parsed<Value>)
    requires ReadsAs(m, item, s, r) && Spells(wd, num) && num != TAG_BIGNUM && num != TAG_NEGBIGNUM
    ensures ReadsBehind(m, WTag(wd, num, item), HeadAt(TAG, wd, num), s, AsTag(num, r))
  {
    TagMeans(ReadingOf(m), wd, num, item);
    TagBehind(m, wd, num, item, s, AsTag(num, r));
  }

  lemma TagMeans(p: Reading, wd: Width, num: nat, item: DataItem)
    requires InC(p) && num != TAG_BIGNUM && num != TAG_NEGBIGNUM && Meaning(p, item).Some?
    ensures Meaning(p, WTag(wd, num, item)) == Some(Tag(num, Meaning(p, item).value))
  {
  }

  lemma TagBehind(m: Mode, wd: Width, num: nat, item: DataItem, s: seq<byte>, r: Parsed<Value>)
    requires r.Ok? && Spells(wd, num) && Readable(item) && s == Flatten(item) + r.rest
    requires Meaning(ReadingOf(m), WTag(wd, num, item)) == Some(r.value)
    ensures ReadsBehind(m, WTag(wd, num, item), HeadAt(TAG, wd, num), s, r)
  {
    TagBytes(WTag(wd, num, item), r.rest);
  }

  lemma {:induction false} ReadsItems(m: Mode, s: seq<byte>, n: nat) returns (ws: seq<DataItem>)
    requires Items(m, s, n).Ok?
    ensures ReadsAllAs(m, ws, s, Items(m, s, n)) && |ws| == n
    decreases |s|, 2, n
  {
    if n == 0 {
      ws := [];
      assert s == [] + s;
    } else {
      ItemsStep(m, s, n);
      var w := ReadsItem(m, s);
      var more := ReadsItems(m, Item(m, s).rest, n - 1);
      FlattenAllCons(w, more);
      MeaningCons(ReadingOf(m), w, more);
      Assoc(Flatten(w), FlattenAll(more), Items(m, Item(m, s).rest, n - 1).rest);
      ws := [w] + more;
    }
  }

  lemma {:induction false} ReadsToBreak(m: Mode, s: seq<byte>) returns (ws: seq<DataItem>)
    requires ItemsToBreak(m, s).Ok?
    ensures ReadsOpenAs(m, ws, s, ItemsToBreak(m, s))
    decreases |s|, 2
  {
    if s[0] == BREAK {
      ws := [];
      assert s == [] + ([BREAK] + s[1..]);
    } else {
      BreakStep(m, s);
      var w := ReadsItem(m, s);
      var more := ReadsToBreak(m, Item(m, s).rest);
      FlattenAllCons(w, more);
      MeaningCons(ReadingOf(m), w, more);
      Assoc(Flatten(w), FlattenAll(more), [BREAK] + ItemsToBreak(m, Item(m, s).rest).rest);
      ws := [w] + more;
    }
  }

  // ---------- Which bytes are accepted ----------

  /** `s` starts with the item `w`, which has a meaning. */
  ghost predicate Shows(m: Mode, w: DataItem, s: seq<byte>, rest: seq<byte>) {
    Readable(w) && s == Flatten(w) + rest && Meaning(ReadingOf(m), w).Some?
  }

  /** The C decoder accepts exactly the bytes that start with an item that means something to it. */
  lemma Acceptance(m: Mode, s: seq<byte>)
    ensures Item(m, s).Ok? <==> exists w, rest :: Shows(m, w, s, rest)
  {
    if Item(m, s).Ok? {
      var w := ReadsItem(m, s);
      assert Shows(m, w, s, Item(m, s).rest);
    }
    forall w, rest | Shows(m, w, s, rest) ensures Item(m, s).Ok? {
      ReadItem(m, w, rest);
    }
  }

  /** There is only one such item, and the decoder returns what it means. */
  lemma AcceptedAs(m: Mode, s: seq<byte>, w: DataItem, rest: seq<byte>)
    requires Readable(w) && s == Flatten(w) + rest
    ensures Item(m, s).Ok? <==> Shows(m, w, s, rest)
    ensures Item(m, s).Ok? ==> Item(m, s) == Ok(Meaning(ReadingOf(m), w).value, rest)
    ensures forall w', rest' :: Shows(m, w', s, rest') ==> w' == w && rest' == rest
  {
    if Item(m, s).Ok? {
      var u := ReadsItem(m, s);
      Delimiting.ItemUnique(u, Item(m, s).rest, w, rest);
    }
    ReadItem(m, w, rest);
    forall w', rest' | Shows(m, w', s, rest') ensures w' == w && rest' == rest {
      Delimiting.ItemUnique(w', rest', w, rest);
    }
  }

  /** The same on the bytes of an item. */
  lemma ItemVerdict(m: Mode, w: DataItem, rest: seq<byte>)
    requires Readable(w)
    ensures var r, v := Item(m, Flatten(w) + rest), Meaning(ReadingOf(m), w);
            (r.Ok? <==> v.Some?) && (r.Ok? ==> r == Ok(v.value, rest))
  {
    AcceptedAs(m, Flatten(w) + rest, w, rest);
  }

  // ---------- Which values can be returned ----------

  function StraightWidth(wd: Width): Width {
    if wd.Reserved? then Imm else wd
  }

  /** The chunks of a text without their nesting. */
  function Leaves(c: Chunk): seq<Chunk>
    decreases c
  {
    match c case Chunk(wd, data) => [Chunk(StraightWidth(wd), data)] case Nest(chunks) => LeavesAll(chunks)
  }

  function LeavesAll(cs: seq<Chunk>): seq<Chunk>
    decreases cs
  {
    if cs == [] then [] else Leaves(cs[0]) + LeavesAll(cs[1..])
  }

  /** The item without what is malformed about it. */
  function Straight(w: DataItem): DataItem {
    match w
    case WInt(neg, wd, n) => WInt(neg, StraightWidth(wd), n)
    case WStr(text, wd, data) => WStr(text, StraightWidth(wd), data)
    case WChunked(text, chunks) => WChunked(text, LeavesAll(chunks))
    case WGroup(isMap, wd, items) => WGroup(isMap, StraightWidth(wd), StraightAll(items))
    case WOpenGroup(isMap, items) => WOpenGroup(isMap, StraightAll(items))
    case WTag(wd, num, item) => WTag(StraightWidth(wd), num, Straight(item))
    case WSimple(_, code) => WSimple(Imm, code)
    case WFloat(_) => w
  }

  function StraightAll(ws: seq<DataItem>): (r: seq<DataItem>)
    ensures |r| == |ws|
  {
    if ws == [] then [] else [Straight(ws[0])] + StraightAll(ws[1..])
  }

  /** Chunks `ds` that can take the place of `cs`. */
  ghost predicate Replaces(text: bool, ds: seq<Chunk>, data: seq<byte>, size: nat, valid: bool, nonempty: bool) {
    && ChunksReadable(text, ds) && Plain(ds) && Joined(ds) == data && |FlattenChunks(text, ds)| <= size
    && (valid ==> EachValid(ds)) && (nonempty ==> NoneEmpty(ds))
  }

  lemma {:induction false} ChunksConcat(text: bool, xs: seq<Chunk>, ys: seq<Chunk>)
    requires ChunksReadable(text, xs) && ChunksReadable(text, ys)
    ensures ChunksReadable(text, xs + ys) && Joined(xs + ys) == Joined(xs) + Joined(ys)
    ensures FlattenChunks(text, xs + ys) == FlattenChunks(text, xs) + FlattenChunks(text, ys)
  {
    if xs == [] {
      assert xs + ys == ys;
    } else {
      var c, more := xs[0], xs[1..];
      ChunksConcat(text, more, ys);
      FlattenChunksCons(text, c, more + ys);
      assert xs + ys == [c] + (more + ys);
      Assoc(JoinedChunk(c), Joined(more), Joined(ys));
      Assoc(FlattenChunk(text, c), FlattenChunks(text, more), FlattenChunks(text, ys));
    }
  }

  lemma OneLeaf(text: bool, wd: Width, data: seq<byte>)
    requires ChunkReadable(text, Chunk(wd, data))
    ensures var c := Chunk(wd, data);
            Replaces(text, Leaves(c), data, |FlattenChunk(text, c)|, ChunkValid(c), !text && JoinedChunk(c) != [])
  {
    var d := Chunk(StraightWidth(wd), data);
    FlattenChunksCons(text, d, []);
    assert [d] + [] == [d] && data + [] == data;
    EachValidCons([d]);
  }

  lemma {:induction false} LeavesReplace(text: bool, c: Chunk)
    requires ChunkReadable(text, c)
    ensures Replaces(text, Leaves(c), JoinedChunk(c), |FlattenChunk(text, c)|, ChunkValid(c),
                     !text && JoinedChunk(c) != [])
    decreases c
  {
    match c
    case Chunk(wd, data) => OneLeaf(text, wd, data);
    case Nest(chunks) => LeavesReplaceAll(text, chunks);
  }

  lemma {:induction false} LeavesReplaceAll(text: bool, cs: seq<Chunk>)
    requires ChunksReadable(text, cs)
    ensures Replaces(text, LeavesAll(cs), Joined(cs), |FlattenChunks(text, cs)|, EachValid(cs), !text && NoneEmpty(cs))
    decreases cs
  {
    if cs != [] {
      LeavesReplace(text, cs[0]);
      LeavesReplaceAll(text, cs[1..]);
      var c, more := cs[0], cs[1..];
      EachValidCons(cs);
      NoneEmptyCons(cs);
      ReplaceBoth(text, Leaves(c), JoinedChunk(c), |FlattenChunk(text, c)|, ChunkValid(c), !text && JoinedChunk(c) != [],
                  LeavesAll(more), Joined(more), |FlattenChunks(text, more)|, EachValid(more), !text && NoneEmpty(more));
    }
  }

  lemma ReplaceBoth(text: bool, xs: seq<Chunk>, x: seq<byte>, j: nat, a: bool, c: bool,
                    ys: seq<Chunk>, y: seq<byte>, k: nat, b: bool, d: bool)
    requires Replaces(text, xs, x, j, a, c) && Replaces(text, ys, y, k, b, d)
    ensures Replaces(text, xs + ys, x + y, j + k, a && b, c && d)
  {
    ChunksConcat(text, xs, ys);
  }

  /** `v` is well-formed and takes the place of `w`. */
  ghost predicate Improves(v: DataItem, w: DataItem)
    requires Readable(w)
  {
    && WellFormed(v) && |Flatten(v)| <= |Flatten(w)|
    && forall p {:trigger Meaning(p, v)} :: InC(p) && Meaning(p, w).Some? ==> Meaning(p, v) == Meaning(p, w)
  }

  /** What is malformed about an item can be put right without making it longer. */
  lemma {:induction false} StraightImproves(w: DataItem)
    requires Readable(w)
    ensures Improves(Straight(w), w)
    decreases w
  {
    match w
    case WChunked(text, chunks) => StraightChunked(text, chunks);
    case WGroup(isMap, wd, items) =>
      StraightImprovesAll(items);
      StraightGroup(w);
    case WOpenGroup(isMap, items) =>
      StraightImprovesAll(items);
      StraightGroup(w);
    case WTag(_, _, item) =>
      StraightImproves(item);
      StraightTag(w);
    case _ => StraightLeaf(w);
  }

  lemma StraightLeaf(w: DataItem)
    requires Readable(w) && (w.WInt? || w.WStr? || w.WSimple? || w.WFloat?)
    ensures Improves(Straight(w), w)
  {
  }

  lemma StraightChunked(text: bool, cs: seq<Chunk>)
    requires ChunksReadable(text, cs)
    ensures Improves(Straight(WChunked(text, cs)), WChunked(text, cs))
  {
    LeavesReplaceAll(text, cs);
  }

  /** The same for a sequence of items. */
  ghost predicate ImprovesAll(vs: seq<DataItem>, ws: seq<DataItem>)
    requires ReadableAll(ws)
  {
    && |vs| == |ws| && WellFormedAll(vs) && ReadableAll(vs) && |FlattenAll(vs)| <= |FlattenAll(ws)|
    && forall p {:trigger MeaningAll(p, vs)} ::
         InC(p) && MeaningAll(p, ws).Some? ==> MeaningAll(p, vs) == MeaningAll(p, ws)
  }

  lemma StraightGroup(w: DataItem)
    requires Readable(w) && (w.WGroup? || w.WOpenGroup?) && ImprovesAll(StraightAll(w.items), w.items)
    ensures Improves(Straight(w), w)
  {
    var v := Straight(w);
    assert v.items == StraightAll(w.items);
    StraightGroupSize(w, v);
    forall p | InC(p) && Meaning(p, w).Some? ensures Meaning(p, v) == Meaning(p, w) {
      GroupMeaning(p, w);
      GroupMeaning(p, v);
      assert Count(v.isMap, v.items) == Count(w.isMap, w.items);
      assert MeaningAll(p, v.items) == MeaningAll(p, w.items);
    }
  }

  lemma StraightGroupSize(w: DataItem, v: DataItem)
    requires Readable(w) && (w.WGroup? || w.WOpenGroup?) && v == Straight(w)
    requires v.items == StraightAll(w.items) && ImprovesAll(v.items, w.items)
    ensures WellFormed(v) && |Flatten(v)| <= |Flatten(w)|
  {
    assert Count(v.isMap, v.items) == Count(w.isMap, w.items);
  }

  lemma GroupMeaning(p: Reading, w: DataItem)
    requires InC(p) && (w.WGroup? || w.WOpenGroup?)
    ensures Meaning(p, w) ==
            if w.WGroup? && Count(w.isMap, w.items) >= MAX_COUNT then None else Grouped(w.isMap, MeaningAll(p, w.items))
  {
  }

  lemma StraightTag(w: DataItem)
    requires Readable(w) && w.WTag? && Improves(Straight(w.item), w.item)
    ensures Improves(Straight(w), w)
  {
    var v := Straight(w);
    assert WellFormed(v) && |Flatten(v)| <= |Flatten(w)|;
    forall p | InC(p) && Meaning(p, w).Some? ensures Meaning(p, v) == Meaning(p, w) {
      if w.num != TAG_BIGNUM && w.num != TAG_NEGBIGNUM {
        assert Meaning(p, Straight(w.item)) == Meaning(p, w.item);
      }
    }
  }

  lemma {:induction false} StraightImprovesAll(ws: seq<DataItem>)
    requires ReadableAll(ws)
    ensures ImprovesAll(StraightAll(ws), ws)
    decreases ws
  {
    if ws != [] {
      StraightImproves(ws[0]);
      StraightImprovesAll(ws[1..]);
      FlattenAllCons(Straight(ws[0]), StraightAll(ws[1..]));
      forall p | InC(p) && MeaningAll(p, ws).Some? ensures MeaningAll(p, StraightAll(ws)) == MeaningAll(p, ws) {
        MeaningCons(p, Straight(ws[0]), StraightAll(ws[1..]));
        assert Meaning(p, Straight(ws[0])) == Meaning(p, ws[0]);
        assert MeaningAll(p, ws[1..]).Some?;
      }
    }
  }

  ghost predicate Yields(m: Mode, s: seq<byte>, v: Value) {
    Item(m, s).Ok? && Item(m, s).value == v
  }

  ghost predicate Means(m: Mode, w: DataItem, v: Value) {
    WellFormed(w) && Meaning(ReadingOf(m), w) == Some(v)
  }

  /**
    Malformed input adds no values: those that decoding some bytes can give are exactly
    those that the well-formed items mean.
   */
  lemma Range(m: Mode, v: Value)
    ensures (exists s :: Yields(m, s, v)) <==> (exists w :: Means(m, w, v))
  {
    forall s | Yields(m, s, v) ensures exists w :: Means(m, w, v) {
      var w := ReadsItem(m, s);
      StraightImproves(w);
      assert Meaning(ReadingOf(m), Straight(w)) == Some(v);
      assert Means(m, Straight(w), v);
    }
    forall w | Means(m, w, v) ensures exists s :: Yields(m, s, v) {
      ReadItem(m, w, []);
      assert Yields(m, Flatten(w) + [], v);
    }
  }
}
