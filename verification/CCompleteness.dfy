/**
  The C decoder on every data item: any head widths, reserved ones included, any mix of
  definite and indefinite containers, any chunking, any nesting.
 */
module CCompleteness {
  import opened Prelude
  import opened BigEndian
  import opened Values
  import opened Floats
  import opened Wire
  import opened CGrammar
  import Utf8

  function ReadingOf(m: Mode): (p: Reading)
    ensures InC(p)
  {
    if m.Buffer? then FromBuffer else FromObject
  }

  /** What a decoder should answer when a reading gives `r` and `rest` follows. */
  function Expect<T>(r: Option<T>, rest: seq<byte>): Parsed<T> {
    match r case Some(v) => Ok(v, rest) case None => Fail
  }

  lemma ReadBlock(m: Mode, n: nat, k: nat, tail: seq<byte>)
    requires k == 4 || k == 8
    requires n < Pow256(k)
    ensures Block(m, ToBE(n, k) + tail, k) == Ok(n, tail)
  {
    var s := ToBE(n, k) + tail;
    assert s[k..] == tail && s[..k] == ToBE(n, k);
    ToBEInverse(n, k);
  }

  /** Every head is read back, whatever width it was written with; a reserved one as 0. */
  lemma ReadNumber(m: Mode, w: Width, n: nat, tail: seq<byte>)
    requires Spells(w, n)
    ensures Number(m, Info(w, n), ToBE(n, Follow(w)) + tail) == Ok(n, tail)
  {
    match w
    case Imm => assert ToBE(n, 0) + tail == tail;
    case One => ReadOne(m, n, tail);
    case Two => ReadTwo(m, n, tail);
    case Four =>
      FitsPow(w, n);
      ReadBlock(m, n, 4, tail);
    case Eight =>
      FitsPow(w, n);
      ReadBlock(m, n, 8, tail);
    case Reserved(_) => assert ToBE(n, 0) + tail == tail;
  }

  lemma ReadOne(m: Mode, n: nat, tail: seq<byte>)
    requires n <= 0xFF
    ensures Number(m, UINT8_FOLLOWS, ToBE(n, 1) + tail) == Ok(n, tail)
  {
    OneByte(n);
    assert ([n] + tail)[1..] == tail;
  }

  lemma ReadTwo(m: Mode, n: nat, tail: seq<byte>)
    requires n <= 0xFFFF
    ensures Number(m, UINT16_FOLLOWS, ToBE(n, 2) + tail) == Ok(n, tail)
  {
    TwoBytes(n);
    assert ([n / 256, n % 256] + tail)[2..] == tail;
  }

  lemma ReadHead(m: Mode, t: byte, w: Width, n: nat, tail: seq<byte>)
    requires IsMajor(t) && t != SEVEN && Spells(w, n)
    ensures Item(m, HeadAt(t, w, n) + tail) == Body(m, t, Info(w, n), n, tail)
  {
    var s := HeadAt(t, w, n) + tail;
    assert s[0] == TypeOr(t, Info(w, n));
    assert s[1..] == ToBE(n, Follow(w)) + tail;
    ReadNumber(m, w, n, tail);
  }

  lemma ReadOpenHead(m: Mode, t: byte, tail: seq<byte>)
    requires IsMajor(t) && t != SEVEN
    ensures Item(m, [TypeOr(t, VAR_FOLLOWS)] + tail) == Body(m, t, VAR_FOLLOWS, 0, tail)
  {
    var s := [TypeOr(t, VAR_FOLLOWS)] + tail;
    assert s[0] == TypeOr(t, VAR_FOLLOWS) && s[1..] == tail;
  }

  lemma ReadBlob(m: Mode, data: seq<byte>, rest: seq<byte>)
    requires |data| < MAX_LENGTH
    ensures Blob(m, |data|, data + rest) == Ok(data, rest)
    ensures m.Buffer? || data != [] ==> Take(m, data + rest, |data|) == Ok(data, rest)
  {
    assert (data + rest)[..|data|] == data && (data + rest)[|data|..] == rest;
    if data == [] {
      assert data + rest == rest;
    }
  }

  /** A definite string. */
  lemma ReadStr(m: Mode, text: bool, wd: Width, data: seq<byte>, rest: seq<byte>)
    requires StringReadable(wd, data)
    ensures Item(m, FlattenChunk(text, Chunk(wd, data)) + rest) ==
            Expect(Meaning(ReadingOf(m), WStr(text, wd, data)), rest)
  {
    StringBytes(text, wd, data, rest);
    ReadHead(m, StrType(text), wd, |data|, data + rest);
    BodyOfString(m, text, Info(wd, |data|), |data|, data + rest);
    ReadBlobItem(m, text, wd, data, rest);
  }

  lemma ReadBlobItem(m: Mode, text: bool, wd: Width, data: seq<byte>, rest: seq<byte>)
    requires |data| < MAX_LENGTH
    ensures var r := Blob(m, |data|, data + rest);
            (if text then AsText(r) else AsBytes(r)) == Expect(Meaning(ReadingOf(m), WStr(text, wd, data)), rest)
  {
    ReadBlob(m, data, rest);
  }

  /** One chunk of an indefinite byte string. */
  lemma ReadByteChunk(m: Mode, c: Chunk, more: seq<byte>)
    requires ChunkReadable(false, c)
    ensures Chunks(m, FlattenChunk(false, c) + more) ==
            if m.Object? && c.data == [] then Fail else Prefix(c.data, Chunks(m, more))
  {
    var s := FlattenChunk(false, c) + more;
    assert s[0] == TypeOr(BYTES, Info(c.w, |c.data|));
    assert s[1..] == ToBE(|c.data|, Follow(c.w)) + (c.data + more);
    ReadNumber(m, c.w, |c.data|, c.data + more);
    ReadBlob(m, c.data, more);
    ChunksStep(m, s);
  }

  lemma NoneEmptyCons(cs: seq<Chunk>)
    requires cs != []
    ensures NoneEmpty(cs) <==> JoinedChunk(cs[0]) != [] && NoneEmpty(cs[1..])
  {
    assert forall i :: 1 <= i < |cs| ==> cs[i] == cs[1..][i - 1];
    assert forall i :: 0 <= i < |cs| - 1 ==> cs[1..][i] == cs[i + 1];
  }

  lemma {:induction false} ReadByteChunks(m: Mode, cs: seq<Chunk>, rest: seq<byte>)
    requires ChunksReadable(false, cs)
    ensures Chunks(m, FlattenChunks(false, cs) + [BREAK] + rest) ==
            if m.Buffer? || NoneEmpty(cs) then Ok(Joined(cs), rest) else Fail
  {
    var s := FlattenChunks(false, cs) + [BREAK] + rest;
    if cs == [] {
      assert s[0] == BREAK && s[1..] == rest;
    } else {
      var more := FlattenChunks(false, cs[1..]) + [BREAK] + rest;
      assert s == FlattenChunk(false, cs[0]) + more;
      ReadByteChunk(m, cs[0], more);
      ReadByteChunks(m, cs[1..], rest);
      NoneEmptyCons(cs);
    }
  }

  /** The texts that the chunks are read as. */
  function Texts(cs: seq<Chunk>): (vs: seq<Value>) {
    if cs == [] then [] else [Text(JoinedChunk(cs[0]))] + Texts(cs[1..])
  }

  lemma {:induction false} JoinOfTexts(cs: seq<Chunk>)
    ensures JoinTexts(Texts(cs)) == Some(Joined(cs))
  {
    if cs != [] {
      JoinOfTexts(cs[1..]);
      assert Texts(cs)[1..] == Texts(cs[1..]);
    }
  }

  lemma FirstByte(w: DataItem)
    requires Readable(w)
    ensures Flatten(w)[0] != BREAK
    ensures TypeBits(Flatten(w)[0]) == BYTES <==> (w.WStr? || w.WChunked?) && !w.text
  {
  }

  /** One chunk of an indefinite text, which may be one itself. */
  lemma {:induction false} ReadTextChunk(m: Mode, c: Chunk, rest: seq<byte>)
    requires ChunkReadable(true, c)
    ensures Item(m, FlattenChunk(true, c) + rest) ==
            if ChunkValid(c) then Ok(Text(JoinedChunk(c)), rest) else Fail
    decreases c
  {
    match c
    case Chunk(wd, data) =>
      ReadStr(m, true, wd, data, rest);
      assert Meaning(ReadingOf(m), WStr(true, wd, data)) == TextOf(data);
    case Nest(chunks) => ReadChunkedText(m, chunks, rest);
  }

  lemma {:induction false} ReadTextChunks(m: Mode, cs: seq<Chunk>, rest: seq<byte>)
    requires ChunksReadable(true, cs)
    ensures ItemsToBreak(m, FlattenChunks(true, cs) + ([BREAK] + rest)) ==
            if EachValid(cs) then Ok(Texts(cs), rest) else Fail
    decreases cs, 0
  {
    var s := FlattenChunks(true, cs) + ([BREAK] + rest);
    if cs == [] {
      assert s[0] == BREAK && s[1..] == rest;
    } else {
      var c, more := cs[0], FlattenChunks(true, cs[1..]) + ([BREAK] + rest);
      assert s == FlattenChunk(true, c) + more;
      NoBreakChunk(true, c);
      assert s[0] == FlattenChunk(true, c)[0];
      ReadTextChunk(m, c, more);
      ReadTextChunks(m, cs[1..], rest);
      EachValidCons(cs);
    }
  }

  lemma {:induction false} ReadChunkedText(m: Mode, cs: seq<Chunk>, rest: seq<byte>)
    requires ChunksReadable(true, cs)
    ensures Item(m, Flatten(WChunked(true, cs)) + rest) ==
            if EachValid(cs) then Ok(Text(Joined(cs)), rest) else Fail
    decreases cs, 1
  {
    var tail := FlattenChunks(true, cs) + ([BREAK] + rest);
    ChunkedBytes(true, cs, rest);
    ReadOpenHead(m, TEXT, tail);
    BodyOfString(m, true, VAR_FOLLOWS, 0, tail);
    ReadTextChunks(m, cs, rest);
    JoinOfTexts(cs);
  }

  lemma ReadChunked(m: Mode, text: bool, cs: seq<Chunk>, rest: seq<byte>)
    requires ChunksReadable(text, cs)
    ensures Item(m, Flatten(WChunked(text, cs)) + rest) ==
            Expect(Meaning(ReadingOf(m), WChunked(text, cs)), rest)
  {
    if text {
      ReadChunkedText(m, cs, rest);
      if EachValid(cs) {
        EachValidJoined(cs);
      }
    } else {
      var tail := FlattenChunks(text, cs) + [BREAK] + rest;
      ChunkedBytes(text, cs, rest);
      assert tail == FlattenChunks(text, cs) + ([BREAK] + rest);
      ReadOpenHead(m, BYTES, tail);
      BodyOfString(m, false, VAR_FOLLOWS, 0, tail);
      ReadByteChunks(m, cs, rest);
    }
  }

  lemma ReadBignum(m: Mode, num: nat, item: DataItem, rest: seq<byte>)
    requires Readable(item) && (num == TAG_BIGNUM || num == TAG_NEGBIGNUM)
    ensures BignumItem(num, Flatten(item) + rest) ==
            Expect(if item.WStr? && !item.text && item.w.Imm? then Bignum(num, item.data) else None, rest)
  {
    var s := Flatten(item) + rest;
    FirstByte(item);
    assert s[0] == Flatten(item)[0];
    if item.WStr? && !item.text {
      var n := |item.data|;
      assert s == HeadAt(BYTES, item.w, n) + (item.data + rest);
      assert s[0] == TypeOr(BYTES, Info(item.w, n));
      if item.w.Imm? {
        assert s[1..] == item.data + rest;
        ReadBlob(Buffer, item.data, rest);
      }
    }
  }

  lemma ReadSimple(m: Mode, wd: Width, code: byte, rest: seq<byte>)
    requires (wd.Imm? || wd.One?) && 20 <= code <= 23
    ensures Item(m, HeadAt(SEVEN, wd, code) + rest) == Expect(SimpleOf(code), rest)
  {
    var s, info := HeadAt(SEVEN, wd, code) + rest, Info(wd, code);
    assert s[0] == TypeOr(SEVEN, info) && s[1..] == ToBE(code, Follow(wd)) + rest;
    ReadNumber(m, wd, code, rest);
    assert ItemAfter(m, s[0], s[1..]) == Body(m, SEVEN, info, code, rest);
  }

  lemma ReadFloat(m: Mode, payload: seq<byte>, rest: seq<byte>)
    requires IsPayload(payload)
    ensures Item(m, [FloatHead(payload)] + payload + rest) == Ok(Float(Double(payload)), rest)
  {
    var s := [FloatHead(payload)] + payload + rest;
    assert s[0] == FloatHead(payload) && s[1..] == payload + rest;
    ReadBlob(m, payload, rest);
  }

  lemma ReadLeaf(m: Mode, w: DataItem, rest: seq<byte>)
    requires Readable(w) && (w.WInt? || w.WSimple? || w.WFloat?)
    ensures Item(m, Flatten(w) + rest) == Expect(Meaning(ReadingOf(m), w), rest)
  {
    match w
    case WInt(neg, wd, n) => ReadHead(m, if neg then NEGINT else UINT, wd, n, rest);
    case WSimple(wd, code) => ReadSimple(m, wd, code, rest);
    case WFloat(payload) => ReadFloat(m, payload, rest);
  }

  /** What means something to the C decoder has no container that its counters cannot reach. */
  lemma {:induction false} MeansCountable(p: Reading, w: DataItem)
    requires InC(p) && Meaning(p, w).Some?
    ensures Countable(w)
    decreases w
  {
    match w
    case WGroup(_, _, items) => MeansCountableAll(p, items);
    case WOpenGroup(_, items) => MeansCountableAll(p, items);
    case WTag(_, num, item) =>
      if num != TAG_BIGNUM && num != TAG_NEGBIGNUM { MeansCountable(p, item); }
    case _ =>
  }

  lemma {:induction false} MeansCountableAll(p: Reading, ws: seq<DataItem>)
    requires InC(p) && MeaningAll(p, ws).Some?
    ensures CountableAll(ws)
    decreases ws
  {
    if ws != [] {
      MeansCountable(p, ws[0]);
      MeansCountableAll(p, ws[1..]);
      assert forall i :: 1 <= i < |ws| ==> ws[i] == ws[1..][i - 1];
    }
  }

  /**
    Completeness: on the bytes of any item, well-formed or not, followed by anything, the C
    decoder returns exactly what the item means and stops exactly behind it; where its
    reading has no meaning for the item, it fails.
   */
  lemma ReadItem(m: Mode, w: DataItem, rest: seq<byte>)
    requires Readable(w)
    ensures Meaning(ReadingOf(m), w).Some? ==> Item(m, Flatten(w) + rest) == Ok(Meaning(ReadingOf(m), w).value, rest)
    ensures Meaning(ReadingOf(m), w).None? && Countable(w) ==> Item(m, Flatten(w) + rest) == Fail
  {
    if Meaning(ReadingOf(m), w).Some? {
      MeansCountable(ReadingOf(m), w);
    }
    if Countable(w) {
      Reads(m, w, rest);
    }
  }

  lemma {:induction false} Reads(m: Mode, w: DataItem, rest: seq<byte>)
    requires Readable(w) && Countable(w)
    ensures Item(m, Flatten(w) + rest) == Expect(Meaning(ReadingOf(m), w), rest)
    decreases w, 1
  {
    match w
    case WStr(text, wd, data) => ReadStr(m, text, wd, data, rest);
    case WChunked(text, cs) => ReadChunked(m, text, cs, rest);
    case WGroup(_, _, _) => ReadGroup(m, w, rest);
    case WOpenGroup(_, _) => ReadOpenGroup(m, w, rest);
    case WTag(_, _, _) => ReadTag(m, w, rest);
    case _ => ReadLeaf(m, w, rest);
  }

  lemma ExpectGroup(isMap: bool, r: Option<seq<Value>>, rest: seq<byte>)
    ensures AsGroup(isMap, Expect(r, rest)) == Expect(Grouped(isMap, r), rest)
  {
  }

  lemma {:induction false} ReadGroup(m: Mode, w: DataItem, rest: seq<byte>)
    requires Readable(w) && Countable(w) && w.WGroup?
    ensures Item(m, Flatten(w) + rest) == Expect(Meaning(ReadingOf(m), w), rest)
    decreases w, 0
  {
    var tail := FlattenAll(w.items) + rest;
    GroupBytes(w, rest);
    ReadItems(m, w.items, rest);
    GroupRead(m, w, tail, MeaningAll(ReadingOf(m), w.items), rest);
  }

  /** A container whose items read as `all`. */
  lemma GroupRead(m: Mode, w: DataItem, tail: seq<byte>, all: Option<seq<Value>>, rest: seq<byte>)
    requires Readable(w) && w.WGroup? && Count(w.isMap, w.items) < MAX_COUNT
    requires Items(m, tail, |w.items|) == Expect(all, rest)
    ensures Item(m, HeadAt(GroupType(w.isMap), w.w, Count(w.isMap, w.items)) + tail) ==
            Expect(Grouped(w.isMap, all), rest)
  {
    var t, n := GroupType(w.isMap), Count(w.isMap, w.items);
    calc {
      Item(m, HeadAt(t, w.w, n) + tail);
      { ReadHead(m, t, w.w, n, tail); }
      Body(m, t, Info(w.w, n), n, tail);
      { BodyOfGroup(m, w.isMap, Info(w.w, n), n, tail); assert Rounds(n, tail) == n; }
      AsGroup(w.isMap, Items(m, tail, |w.items|));
      { ExpectGroup(w.isMap, all, rest); }
      Expect(Grouped(w.isMap, all), rest);
    }
  }

  lemma {:induction false} ReadOpenGroup(m: Mode, w: DataItem, rest: seq<byte>)
    requires Readable(w) && Countable(w) && w.WOpenGroup?
    ensures Item(m, Flatten(w) + rest) == Expect(Meaning(ReadingOf(m), w), rest)
    decreases w, 0
  {
    var tail := FlattenAll(w.items) + ([BREAK] + rest);
    OpenBytes(w, rest);
    ReadOpenHead(m, GroupType(w.isMap), tail);
    BodyOfGroup(m, w.isMap, VAR_FOLLOWS, 0, tail);
    ReadItemsToBreak(m, w.items, rest);
    ExpectGroup(w.isMap, MeaningAll(ReadingOf(m), w.items), rest);
  }

  lemma ExpectTag(p: Reading, num: nat, r: Option<Value>, rest: seq<byte>)
    requires InC(p) && num != TAG_BIGNUM && num != TAG_NEGBIGNUM
    ensures AsTag(num, Expect(r, rest)) == Expect(if r.None? then None else Tagged(p, num, r.value), rest)
  {
  }

  lemma {:induction false} ReadTag(m: Mode, w: DataItem, rest: seq<byte>)
    requires Readable(w) && Countable(w) && w.WTag?
    ensures Item(m, Flatten(w) + rest) == Expect(Meaning(ReadingOf(m), w), rest)
    decreases w, 0
  {
    var p, tail, info := ReadingOf(m), Flatten(w.item) + rest, Info(w.w, w.num);
    assert Item(m, Flatten(w) + rest) == Body(m, TAG, info, w.num, tail) by {
      TagBytes(w, rest);
      ReadHead(m, TAG, w.w, w.num, tail);
    }
    BodyOfTag(m, info, w.num, tail);
    if w.num == TAG_BIGNUM || w.num == TAG_NEGBIGNUM {
      ReadBignum(m, w.num, w.item, rest);
    } else {
      Reads(m, w.item, rest);
      ExpectTag(p, w.num, Meaning(p, w.item), rest);
    }
  }

  /** A sequence of items whose first one reads as `first` and whose others as `r`. */
  function Then(first: Option<Value>, r: Parsed<seq<Value>>): Parsed<seq<Value>> {
    match first
    case None => Fail
    case Some(v) =>
      match r
      case Ok(vs, rest) => Ok([v] + vs, rest)
      case Fail => Fail
      case Stall => Stall
  }

  lemma ThenExpect(first: Option<Value>, all: Option<seq<Value>>, rest: seq<byte>)
    ensures Then(first, Expect(all, rest)) == Expect(Both(first, all), rest)
  {
  }

  lemma ItemsThen(m: Mode, s: seq<byte>, n: nat, first: Option<Value>, more: seq<byte>)
    requires n > 0 && Item(m, s) == Expect(first, more)
    ensures Items(m, s, n) == Then(first, Items(m, more, n - 1))
  {
  }

  lemma BreakThen(m: Mode, s: seq<byte>, first: Option<Value>, more: seq<byte>)
    requires s != [] && s[0] != BREAK && Item(m, s) == Expect(first, more)
    ensures ItemsToBreak(m, s) == Then(first, ItemsToBreak(m, more))
  {
  }

  lemma {:induction false} ReadItems(m: Mode, ws: seq<DataItem>, rest: seq<byte>)
    requires ReadableAll(ws) && CountableAll(ws)
    ensures Items(m, FlattenAll(ws) + rest, |ws|) == Expect(MeaningAll(ReadingOf(m), ws), rest)
    decreases ws
  {
    if ws == [] {
      assert FlattenAll(ws) + rest == rest;
    } else {
      FlattenAllBytes(ws, rest);
      var more, p := FlattenAll(ws[1..]) + rest, ReadingOf(m);
      var first, all := Meaning(p, ws[0]), MeaningAll(p, ws[1..]);
      calc {
        Items(m, FlattenAll(ws) + rest, |ws|);
        { Reads(m, ws[0], more); ItemsThen(m, FlattenAll(ws) + rest, |ws|, first, more); }
        Then(first, Items(m, more, |ws[1..]|));
        { ReadItems(m, ws[1..], rest); }
        Then(first, Expect(all, rest));
        { ThenExpect(first, all, rest); }
        Expect(Both(first, all), rest);
      }
    }
  }

  lemma {:induction false} ReadItemsToBreak(m: Mode, ws: seq<DataItem>, rest: seq<byte>)
    requires ReadableAll(ws) && CountableAll(ws)
    ensures ItemsToBreak(m, FlattenAll(ws) + ([BREAK] + rest)) == Expect(MeaningAll(ReadingOf(m), ws), rest)
    decreases ws
  {
    var tail := [BREAK] + rest;
    var s := FlattenAll(ws) + tail;
    if ws == [] {
      assert s[0] == BREAK && s[1..] == rest;
    } else {
      FlattenAllBytes(ws, tail);
      NoBreak(ws[0]);
      var more, p := FlattenAll(ws[1..]) + tail, ReadingOf(m);
      var first, all := Meaning(p, ws[0]), MeaningAll(p, ws[1..]);
      calc {
        ItemsToBreak(m, s);
        { Reads(m, ws[0], more); BreakThen(m, s, first, more); }
        Then(first, ItemsToBreak(m, more));
        { ReadItemsToBreak(m, ws[1..], rest); }
        Then(first, Expect(all, rest));
        { ThenExpect(first, all, rest); }
        Expect(Both(first, all), rest);
      }
    }
  }
}
