/**
  The Python decoder on every data item, well-formed or not, and how many bytes it says it
  read.
 */
module PyCompleteness {
  import opened Prelude
  import opened BigEndian
  import opened Values
  import opened Floats
  import opened Wire
  import opened PyGrammar
  import Utf8

  /**
    By how much the reported count exceeds the bytes read: one for every element of an
    indefinite array and for every entry of an indefinite map, at any depth.
   */
  function Excess(w: DataItem): nat {
    match w
    case WGroup(_, _, items) => ExcessAll(items)
    case WOpenGroup(isMap, items) => Count(isMap, items) + ExcessAll(items)
    case WTag(_, _, item) => Excess(item)
    case _ => 0
  }

  function ExcessAll(ws: seq<DataItem>): nat {
    if ws == [] then 0 else Excess(ws[0]) + ExcessAll(ws[1..])
  }

  /** The count that the decoder arrives at. */
  function Cost(w: DataItem): nat {
    match w
    case WInt(_, wd, _) => 1 + Follow(wd)
    case WStr(_, wd, data) => CostChunk(Chunk(wd, data))
    case WChunked(_, cs) => 1 + (CostChunks(cs) + 1)
    case WGroup(_, wd, items) => 1 + Follow(wd) + CostAll(items)
    case WOpenGroup(isMap, items) => 1 + (if isMap then CostPairs(items) else CostToBreak(items))
    case WTag(wd, _, item) => 1 + Follow(wd) + Cost(item)
    case WSimple(wd, _) => 1 + Follow(wd)
    case WFloat(payload) => 1 + |payload|
  }

  function CostAll(ws: seq<DataItem>): nat {
    if ws == [] then 0 else Cost(ws[0]) + CostAll(ws[1..])
  }

  /** An indefinite array: the first byte of each item counts twice. */
  function CostToBreak(ws: seq<DataItem>): nat {
    if ws == [] then 1 else 1 + Cost(ws[0]) + CostToBreak(ws[1..])
  }

  /** An indefinite map: the first byte of each key counts twice. */
  function CostPairs(ws: seq<DataItem>): nat {
    if |ws| < 2 then 1 else 1 + Cost(ws[0]) + (Cost(ws[1]) + CostPairs(ws[2..]))
  }

  function CostChunk(c: Chunk): nat
    decreases c
  {
    match c
    case Chunk(wd, data) => 1 + Follow(wd) + |data|
    case Nest(chunks) => 1 + (CostChunks(chunks) + 1)
  }

  function CostChunks(cs: seq<Chunk>): nat
    decreases cs
  {
    if cs == [] then 0 else CostChunk(cs[0]) + CostChunks(cs[1..])
  }

  // ---------- What the decoder should answer ----------

  /** A failure: in front of a call of `datetime` or `re`, or of anything else. */
  function Fails<T>(library: bool): PyParsed<T> {
    if library then Foreign else Raises
  }

  /** The answer when the reading gives `r`, `rest` follows and `count` is reported. */
  function Expect<T>(r: Option<T>, library: bool, rest: seq<byte>, count: nat): PyParsed<T> {
    match r case Some(v) => Got(v, rest, count) case None => Fails(library)
  }

  /** Reading the item comes to a call of `datetime` or `re`. */
  predicate CallsLibrary(w: DataItem) {
    match w
    case WGroup(_, wd, items) => !wd.Reserved? && CallsLibraryAll(items)
    case WOpenGroup(_, items) => CallsLibraryAll(items)
    case WTag(wd, num, item) =>
      && (wd.Reserved? ==> NoNumber(FromPython, wd))
      && if Meaning(FromPython, item).Some? then !wd.Reserved? && LibraryTag(num) else CallsLibrary(item)
    case _ => false
  }

  predicate CallsLibraryAll(ws: seq<DataItem>): (r: bool)
    ensures r ==> MeaningAll(FromPython, ws).None?
  {
    ws != [] && if Meaning(FromPython, ws[0]).Some? then CallsLibraryAll(ws[1..]) else CallsLibrary(ws[0])
  }

  /** The answer for an item, and for some in a row that cost `count`. */
  function Answer(w: DataItem, rest: seq<byte>): PyParsed<Value> {
    Expect(Meaning(FromPython, w), CallsLibrary(w), rest, Cost(w))
  }

  function Answers(ws: seq<DataItem>, rest: seq<byte>, count: nat): PyParsed<seq<Value>> {
    Expect(MeaningAll(FromPython, ws), CallsLibraryAll(ws), rest, count)
  }

  // ---------- Heads and strings ----------

  lemma ReadAux(t: byte, w: Width, n: nat, tail: seq<byte>)
    requires IsMajor(t) && Fits(w, n)
    ensures TagAux(TypeOr(t, Info(w, n)), ToBE(n, Follow(w)) + tail) == Got(Some(n), tail, 1 + Follow(w))
  {
    var s := ToBE(n, Follow(w)) + tail;
    assert s[Follow(w)..] == tail && s[..Follow(w)] == ToBE(n, Follow(w));
    if !w.Imm? {
      FitsPow(w, n);
      ToBEInverse(n, Follow(w));
    }
  }

  lemma ReadHead(t: byte, w: Width, n: nat, tail: seq<byte>)
    requires IsMajor(t) && t != SEVEN && Fits(w, n)
    ensures Item(HeadAt(t, w, n) + tail) == Body(TypeOr(t, Info(w, n)), Some(n), tail, 1 + Follow(w))
  {
    var s := HeadAt(t, w, n) + tail;
    assert s[0] == TypeOr(t, Info(w, n));
    assert s[1..] == ToBE(n, Follow(w)) + tail;
    ReadAux(t, w, n, tail);
  }

  lemma ReadOpenHead(t: byte, tail: seq<byte>)
    requires IsMajor(t) && t != SEVEN
    ensures Item([TypeOr(t, VAR_FOLLOWS)] + tail) == Body(TypeOr(t, VAR_FOLLOWS), None, tail, 1)
  {
    var s := [TypeOr(t, VAR_FOLLOWS)] + tail;
    assert s[0] == TypeOr(t, VAR_FOLLOWS) && s[1..] == tail;
  }

  /** Reserved additional information, other than that of an indefinite length. */
  lemma ReadReserved(t: byte, w: Width, n: nat, tail: seq<byte>)
    requires IsMajor(t) && w.Reserved? && Spells(w, n) && Definite(w)
    ensures Item(HeadAt(t, w, n) + tail) == Raises
  {
    var s := HeadAt(t, w, n) + tail;
    assert s[0] == TypeOr(t, w.info);
    assert TagAux(s[0], s[1..]) == Raises;
  }

  lemma VoidHead(t: byte, n: nat)
    requires IsMajor(t) && Spells(Reserved(VAR_FOLLOWS), n)
    ensures HeadAt(t, Reserved(VAR_FOLLOWS), n) == [TypeOr(t, VAR_FOLLOWS)]
  {
  }

  lemma BodyOfString(text: bool, info: byte, aux: Option<nat>, s: seq<byte>, read: nat)
    requires info < 32
    ensures Body(TypeOr(StrType(text), info), aux, s, read) ==
            if text then AsText(LoadsBytes(TEXT, aux, s), read) else AsBytes(LoadsBytes(BYTES, aux, s), read)
  {
  }

  lemma BodyOfGroup(isMap: bool, info: byte, aux: Option<nat>, s: seq<byte>, read: nat)
    requires info < 32
    ensures Body(TypeOr(GroupType(isMap), info), aux, s, read) == AsGroup(isMap, GroupItems(isMap, aux, s), read)
  {
  }

  lemma BodyOfTag(info: byte, aux: Option<nat>, s: seq<byte>, read: nat)
    requires info < 32
    ensures Body(TypeOr(TAG, info), aux, s, read) == AsTag(aux, Item(s), read)
  {
  }

  lemma ReadBlob(data: seq<byte>, rest: seq<byte>)
    ensures var s := data + rest; Upto(s, |data|) == |data| && s[..|data|] == data && s[|data|..] == rest
  {
  }

  lemma ReadBlobItem(text: bool, w: Width, data: seq<byte>, rest: seq<byte>, read: nat)
    requires |data| < MAX_LENGTH && !w.Reserved?
    ensures var r := LoadsBytes(StrType(text), Some(|data|), data + rest);
            (if text then AsText(r, read) else AsBytes(r, read)) ==
            Expect(Meaning(FromPython, WStr(text, w, data)), false, rest, read + |data|)
  {
    ReadBlob(data, rest);
    assert LoadsBytes(StrType(text), Some(|data|), data + rest) == Got(data, rest, |data|);
  }

  lemma ReadStr(text: bool, wd: Width, data: seq<byte>, rest: seq<byte>)
    requires StringReadable(wd, data)
    ensures Item(FlattenChunk(text, Chunk(wd, data)) + rest) == Answer(WStr(text, wd, data), rest)
  {
    StringBytes(text, wd, data, rest);
    if wd.Reserved? {
      ReadReserved(StrType(text), wd, |data|, data + rest);
    } else {
      ReadString(text, wd, data, rest);
    }
  }

  lemma ReadString(text: bool, wd: Width, data: seq<byte>, rest: seq<byte>)
    requires StringReadable(wd, data) && !wd.Reserved?
    ensures Item(HeadAt(StrType(text), wd, |data|) + (data + rest)) == Answer(WStr(text, wd, data), rest)
  {
    var n, tail, read, t := |data|, data + rest, 1 + Follow(wd), StrType(text);
    var r := LoadsBytes(t, Some(n), tail);
    calc {
      Item(HeadAt(t, wd, n) + tail);
      { ReadHead(t, wd, n, tail); }
      Body(TypeOr(t, Info(wd, n)), Some(n), tail, read);
      { BodyOfString(text, Info(wd, n), Some(n), tail, read); }
      if text then AsText(r, read) else AsBytes(r, read);
      { ReadBlobItem(text, wd, data, rest, read); }
      Expect(Meaning(FromPython, WStr(text, wd, data)), false, rest, read + n);
    }
  }

  /** A chunk of an indefinite string: nothing but a definite string of its type will do. */
  lemma ReadChunk(text: bool, c: Chunk, more: seq<byte>)
    requires ChunkReadable(text, c)
    ensures var s := FlattenChunk(text, c) + more;
            && s[0] != BREAK
            && ChunkAt(StrType(text), s[0], s[1..]) ==
               if Plain([c]) then Got(JoinedChunk(c), more, CostChunk(c)) else Raises
  {
    NoBreakChunk(text, c);
    if c.Chunk? && !c.w.Reserved? {
      ReadPlainChunk(text, c.w, c.data, more);
    } else {
      var s := FlattenChunk(text, c) + more;
      assert !Plain([c]) by { assert [c][0] == c; }
      assert InfoBits(s[0]) >= 28;
    }
  }

  lemma ReadPlainChunk(text: bool, wd: Width, data: seq<byte>, more: seq<byte>)
    requires Fits(wd, |data|) && |data| < MAX_LENGTH
    ensures var s := HeadAt(StrType(text), wd, |data|) + data + more;
            ChunkAt(StrType(text), s[0], s[1..]) == Got(data, more, 1 + Follow(wd) + |data|)
  {
    var t, n := StrType(text), |data|;
    var s, tb := HeadAt(t, wd, n) + data + more, TypeOr(t, Info(wd, n));
    assert s[0] == tb;
    assert s[1..] == ToBE(n, Follow(wd)) + (data + more);
    ReadAux(t, wd, n, data + more);
    ReadBlob(data, more);
    assert TypeBits(tb) == t;
  }

  /** Chunks that follow a chunk. */
  lemma ChunksStep(t: byte, s: seq<byte>, ob: seq<byte>, s1: seq<byte>, read: nat)
    requires s != [] && s[0] != BREAK && ChunkAt(t, s[0], s[1..]) == Got(ob, s1, read)
    ensures var r := Chunks(t, s1);
            Chunks(t, s) == if r.Got? then Got(ob + r.value, r.rest, read + r.count) else r
  {
  }

  lemma PlainCons(cs: seq<Chunk>)
    requires cs != []
    ensures Plain(cs) <==> Plain([cs[0]]) && Plain(cs[1..])
  {
    assert [cs[0]][0] == cs[0];
    assert forall i :: 1 <= i < |cs| ==> cs[i] == cs[1..][i - 1];
    assert forall i :: 0 <= i < |cs| - 1 ==> cs[1..][i] == cs[i + 1];
  }

  lemma {:induction false} ReadChunks(text: bool, cs: seq<Chunk>, rest: seq<byte>)
    requires ChunksReadable(text, cs)
    ensures Chunks(StrType(text), FlattenChunks(text, cs) + ([BREAK] + rest)) ==
            if Plain(cs) then Got(Joined(cs), rest, CostChunks(cs) + 1) else Raises
    decreases |cs|
  {
    var s, t := FlattenChunks(text, cs) + ([BREAK] + rest), StrType(text);
    if cs == [] {
      assert s[0] == BREAK && s[1..] == rest;
    } else {
      var more := FlattenChunks(text, cs[1..]) + ([BREAK] + rest);
      assert s == FlattenChunk(text, cs[0]) + more;
      ReadChunks(text, cs[1..], rest);
      ReadChunksCons(text, cs, more, rest);
    }
  }

  lemma ReadChunksCons(text: bool, cs: seq<Chunk>, more: seq<byte>, rest: seq<byte>)
    requires ChunksReadable(text, cs) && cs != []
    requires Chunks(StrType(text), more) ==
             if Plain(cs[1..]) then Got(Joined(cs[1..]), rest, CostChunks(cs[1..]) + 1) else Raises
    ensures Chunks(StrType(text), FlattenChunk(text, cs[0]) + more) ==
            if Plain(cs) then Got(Joined(cs), rest, CostChunks(cs) + 1) else Raises
  {
    var s, t := FlattenChunk(text, cs[0]) + more, StrType(text);
    PlainCons(cs);
    ReadChunk(text, cs[0], more);
    if Plain([cs[0]]) {
      ChunksStep(t, s, JoinedChunk(cs[0]), more, CostChunk(cs[0]));
    } else {
      ChunksStop(t, s);
    }
  }

  lemma ChunksStop(t: byte, s: seq<byte>)
    requires s != [] && s[0] != BREAK && ChunkAt(t, s[0], s[1..]) == Raises
    ensures Chunks(t, s) == Raises
  {
  }

  lemma ReadChunked(text: bool, cs: seq<Chunk>, rest: seq<byte>)
    requires ChunksReadable(text, cs)
    ensures var w := WChunked(text, cs); Item(Flatten(w) + rest) == Answer(w, rest)
  {
    var tail, t := FlattenChunks(text, cs) + ([BREAK] + rest), StrType(text);
    ChunkedBytes(text, cs, rest);
    ReadOpenHead(t, tail);
    BodyOfString(text, VAR_FOLLOWS, None, tail, 1);
    ReadChunks(text, cs, rest);
  }

  lemma ReadInt(neg: bool, wd: Width, n: nat, rest: seq<byte>)
    requires Spells(wd, n)
    ensures Item(HeadAt(if neg then NEGINT else UINT, wd, n) + rest) == Answer(WInt(neg, wd, n), rest)
  {
    var t := if neg then NEGINT else UINT;
    if !wd.Reserved? {
      ReadHead(t, wd, n, rest);
      assert TypeBits(TypeOr(t, Info(wd, n))) == t;
    } else if Definite(wd) {
      ReadReserved(t, wd, n, rest);
    } else {
      VoidHead(t, n);
      ReadOpenHead(t, rest);
      assert TypeBits(TypeOr(t, VAR_FOLLOWS)) == t;
    }
  }

  lemma ReadSimple(wd: Width, code: byte, rest: seq<byte>)
    requires (wd.Imm? || wd.One?) && 20 <= code <= 23
    ensures Item(HeadAt(SEVEN, wd, code) + rest) == Answer(WSimple(wd, code), rest)
  {
    var s, tb := HeadAt(SEVEN, wd, code) + rest, TypeOr(SEVEN, Info(wd, code));
    assert s[0] == tb && s[1..] == ToBE(code, Follow(wd)) + rest;
    ReadAux(SEVEN, wd, code, rest);
    assert Item(s) == Body(tb, Some(code), rest, 1 + Follow(wd));
    SimpleBody(wd, code, rest);
  }

  /** A simple value that takes two bytes is unknown. */
  lemma SimpleBody(wd: Width, code: byte, s: seq<byte>)
    requires (wd.Imm? || wd.One?) && 20 <= code <= 23
    ensures Body(TypeOr(SEVEN, Info(wd, code)), Some(code), s, 1 + Follow(wd)) == Answer(WSimple(wd, code), s)
  {
    SimpleHead(wd, code);
    SevenBody(TypeOr(SEVEN, Info(wd, code)), code, s, 1 + Follow(wd));
    SimpleMeans(wd, code);
  }

  lemma SimpleHead(wd: Width, code: byte)
    requires (wd.Imm? || wd.One?) && 20 <= code <= 23
    ensures var tb := TypeOr(SEVEN, Info(wd, code));
            TypeBits(tb) == SEVEN && tb == if wd.Imm? then 0xE0 + code else 0xF8
  {
  }

  lemma SimpleMeans(wd: Width, code: byte)
    requires (wd.Imm? || wd.One?) && 20 <= code <= 23
    ensures Meaning(FromPython, WSimple(wd, code)) == (if wd.Imm? then SimpleOf(code) else None)
    ensures !CallsLibrary(WSimple(wd, code)) && Cost(WSimple(wd, code)) == 1 + Follow(wd)
  {
  }

  lemma SevenBody(tb: byte, n: nat, s: seq<byte>, read: nat)
    requires TypeBits(tb) == SEVEN
    ensures Body(tb, Some(n), s, read) ==
            if 0xF4 <= tb <= 0xF7 then Expect(SimpleOf(tb - 0xE0), false, s, read) else Raises
  {
  }

  lemma ReadFloat(payload: seq<byte>, rest: seq<byte>)
    requires IsPayload(payload)
    ensures Item([FloatHead(payload)] + payload + rest) == Got(Float(Double(payload)), rest, 1 + |payload|)
  {
    var s := [FloatHead(payload)] + payload + rest;
    assert s[0] == FloatHead(payload) && s[1..] == payload + rest;
    ReadBlob(payload, rest);
  }

  lemma ReadLeaf(w: DataItem, rest: seq<byte>)
    requires Readable(w) && (w.WInt? || w.WSimple? || w.WFloat?)
    ensures Item(Flatten(w) + rest) == Answer(w, rest)
  {
    match w
    case WInt(neg, wd, n) => ReadInt(neg, wd, n, rest);
    case WSimple(wd, code) => ReadSimple(wd, code, rest);
    case WFloat(payload) => ReadFloat(payload, rest);
  }

  // ---------- Items ----------

  lemma ExpectGroup(isMap: bool, r: Option<seq<Value>>, library: bool, rest: seq<byte>, count: nat, read: nat)
    requires library ==> r.None?
    ensures AsGroup(isMap, Expect(r, library, rest, count), read) ==
            Expect(Grouped(isMap, r), library, rest, read + count)
  {
  }

  lemma ExpectTag(num: nat, r: Option<Value>, library: bool, rest: seq<byte>, count: nat, read: nat)
    ensures AsTag(Some(num), Expect(r, library, rest, count), read) ==
            Expect(if r.None? then None else Tagged(FromPython, num, r.value),
                   if r.None? then library else LibraryTag(num), rest, read + count)
  {
  }

  lemma ExpectBareTag(r: Option<Value>, library: bool, rest: seq<byte>, count: nat, read: nat)
    ensures AsTag(None, Expect(r, library, rest, count), read) ==
            Expect(if r.None? then None else Some(BareTag(r.value)), r.None? && library, rest, read + count)
  {
  }

  // What is said of items and of rows of items is sealed, each with a seal of its own.

  predicate ItemOpen(k: int) { true }

  predicate RowOpen(k: int) { true }

  /** What the decoder answers; sealed. */
  ghost predicate ItemIs(s: seq<byte>, r: PyParsed<Value>) {
    forall k {:trigger ItemOpen(k)} :: ItemOpen(k) ==> Item(s) == r
  }

  /**
    Completeness: on the bytes of any item, followed by anything, the Python decoder returns
    what its reading says and stops exactly behind the item; where there is no reading it
    raises, unless it comes to a call of `datetime` or `re`.
   */
  lemma ReadItem(w: DataItem, rest: seq<byte>)
    requires Readable(w)
    ensures Item(Flatten(w) + rest) == Answer(w, rest)
  {
    Reads(w, rest);
    assert ItemOpen(0);
  }

  lemma {:induction false} Reads(w: DataItem, rest: seq<byte>)
    requires Readable(w)
    ensures ItemIs(Flatten(w) + rest, Answer(w, rest))
    decreases w, 1
  {
    match w
    case WStr(text, wd, data) => ReadStr(text, wd, data, rest);
    case WChunked(text, cs) => ReadChunked(text, cs, rest);
    case WGroup(_, _, _) => ReadGroup(w, rest);
    case WOpenGroup(_, _) => ReadOpenGroup(w, rest);
    case WTag(_, _, _) => ReadTag(w, rest);
    case _ => ReadLeaf(w, rest);
  }

  lemma {:induction false} ReadGroup(w: DataItem, rest: seq<byte>)
    requires Readable(w) && w.WGroup?
    ensures ItemIs(Flatten(w) + rest, Answer(w, rest))
    decreases w, 0
  {
    GroupBytes(w, rest);
    if w.w.Reserved? {
      ReadReserved(GroupType(w.isMap), w.w, Count(w.isMap, w.items), FlattenAll(w.items) + rest);
    } else {
      ReadItems(w.items, rest);
      GroupRead(w, FlattenAll(w.items) + rest, rest);
    }
  }

  lemma GroupRead(w: DataItem, tail: seq<byte>, rest: seq<byte>)
    requires Readable(w) && w.WGroup? && !w.w.Reserved?
    requires ItemsAre(tail, |w.items|, Answers(w.items, rest, CostAll(w.items)))
    ensures Item(HeadAt(GroupType(w.isMap), w.w, Count(w.isMap, w.items)) + tail) == Answer(w, rest)
  {
    GroupBody(w, tail, Answers(w.items, rest, CostAll(w.items)));
    ExpectGroup(w.isMap, MeaningAll(FromPython, w.items), CallsLibraryAll(w.items), rest, CostAll(w.items),
                1 + Follow(w.w));
  }

  /** A definite container whose items read as `r`. */
  lemma GroupBody(w: DataItem, tail: seq<byte>, r: PyParsed<seq<Value>>)
    requires Readable(w) && w.WGroup? && !w.w.Reserved? && ItemsAre(tail, |w.items|, r)
    ensures Item(HeadAt(GroupType(w.isMap), w.w, Count(w.isMap, w.items)) + tail) == AsGroup(w.isMap, r, 1 + Follow(w.w))
  {
    var t, n, read := GroupType(w.isMap), Count(w.isMap, w.items), 1 + Follow(w.w);
    var info := Info(w.w, n);
    calc {
      Item(HeadAt(t, w.w, n) + tail);
      { ReadHead(t, w.w, n, tail); }
      Body(TypeOr(t, info), Some(n), tail, read);
      { BodyOfGroup(w.isMap, info, Some(n), tail, read); }
      AsGroup(w.isMap, GroupItems(w.isMap, Some(n), tail), read);
      { assert (if w.isMap then 2 * n else n) == |w.items|; }
      AsGroup(w.isMap, Items(tail, |w.items|), read);
      { assert RowOpen(0); }
      AsGroup(w.isMap, r, read);
    }
  }

  lemma {:induction false} ReadBody(isMap: bool, items: seq<DataItem>, rest: seq<byte>)
    requires ReadableAll(items) && (isMap ==> |items| % 2 == 0)
    ensures GroupItems(isMap, None, FlattenAll(items) + ([BREAK] + rest)) ==
            Answers(items, rest, if isMap then CostPairs(items) else CostToBreak(items))
    decreases items, 2
  {
    if isMap {
      ReadPairsToBreak(items, Count(isMap, items), rest);
    } else {
      ReadItemsToBreak(items, rest);
    }
    assert RowOpen(0);
  }

  lemma {:induction false} ReadOpenGroup(w: DataItem, rest: seq<byte>)
    requires Readable(w) && w.WOpenGroup?
    ensures ItemIs(Flatten(w) + rest, Answer(w, rest))
    decreases w, 0
  {
    var t, tail := GroupType(w.isMap), FlattenAll(w.items) + ([BREAK] + rest);
    var all, library := MeaningAll(FromPython, w.items), CallsLibraryAll(w.items);
    var count := if w.isMap then CostPairs(w.items) else CostToBreak(w.items);
    calc {
      Item(Flatten(w) + rest);
      { OpenBytes(w, rest); }
      Item([TypeOr(t, VAR_FOLLOWS)] + tail);
      { ReadOpenHead(t, tail); }
      Body(TypeOr(t, VAR_FOLLOWS), None, tail, 1);
      { BodyOfGroup(w.isMap, VAR_FOLLOWS, None, tail, 1); }
      AsGroup(w.isMap, GroupItems(w.isMap, None, tail), 1);
      { ReadBody(w.isMap, w.items, rest); }
      AsGroup(w.isMap, Expect(all, library, rest, count), 1);
      { ExpectGroup(w.isMap, all, library, rest, count, 1); }
      Expect(Grouped(w.isMap, all), library, rest, 1 + count);
    }
  }

  lemma {:induction false} ReadTag(w: DataItem, rest: seq<byte>)
    requires Readable(w) && w.WTag?
    ensures ItemIs(Flatten(w) + rest, Answer(w, rest))
    decreases w, 0
  {
    var tail := Flatten(w.item) + rest;
    TagBytes(w, rest);
    if w.w.Reserved? && Definite(w.w) {
      ReservedTag(w, tail, rest);
    } else {
      Reads(w.item, rest);
      TagRead(w, tail, rest);
    }
  }

  lemma ReservedTag(w: DataItem, tail: seq<byte>, rest: seq<byte>)
    requires Readable(w) && w.WTag? && w.w.Reserved? && Definite(w.w)
    ensures ItemIs(HeadAt(TAG, w.w, w.num) + tail, Answer(w, rest))
  {
    ReadReserved(TAG, w.w, w.num, tail);
    assert Answer(w, rest) == Raises;
  }

  lemma TagRead(w: DataItem, tail: seq<byte>, rest: seq<byte>)
    requires Readable(w) && w.WTag? && (w.w.Reserved? ==> !Definite(w.w)) && ItemIs(tail, Answer(w.item, rest))
    ensures ItemIs(HeadAt(TAG, w.w, w.num) + tail, Answer(w, rest))
  {
    TagBody(w, tail, Meaning(FromPython, w.item), CallsLibrary(w.item), rest);
    TagMeans(w);
  }

  lemma TagMeans(w: DataItem)
    requires Readable(w) && w.WTag? && (w.w.Reserved? ==> !Definite(w.w))
    ensures Meaning(FromPython, w) == TagMeaning(w.w, w.num, Meaning(FromPython, w.item))
    ensures CallsLibrary(w) == TagCalls(w.w, w.num, Meaning(FromPython, w.item), CallsLibrary(w.item))
  {
  }

  /** The number of a tag head, or None for that of an indefinite length. */
  function TagNumber(wd: Width, num: nat): Option<nat> {
    if wd.Reserved? then None else Some(num)
  }

  /** What a tag makes of its content. */
  function TagMeaning(wd: Width, num: nat, m: Option<Value>): Option<Value> {
    if m.None? then None
    else if wd.Reserved? then Some(BareTag(m.value))
    else Tagged(FromPython, num, m.value)
  }

  function TagCalls(wd: Width, num: nat, m: Option<Value>, library: bool): bool {
    if m.Some? then !wd.Reserved? && LibraryTag(num) else library
  }

  lemma TagHead(wd: Width, num: nat, tail: seq<byte>, r: PyParsed<Value>)
    requires Spells(wd, num) && (wd.Reserved? ==> !Definite(wd)) && ItemIs(tail, r)
    ensures ItemIs(HeadAt(TAG, wd, num) + tail, AsTag(TagNumber(wd, num), r, 1 + Follow(wd)))
  {
    assert ItemOpen(0);
    if wd.Reserved? {
      VoidHead(TAG, num);
      ReadOpenHead(TAG, tail);
      BodyOfTag(VAR_FOLLOWS, None, tail, 1);
    } else {
      ReadHead(TAG, wd, num, tail);
      BodyOfTag(Info(wd, num), Some(num), tail, 1 + Follow(wd));
    }
  }

  /** A tag whose content reads as `m`. */
  lemma TagBody(w: DataItem, tail: seq<byte>, m: Option<Value>, library: bool, rest: seq<byte>)
    requires Readable(w) && w.WTag? && (w.w.Reserved? ==> !Definite(w.w))
    requires ItemIs(tail, Expect(m, library, rest, Cost(w.item)))
    ensures ItemIs(HeadAt(TAG, w.w, w.num) + tail,
                   Expect(TagMeaning(w.w, w.num, m), TagCalls(w.w, w.num, m, library), rest, Cost(w)))
  {
    var r := Expect(m, library, rest, Cost(w.item));
    TagHead(w.w, w.num, tail, r);
    TagOutcome(w.w, w.num, m, library, rest, Cost(w.item), r, Cost(w));
  }

  lemma TagOutcome(wd: Width, num: nat, m: Option<Value>, library: bool, rest: seq<byte>, c: nat,
                   r: PyParsed<Value>, all: nat)
    requires r == Expect(m, library, rest, c) && all == 1 + Follow(wd) + c
    ensures AsTag(TagNumber(wd, num), r, 1 + Follow(wd)) ==
            Expect(TagMeaning(wd, num, m), TagCalls(wd, num, m, library), rest, all)
  {
    if wd.Reserved? {
      ExpectBareTag(m, library, rest, c, 1);
    } else {
      ExpectTag(num, m, library, rest, c, 1 + Follow(wd));
    }
  }

  // ---------- Items in a row ----------

  /** Items that follow an item, with `extra` bytes counted twice. */
  function Then(first: PyParsed<Value>, r: PyParsed<seq<Value>>, extra: nat): PyParsed<seq<Value>> {
    if !first.Got? then Failed(first)
    else if !r.Got? then r
    else Got([first.value] + r.value, r.rest, extra + first.count + r.count)
  }

  lemma ThenExpect(first: Option<Value>, library: bool, more: seq<byte>, c: nat,
                   all: Option<seq<Value>>, libraries: bool, rest: seq<byte>, d: nat, extra: nat)
    ensures Then(Expect(first, library, more, c), Expect(all, libraries, rest, d), extra) ==
            Expect(Both(first, all), if first.None? then library else libraries, rest, extra + c + d)
  {
  }

  lemma ThenAnswers(ws: seq<DataItem>, more: seq<byte>, rest: seq<byte>, d: nat, extra: nat, all: nat)
    requires ws != [] && all == extra + Cost(ws[0]) + d
    ensures Then(Answer(ws[0], more), Answers(ws[1..], rest, d), extra) == Answers(ws, rest, all)
  {
    ThenExpect(Meaning(FromPython, ws[0]), CallsLibrary(ws[0]), more, Cost(ws[0]),
               MeaningAll(FromPython, ws[1..]), CallsLibraryAll(ws[1..]), rest, d, extra);
  }

  // Sealed forms of what the loops return, for the inductions below.

  ghost predicate ItemsAre(s: seq<byte>, n: nat, r: PyParsed<seq<Value>>) {
    forall k {:trigger RowOpen(k)} :: RowOpen(k) ==> Items(s, n) == r
  }

  ghost predicate ToBreakIs(s: seq<byte>, r: PyParsed<seq<Value>>) {
    forall k {:trigger RowOpen(k)} :: RowOpen(k) ==> ItemsToBreak(s) == r
  }

  ghost predicate PairsAre(s: seq<byte>, r: PyParsed<seq<Value>>) {
    forall k {:trigger RowOpen(k)} :: RowOpen(k) ==> PairsToBreak(s) == r
  }

  lemma ItemsEnd(s: seq<byte>)
    ensures ItemsAre(s, 0, Got([], s, 0))
  {
  }

  lemma ItemsThen(s: seq<byte>, n: nat, first: PyParsed<Value>, r: PyParsed<seq<Value>>)
    requires n > 0 && ItemIs(s, first) && (first.Got? ==> ItemsAre(first.rest, n - 1, r))
    ensures ItemsAre(s, n, Then(first, r, 0))
  {
    assert ItemOpen(0) && RowOpen(0);
  }

  lemma BreakEnd(rest: seq<byte>)
    ensures ToBreakIs([BREAK] + rest, Got([], rest, 1)) && PairsAre([BREAK] + rest, Got([], rest, 1))
  {
    assert ([BREAK] + rest)[1..] == rest;
  }

  lemma BreakThen(s: seq<byte>, first: PyParsed<Value>, r: PyParsed<seq<Value>>)
    requires s != [] && s[0] != BREAK && ItemIs(s, first) && (first.Got? ==> ToBreakIs(first.rest, r))
    ensures ToBreakIs(s, Then(first, r, 1))
  {
    assert ItemOpen(0) && RowOpen(0);
  }

  /** The first of a sequence of items. */
  lemma {:induction false} ReadFirst(ws: seq<DataItem>, tail: seq<byte>)
    requires ReadableAll(ws) && ws != []
    ensures ReadableAll(ws[1..])
    ensures var s, more := FlattenAll(ws) + tail, FlattenAll(ws[1..]) + tail;
            s != [] && s[0] != BREAK && ItemIs(s, Answer(ws[0], more))
    decreases ws, 0
  {
    FlattenAllBytes(ws, tail);
    NoBreak(ws[0]);
    Reads(ws[0], FlattenAll(ws[1..]) + tail);
  }

  lemma {:induction false} ReadItems(ws: seq<DataItem>, rest: seq<byte>)
    requires ReadableAll(ws)
    ensures ItemsAre(FlattenAll(ws) + rest, |ws|, Answers(ws, rest, CostAll(ws)))
    decreases ws, 1
  {
    if ws == [] {
      assert FlattenAll(ws) + rest == rest;
      ItemsEnd(rest);
    } else {
      var more, d := FlattenAll(ws[1..]) + rest, CostAll(ws[1..]);
      ReadFirst(ws, rest);
      ReadItems(ws[1..], rest);
      ItemsThen(FlattenAll(ws) + rest, |ws|, Answer(ws[0], more), Answers(ws[1..], rest, d));
      ThenAnswers(ws, more, rest, d, 0, CostAll(ws));
    }
  }

  lemma {:induction false} ReadItemsToBreak(ws: seq<DataItem>, rest: seq<byte>)
    requires ReadableAll(ws)
    ensures ToBreakIs(FlattenAll(ws) + ([BREAK] + rest), Answers(ws, rest, CostToBreak(ws)))
    decreases ws, 1
  {
    var tail := [BREAK] + rest;
    if ws == [] {
      assert FlattenAll(ws) + tail == tail;
      BreakEnd(rest);
    } else {
      var more, d := FlattenAll(ws[1..]) + tail, CostToBreak(ws[1..]);
      ReadFirst(ws, tail);
      ReadItemsToBreak(ws[1..], rest);
      BreakThen(FlattenAll(ws) + tail, Answer(ws[0], more), Answers(ws[1..], rest, d));
      ThenAnswers(ws, more, rest, d, 1, CostToBreak(ws));
    }
  }

  lemma PairsStep(s: seq<byte>)
    requires s != [] && s[0] != BREAK
    ensures var kv := PairAt(s);
            if !kv.Got? then PairsToBreak(s) == Failed(kv)
            else
              var r := PairsToBreak(kv.rest);
              PairsToBreak(s) ==
              if r.Got? then Got([kv.value.0, kv.value.1] + r.value, r.rest, 1 + kv.count + r.count) else r
  {
  }

  lemma PairThen(k: PyParsed<Value>, v: PyParsed<Value>, r: PyParsed<seq<Value>>)
    requires k.Got? && v.Got? && r.Got?
    ensures Then(k, Then(v, r, 0), 1) == Got([k.value, v.value] + r.value, r.rest, 1 + (k.count + v.count) + r.count)
  {
    assert [k.value, v.value] + r.value == [k.value] + ([v.value] + r.value);
  }

  lemma PairsThen(s: seq<byte>, k: PyParsed<Value>, v: PyParsed<Value>, r: PyParsed<seq<Value>>)
    requires s != [] && s[0] != BREAK && ItemIs(s, k)
    requires k.Got? ==> ItemIs(k.rest, v)
    requires k.Got? && v.Got? ==> PairsAre(v.rest, r)
    ensures PairsAre(s, Then(k, Then(v, r, 0), 1))
  {
    assert ItemOpen(0) && RowOpen(0);
    PairsStep(s);
    if k.Got? && v.Got? && r.Got? {
      PairThen(k, v, r);
    }
  }

  lemma {:induction false} ReadPairsToBreak(ws: seq<DataItem>, n: nat, rest: seq<byte>)
    requires ReadableAll(ws) && |ws| == 2 * n
    ensures PairsAre(FlattenAll(ws) + ([BREAK] + rest), Answers(ws, rest, CostPairs(ws)))
    decreases ws, 1
  {
    var tail := [BREAK] + rest;
    if n == 0 {
      assert FlattenAll(ws) + tail == tail;
      BreakEnd(rest);
    } else {
      var us, vs := ws[1..], ws[2..];
      assert us[1..] == vs;
      var s1, s2, d := FlattenAll(us) + tail, FlattenAll(vs) + tail, CostPairs(vs);
      ReadFirst(ws, tail);
      ReadFirst(us, tail);
      ReadPairsToBreak(vs, n - 1, rest);
      PairsThen(FlattenAll(ws) + tail, Answer(ws[0], s1), Answer(us[0], s2), Answers(vs, rest, d));
      PairAnswers(ws, us, s1, s2, rest, d, Cost(us[0]) + d, CostPairs(ws));
    }
  }

  lemma PairAnswers(ws: seq<DataItem>, us: seq<DataItem>, s1: seq<byte>, s2: seq<byte>, rest: seq<byte>,
                    d: nat, e: nat, all: nat)
    requires |ws| >= 2 && us == ws[1..] && e == Cost(us[0]) + d && all == 1 + Cost(ws[0]) + e
    ensures Then(Answer(ws[0], s1), Then(Answer(us[0], s2), Answers(us[1..], rest, d), 0), 1) ==
            Answers(ws, rest, all)
  {
    ThenAnswers(us, s2, rest, d, 0, e);
    ThenAnswers(ws, s1, rest, e, 1, all);
  }

  predicate NoOpenGroup(w: DataItem) {
    match w
    case WGroup(_, _, items) => forall i :: 0 <= i < |items| ==> NoOpenGroup(items[i])
    case WOpenGroup(_, items) => items == []
    case WTag(_, _, item) => NoOpenGroup(item)
    case _ => true
  }

  /** The count is right exactly where no indefinite container has elements. */
  lemma {:induction false} ExcessZero(w: DataItem)
    requires Readable(w)
    ensures Excess(w) == 0 <==> NoOpenGroup(w)
    decreases w
  {
    match w
    case WGroup(_, _, items) => ExcessZeroAll(items);
    case WOpenGroup(_, items) => ExcessZeroAll(items);
    case WTag(_, _, item) => ExcessZero(item);
    case _ =>
  }

  lemma {:induction false} ExcessZeroAll(ws: seq<DataItem>)
    requires ReadableAll(ws)
    ensures ExcessAll(ws) == 0 <==> forall i :: 0 <= i < |ws| ==> NoOpenGroup(ws[i])
    decreases ws
  {
    if ws != [] {
      ExcessZero(ws[0]);
      ExcessZeroAll(ws[1..]);
      assert forall i :: 1 <= i < |ws| ==> ws[i] == ws[1..][i - 1];
      assert forall i :: 0 <= i < |ws[1..]| ==> ws[1..][i] == ws[i + 1];
    }
  }

  /** The byte-count law: what the decoder reports is what it read, plus the excess. */
  lemma {:induction false} CostLaw(w: DataItem)
    requires Readable(w)
    ensures Cost(w) == |Flatten(w)| + Excess(w)
    decreases w
  {
    match w
    case WChunked(text, cs) => CostLawChunks(text, cs);
    case WGroup(_, _, items) => CostLawAll(items);
    case WOpenGroup(isMap, items) =>
      if isMap { CostLawPairs(items, Count(isMap, items)); } else { CostLawToBreak(items); }
    case WTag(_, _, item) => CostLaw(item);
    case _ =>
  }

  lemma {:induction false} CostLawToBreak(ws: seq<DataItem>)
    requires ReadableAll(ws)
    ensures CostToBreak(ws) == |FlattenAll(ws)| + ExcessAll(ws) + |ws| + 1
    decreases ws
  {
    if ws != [] {
      CostLaw(ws[0]);
      CostLawToBreak(ws[1..]);
    }
  }

  lemma {:induction false} CostLawPairs(ws: seq<DataItem>, n: nat)
    requires ReadableAll(ws) && |ws| == 2 * n
    ensures CostPairs(ws) == |FlattenAll(ws)| + ExcessAll(ws) + n + 1
    decreases ws
  {
    if n > 0 {
      CostLaw(ws[0]);
      CostLaw(ws[1]);
      CostLawPairs(ws[2..], n - 1);
      assert ws[1..][1..] == ws[2..];
    }
  }

  lemma {:induction false} CostLawAll(ws: seq<DataItem>)
    requires ReadableAll(ws)
    ensures CostAll(ws) == |FlattenAll(ws)| + ExcessAll(ws)
    decreases ws
  {
    if ws != [] {
      CostLaw(ws[0]);
      CostLawAll(ws[1..]);
    }
  }

  lemma {:induction false} CostLawChunks(text: bool, cs: seq<Chunk>)
    requires ChunksReadable(text, cs)
    ensures CostChunks(cs) == |FlattenChunks(text, cs)|
    decreases cs
  {
    if cs != [] {
      if cs[0].Nest? {
        CostLawChunks(text, cs[0].chunks);
      }
      CostLawChunks(text, cs[1..]);
    }
  }
}
