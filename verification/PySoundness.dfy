/**
  The Python decoder on arbitrary bytes: from exactly which ones it returns an object of
  this model.  They are the items
  that mean something to it, whole or without the end of their last string; besides the
  well-formed ones it knows integers and tags that have no number.
 */
module PySoundness {
  import opened Prelude
  import opened BigEndian
  import opened Values
  import opened Floats
  import opened Wire
  import opened PyGrammar
  import opened PyCompleteness
  import opened PyTruncation
  import C = CGrammar

  /** The bytes left over end the input. */
  predicate Ends(s: seq<byte>, rest: seq<byte>) {
    |rest| <= |s| && s[|s| - |rest|..] == rest
  }

  lemma EndsTwice(s: seq<byte>, t: seq<byte>, u: seq<byte>)
    requires Ends(s, t) && Ends(t, u)
    ensures Ends(s, u)
  {
  }

  lemma EndsBehind(x: seq<byte>, rest: seq<byte>)
    ensures Ends(x + rest, rest)
  {
  }

  /**
    `r` is the reading of the bytes `s` as the item `w`, whose last bytes `q` are missing;
    then nothing is left over.
   */
  ghost predicate Explains(w: DataItem, q: seq<byte>, s: seq<byte>, r: PyParsed<Value>) {
    && r.Got? && Ends(s, r.rest) && |r.rest| < |s|
    && Readable(w) && |q| <= Trailing(w) && (q != [] ==> r.rest == [])
    && s + q == Flatten(w) + r.rest
    && CutMeaning(w, |q|) == Some(r.value) && r.count == Cost(w)
  }

  /** The same for `n` items in a row. */
  ghost predicate ExplainsAll(ws: seq<DataItem>, q: seq<byte>, s: seq<byte>, r: PyParsed<seq<Value>>) {
    && r.Got? && Ends(s, r.rest) && |ws| + |r.rest| <= |s|
    && ReadableAll(ws) && |q| <= TrailingAll(ws) && (q != [] ==> r.rest == [])
    && s + q == FlattenAll(ws) + r.rest
    && CutMeaningAll(ws, |q|) == Some(r.value) && r.count == CostAll(ws)
  }

  /** Items up to a break, of which nothing is missing. */
  ghost predicate ExplainsOpen(ws: seq<DataItem>, s: seq<byte>, r: PyParsed<seq<Value>>, cost: nat) {
    && r.Got? && Ends(s, r.rest)
    && ReadableAll(ws) && s == FlattenAll(ws) + ([BREAK] + r.rest)
    && MeaningAll(FromPython, ws) == Some(r.value) && r.count == cost
  }

  // ---------- Cutting nothing ----------

  lemma {:induction false} ClipNothing(w: DataItem)
    ensures CutMeaning(w, 0) == Meaning(FromPython, w) && Clip(w, 0) == w
    decreases w
  {
    match w
    case WStr(_, _, data) => assert data[..|data|] == data;
    case WGroup(_, _, items) => ClipNothingAll(items);
    case WTag(_, _, item) => ClipNothing(item);
    case _ =>
  }

  lemma {:induction false} ClipNothingAll(ws: seq<DataItem>)
    ensures ClipAll(ws, 0) == ws && CutMeaningAll(ws, 0) == MeaningAll(FromPython, ws)
    decreases ws
  {
    if |ws| == 1 {
      ClipNothing(ws[0]);
    } else if ws != [] {
      ClipNothingAll(ws[1..]);
    }
  }

  // ---------- Heads ----------

  lemma TakenBytes(s: seq<byte>, k: nat)
    requires k <= |s|
    ensures FromBE(s[..k]) < Pow256(k) && ToBE(FromBE(s[..k]), k) == s[..k]
  {
    FromBEBound(s[..k]);
    FromBEInverse(s[..k]);
  }

  /** What the bytes behind a first byte say. */
  lemma NumberOf(tb: byte, s: seq<byte>)
    requires TagAux(tb, s).Got? && TagAux(tb, s).value.Some?
    ensures InfoBits(tb) <= UINT64_FOLLOWS
    ensures var info, k := InfoBits(tb), Follow(WidthOf(InfoBits(tb)));
            && k <= |s|
            && TagAux(tb, s) == Got(Some(if info <= 23 then info as nat else FromBE(s[..k])), s[k..], 1 + k)
  {
  }

  lemma WidthFits(info: byte, n: nat)
    requires info <= UINT64_FOLLOWS && (if info <= 23 then n == info else n < Pow256(Follow(WidthOf(info))))
    ensures Fits(WidthOf(info), n) && Info(WidthOf(info), n) == info
  {
    Powers();
  }

  /** A head with a number is one of the five widths. */
  lemma HeadOf(tb: byte, s: seq<byte>)
    requires TagAux(tb, s).Got? && TagAux(tb, s).value.Some?
    ensures var r, w := TagAux(tb, s), WidthOf(InfoBits(tb));
            var n := r.value.value;
            && Fits(w, n) && Info(w, n) == InfoBits(tb) && r.count == 1 + Follow(w)
            && [tb] + s == HeadAt(TypeBits(tb), w, n) + r.rest && Ends(s, r.rest)
  {
    var t, info, r := TypeBits(tb), InfoBits(tb), TagAux(tb, s);
    var n, w := r.value.value, WidthOf(info);
    var k := Follow(w);
    NumberOf(tb, s);
    TakenBytes(s, k);
    WidthFits(info, n);
    HeadIs(tb, w, n, s[..k]);
    assert s == s[..k] + s[k..];
    Assoc([tb], s[..k], s[k..]);
    EndsBehind(s[..k], s[k..]);
  }

  lemma HeadIs(tb: byte, w: Width, n: nat, digits: seq<byte>)
    requires Fits(w, n) && Info(w, n) == InfoBits(tb) && |digits| == Follow(w)
    requires w.Imm? || digits == ToBE(n, Follow(w))
    ensures HeadAt(TypeBits(tb), w, n) == [tb] + digits
  {
    assert tb == TypeOr(TypeBits(tb), InfoBits(tb));
    if w.Imm? {
      assert digits == [] && ToBE(n, 0) == [];
    }
  }

  /** `Explains` for what follows a head that is no longer part of `s`. */
  ghost predicate Behind(w: DataItem, q: seq<byte>, head: seq<byte>, s: seq<byte>, r: PyParsed<Value>) {
    && r.Got? && Ends(s, r.rest)
    && Readable(w) && |q| <= Trailing(w) && (q != [] ==> r.rest == [])
    && head + (s + q) == Flatten(w) + r.rest
    && CutMeaning(w, |q|) == Some(r.value) && r.count == Cost(w)
  }

  predicate BehindOpen(k: int) { true }

  /** The same, sealed. */
  ghost predicate ExplainsBehind(w: DataItem, q: seq<byte>, head: seq<byte>, s: seq<byte>, r: PyParsed<Value>) {
    forall k {:trigger BehindOpen(k)} :: BehindOpen(k) ==> Behind(w, q, head, s, r)
  }

  /** An item of which nothing is missing. */
  lemma Whole(w: DataItem, head: seq<byte>, s: seq<byte>, r: PyParsed<Value>)
    requires r.Got? && Ends(s, r.rest) && Readable(w) && head + s == Flatten(w) + r.rest
    requires Meaning(FromPython, w) == Some(r.value) && r.count == Cost(w)
    ensures ExplainsBehind(w, [], head, s, r)
  {
    ClipNothing(w);
    assert s + [] == s;
  }

  /** A head and what follows it. */
  predicate HeadOpen(k: int) { true }

  /** The first byte and what follows it are a head and what follows that; sealed. */
  ghost predicate Heads(tb: byte, s: seq<byte>, head: seq<byte>, tail: seq<byte>) {
    && |tail| <= |s|
    && forall k {:trigger HeadOpen(k)} :: HeadOpen(k) ==> [tb] + s == head + tail && Ends(s, tail)
  }

  lemma HeadFound(tb: byte, s: seq<byte>) returns (head: seq<byte>)
    requires TagAux(tb, s).Got? && TagAux(tb, s).value.Some?
    ensures var r := TagAux(tb, s);
            Announces(tb, WidthOf(InfoBits(tb)), r.value.value, head, r.count) && Heads(tb, s, head, r.rest)
  {
    HeadOf(tb, s);
    head := HeadAt(TypeBits(tb), WidthOf(InfoBits(tb)), TagAux(tb, s).value.value);
  }

  lemma Headed(w: DataItem, q: seq<byte>, tb: byte, s: seq<byte>, head: seq<byte>, tail: seq<byte>, r: PyParsed<Value>)
    requires ExplainsBehind(w, q, head, tail, r) && Heads(tb, s, head, tail)
    ensures ExplainsBehind(w, q, [tb], s, r)
  {
    assert HeadOpen(0);
    assert Behind(w, q, head, tail, r) by { assert BehindOpen(0); }
    Assoc([tb], s, q);
    Assoc(head, tail, q);
    EndsTwice(s, tail, r.rest);
  }

  // ---------- Strings ----------

  function StringOf(text: bool, r: PyParsed<seq<byte>>, read: nat): PyParsed<Value> {
    if text then AsText(r, read) else AsBytes(r, read)
  }

  lemma StringCut(text: bool, wd: Width, d: seq<byte>, q: seq<byte>)
    requires |d| + |q| < MAX_LENGTH && Fits(wd, |d| + |q|)
    ensures var w := WStr(text, wd, d + q);
            && Readable(w) && Trailing(w) == |d| + |q| && Cost(w) == 1 + Follow(wd) + (|d| + |q|)
            && CutMeaning(w, |q|) == (if text then TextOf(d) else Some(Bytes(d)))
            && Flatten(w) == HeadAt(StrType(text), wd, |d| + |q|) + (d + q)
  {
    assert (d + q)[..|d|] == d;
  }

  /** A definite string; what is missing of it is made up. */
  lemma ExplainsString(tb: byte, text: bool, wd: Width, n: nat, s: seq<byte>, r: PyParsed<Value>)
    returns (w: DataItem, q: seq<byte>)
    requires TypeBits(tb) == StrType(text) && Fits(wd, n) && BodyIs(tb, Some(n), s, 1 + Follow(wd), r)
    ensures ExplainsBehind(w, q, HeadAt(StrType(text), wd, n), s, r)
  {
    var read := 1 + Follow(wd);
    assert r == StringOf(text, LoadsBytes(StrType(text), Some(n), s), read) by {
      assert C.Unsealed(0);
      assert tb == TypeOr(StrType(text), InfoBits(tb));
      BodyOfString(text, InfoBits(tb), Some(n), s, read);
    }
    var k := Upto(s, n);
    var d, rest := s[..k], s[k..];
    q := seq(n - k, _ => 0);
    w := WStr(text, wd, d + q);
    assert s == d + rest;
    assert LoadsBytes(StrType(text), Some(n), s) == Got(d, rest, |d| + |q|);
    StringBehind(text, wd, d, q, rest, r);
  }

  lemma CutStringBytes(head: seq<byte>, d: seq<byte>, q: seq<byte>, rest: seq<byte>)
    requires q != [] ==> rest == []
    ensures head + (d + rest + q) == head + (d + q) + rest
  {
    if q != [] {
      assert d + rest == d;
    } else {
      assert d + rest + q == d + q + rest;
    }
    Assoc(head, d + q, rest);
  }

  lemma StringBehind(text: bool, wd: Width, d: seq<byte>, q: seq<byte>, rest: seq<byte>, r: PyParsed<Value>)
    requires |d| + |q| < MAX_LENGTH && Fits(wd, |d| + |q|) && (q != [] ==> rest == [])
    requires r.Got? && r == StringOf(text, Got(d, rest, |d| + |q|), 1 + Follow(wd))
    ensures ExplainsBehind(WStr(text, wd, d + q), q, HeadAt(StrType(text), wd, |d| + |q|), d + rest, r)
  {
    StringCut(text, wd, d, q);
    CutStringBytes(HeadAt(StrType(text), wd, |d| + |q|), d, q, rest);
    EndsBehind(d, rest);
  }

  lemma ExplainsChunk(text: bool, tb: byte, s: seq<byte>) returns (c: Chunk)
    requires ChunkAt(StrType(text), tb, s).Got? && ChunkAt(StrType(text), tb, s).rest != []
    ensures var r := ChunkAt(StrType(text), tb, s);
            && ChunkReadable(text, c) && Plain([c]) && JoinedChunk(c) == r.value && r.count == CostChunk(c)
            && [tb] + s == FlattenChunk(text, c) + r.rest && Ends(s, r.rest)
  {
    ChunkWhole(StrType(text), tb, s);
    HeadOf(tb, s);
    var n, s1 := TagAux(tb, s).value.value, TagAux(tb, s).rest;
    c := Chunk(WidthOf(InfoBits(tb)), s1[..n]);
    var head := HeadAt(StrType(text), c.w, n);
    assert s1 == s1[..n] + s1[n..];
    Assoc(head, s1[..n], s1[n..]);
    EndsBehind(s1[..n], s1[n..]);
    EndsTwice(s, s1, s1[n..]);
  }

  /** A chunk with something behind it has all of its bytes. */
  lemma ChunkWhole(t: byte, tb: byte, s: seq<byte>)
    requires ChunkAt(t, tb, s).Got? && ChunkAt(t, tb, s).rest != []
    ensures var aux := TagAux(tb, s);
            && aux.Got? && aux.value.Some? && TypeBits(tb) == t
            && aux.value.value < MAX_LENGTH && aux.value.value <= |aux.rest|
            && ChunkAt(t, tb, s) ==
               Got(aux.rest[..aux.value.value], aux.rest[aux.value.value..], aux.count + aux.value.value)
  {
    var aux := TagAux(tb, s);
    assert aux.rest[Upto(aux.rest, aux.value.value)..] != [];
  }

  lemma {:induction false} ExplainsChunks(text: bool, s: seq<byte>) returns (cs: seq<Chunk>)
    requires Chunks(StrType(text), s).Got?
    ensures var r := Chunks(StrType(text), s);
            && ChunksReadable(text, cs) && Plain(cs) && Joined(cs) == r.value && r.count == CostChunks(cs) + 1
            && s == FlattenChunks(text, cs) + ([BREAK] + r.rest) && Ends(s, r.rest)
    decreases |s|
  {
    var t := StrType(text);
    if s[0] == BREAK {
      cs := [];
      assert s == [] + ([BREAK] + s[1..]);
    } else {
      var r := ChunkAt(t, s[0], s[1..]);
      ChunksOf(t, s);
      var c := ExplainsChunk(text, s[0], s[1..]);
      var more := ExplainsChunks(text, r.rest);
      assert s == [s[0]] + s[1..];
      ChunksCons(text, c, more, s, r.rest, Chunks(t, r.rest).rest);
      cs := [c] + more;
    }
  }

  lemma ChunksOf(t: byte, s: seq<byte>)
    requires Chunks(t, s).Got? && s[0] != BREAK
    ensures var r := ChunkAt(t, s[0], s[1..]);
            r.Got? && r.rest != [] && Chunks(t, r.rest).Got?
    ensures var r := ChunkAt(t, s[0], s[1..]);
            var more := Chunks(t, r.rest);
            Chunks(t, s) == Got(r.value + more.value, more.rest, r.count + more.count)
  {
  }

  lemma ChunksCons(text: bool, c: Chunk, cs: seq<Chunk>, s: seq<byte>, s1: seq<byte>, rest: seq<byte>)
    requires ChunkReadable(text, c) && ChunksReadable(text, cs)
    requires Plain([c]) && Plain(cs)
    requires s == FlattenChunk(text, c) + s1 && s1 == FlattenChunks(text, cs) + ([BREAK] + rest)
    ensures ChunksReadable(text, [c] + cs) && Plain([c] + cs)
    ensures Joined([c] + cs) == JoinedChunk(c) + Joined(cs)
    ensures CostChunks([c] + cs) == CostChunk(c) + CostChunks(cs)
    ensures s == FlattenChunks(text, [c] + cs) + ([BREAK] + rest) && Ends(s, rest)
  {
    FlattenChunksCons(text, c, cs);
    PlainCons([c] + cs);
    assert ([c] + cs)[1..] == cs;
    Assoc(FlattenChunk(text, c), FlattenChunks(text, cs), [BREAK] + rest);
    assert s == (FlattenChunks(text, [c] + cs) + [BREAK]) + rest;
    EndsBehind(FlattenChunks(text, [c] + cs) + [BREAK], rest);
  }

  lemma ExplainsChunked(tb: byte, text: bool, s: seq<byte>, r: PyParsed<Value>) returns (w: DataItem)
    requires tb == TypeOr(StrType(text), VAR_FOLLOWS) && BodyIs(tb, None, s, 1, r)
    ensures ExplainsBehind(w, [], [tb], s, r)
  {
    assert r == StringOf(text, Chunks(StrType(text), s), 1) by {
      assert C.Unsealed(0);
      BodyOfString(text, VAR_FOLLOWS, None, s, 1);
    }
    var cs := ExplainsChunks(text, s);
    w := WChunked(text, cs);
    ChunkedBytes(text, cs, r.rest);
    Whole(w, [tb], s, r);
  }

  // ---------- Items ----------

  /**
    Everything from which the Python decoder returns an object of this model is an item, up to the missing end of its last
    string; the value is what the item means without that end, and the count reported is
    that of the whole item.
   */
  lemma {:induction false} ExplainsItem(s: seq<byte>) returns (w: DataItem, q: seq<byte>)
    requires Item(s).Got?
    ensures Explains(w, q, s, Item(s))
    decreases |s|, 1
  {
    w, q := ExplainsAfter(s[0], s[1..], Item(s));
    assert BehindOpen(0);
    Assoc([s[0]], s[1..], q);
    assert [s[0]] + s[1..] == s;
  }

  /** The outcome `r` behind a first byte, sealed. */
  ghost predicate AfterIs(tb: byte, s: seq<byte>, r: PyParsed<Value>) {
    r.Got? && forall k {:trigger C.Unsealed(k)} :: C.Unsealed(k) ==> ItemAfter(tb, s) == r
  }

  predicate FloatByte(tb: byte) {
    TypeBits(tb) == SEVEN && UINT16_FOLLOWS <= InfoBits(tb) <= UINT64_FOLLOWS
  }

  lemma AfterHead(tb: byte, s: seq<byte>, r: PyParsed<Value>)
    requires !FloatByte(tb) && AfterIs(tb, s, r)
    ensures var aux := TagAux(tb, s); aux.Got? && BodyIs(tb, aux.value, aux.rest, aux.count, r)
  {
    assert C.Unsealed(0);
  }

  lemma {:induction false} ExplainsAfter(tb: byte, s: seq<byte>, r: PyParsed<Value>)
    returns (w: DataItem, q: seq<byte>)
    requires AfterIs(tb, s, r)
    ensures ExplainsBehind(w, q, [tb], s, r)
    decreases |s| + 1, 0
  {
    q := [];
    if FloatByte(tb) {
      w := ExplainsFloat(tb, s, r);
    } else {
      AfterHead(tb, s, r);
      var aux := TagAux(tb, s);
      if aux.value.Some? {
        var head := HeadFound(tb, s);
        w, q := ExplainsNumbered(tb, WidthOf(InfoBits(tb)), aux.value.value, head, aux.count, aux.rest, s, r);
      } else {
        NumberMissing(tb, s);
        w, q := ExplainsOpenBody(tb, s, r);
      }
    }
  }

  lemma {:induction false} ExplainsNumbered(tb: byte, wd: Width, n: nat, head: seq<byte>, read: nat, tail: seq<byte>,
                                            s: seq<byte>, r: PyParsed<Value>)
    returns (w: DataItem, q: seq<byte>)
    requires Announces(tb, wd, n, head, read) && Heads(tb, s, head, tail) && BodyIs(tb, Some(n), tail, read, r)
    ensures ExplainsBehind(w, q, [tb], s, r)
    decreases |s|, 7
  {
    w, q := BodyBehind(tb, wd, n, head, read, tail, r);
    Headed(w, q, tb, s, head, tail, r);
  }

  /** The head that starts with the byte `tb`; sealed. */
  ghost predicate Announces(tb: byte, wd: Width, n: nat, head: seq<byte>, read: nat) {
    forall k {:trigger HeadOpen(k)} :: HeadOpen(k) ==>
      Fits(wd, n) && Info(wd, n) == InfoBits(tb) && head == HeadAt(TypeBits(tb), wd, n) && read == 1 + Follow(wd)
  }

  lemma {:induction false} BodyBehind(tb: byte, wd: Width, n: nat, head: seq<byte>, read: nat, tail: seq<byte>,
                                      r: PyParsed<Value>)
    returns (w: DataItem, q: seq<byte>)
    requires Announces(tb, wd, n, head, read) && BodyIs(tb, Some(n), tail, read, r)
    ensures ExplainsBehind(w, q, head, tail, r)
    decreases |tail|, 6
  {
    assert HeadOpen(0);
    w, q := ExplainsBody(tb, wd, n, tail, r);
  }

  lemma NumberMissing(tb: byte, s: seq<byte>)
    requires TagAux(tb, s).Got? && TagAux(tb, s).value.None?
    ensures TagAux(tb, s) == Got(None, s, 1) && InfoBits(tb) == VAR_FOLLOWS
  {
  }

  lemma ExplainsFloat(tb: byte, s: seq<byte>, r: PyParsed<Value>) returns (w: DataItem)
    requires FloatByte(tb) && AfterIs(tb, s, r)
    ensures ExplainsBehind(w, [], [tb], s, r)
  {
    assert r == FloatAfter(tb, s) by { assert C.Unsealed(0); }
    var k := |s| - |r.rest|;
    w := WFloat(s[..k]);
    assert s == s[..k] + s[k..] && tb == FloatHead(s[..k]);
    Assoc([tb], s[..k], s[k..]);
    Whole(w, [tb], s, r);
  }

  /** The outcome `r` of the branches over the major type, sealed. */
  ghost predicate BodyIs(tb: byte, aux: Option<nat>, s: seq<byte>, read: nat, r: PyParsed<Value>) {
    r.Got? && forall k {:trigger C.Unsealed(k)} :: C.Unsealed(k) ==> Body(tb, aux, s, read) == r
  }

  /** The item whose head has the number `n`. */
  lemma {:induction false} ExplainsBody(tb: byte, wd: Width, n: nat, s: seq<byte>, r: PyParsed<Value>)
    returns (w: DataItem, q: seq<byte>)
    requires Fits(wd, n) && Info(wd, n) == InfoBits(tb)
    requires BodyIs(tb, Some(n), s, 1 + Follow(wd), r)
    ensures ExplainsBehind(w, q, HeadAt(TypeBits(tb), wd, n), s, r)
    decreases |s|, 5
  {
    var t := TypeBits(tb);
    q := [];
    if t == UINT || t == NEGINT {
      w := ExplainsInt(tb, wd, n, s, r);
    } else if t == BYTES || t == TEXT {
      w, q := ExplainsString(tb, t == TEXT, wd, n, s, r);
    } else if t == ARRAY || t == MAP {
      w, q := ExplainsGroup(tb, t == MAP, wd, n, s, r);
    } else if t == TAG {
      w, q := ExplainsTag(tb, wd, n, s, r);
    } else {
      w := ExplainsSimple(tb, wd, n, s, r);
    }
  }

  lemma ExplainsInt(tb: byte, wd: Width, n: nat, s: seq<byte>, r: PyParsed<Value>) returns (w: DataItem)
    requires Fits(wd, n) && (TypeBits(tb) == UINT || TypeBits(tb) == NEGINT)
    requires BodyIs(tb, Some(n), s, 1 + Follow(wd), r)
    ensures ExplainsBehind(w, [], HeadAt(TypeBits(tb), wd, n), s, r)
  {
    assert r == Got(Int(if TypeBits(tb) == NEGINT then -1 - n else n), s, 1 + Follow(wd)) by { assert C.Unsealed(0); }
    w := WInt(TypeBits(tb) == NEGINT, wd, n);
    Whole(w, HeadAt(TypeBits(tb), wd, n), s, r);
  }

  lemma SimpleCode(tb: byte, aux: Option<nat>, s: seq<byte>, read: nat)
    requires TypeBits(tb) == SEVEN && Body(tb, aux, s, read).Got?
    ensures 20 <= InfoBits(tb) <= 23 && Body(tb, aux, s, read) == Expect(SimpleOf(InfoBits(tb)), false, s, read)
  {
  }

  lemma ExplainsSimple(tb: byte, wd: Width, n: nat, s: seq<byte>, r: PyParsed<Value>) returns (w: DataItem)
    requires TypeBits(tb) == SEVEN && Fits(wd, n) && Info(wd, n) == InfoBits(tb)
    requires BodyIs(tb, Some(n), s, 1 + Follow(wd), r)
    ensures ExplainsBehind(w, [], HeadAt(SEVEN, wd, n), s, r)
  {
    assert wd == Imm && r == Expect(SimpleOf(n), false, s, 1) && 20 <= n <= 23 by {
      assert C.Unsealed(0);
      SimpleCode(tb, Some(n), s, 1 + Follow(wd));
    }
    w := WSimple(Imm, n);
    Whole(w, HeadAt(SEVEN, wd, n), s, r);
  }

  lemma {:induction false} ExplainsGroup(tb: byte, isMap: bool, wd: Width, n: nat, s: seq<byte>, r: PyParsed<Value>)
    returns (w: DataItem, q: seq<byte>)
    requires TypeBits(tb) == GroupType(isMap) && Fits(wd, n)
    requires BodyIs(tb, Some(n), s, 1 + Follow(wd), r)
    ensures ExplainsBehind(w, q, HeadAt(GroupType(isMap), wd, n), s, r)
    decreases |s|, 3
  {
    var k := if isMap then 2 * n else n;
    assert r == AsGroup(isMap, Items(s, k), 1 + Follow(wd)) by {
      assert C.Unsealed(0);
      assert tb == TypeOr(GroupType(isMap), InfoBits(tb));
      BodyOfGroup(isMap, InfoBits(tb), Some(n), s, 1 + Follow(wd));
    }
    var ws;
    ws, q := ExplainsItems(s, k);
    w := WGroup(isMap, wd, ws);
    assert Count(isMap, ws) == n;
    GroupBehind(isMap, wd, ws, q, s, Items(s, k));
  }

  lemma GroupBehind(isMap: bool, wd: Width, ws: seq<DataItem>, q: seq<byte>, s: seq<byte>, r: PyParsed<seq<Value>>)
    requires ExplainsAll(ws, q, s, r) && (isMap ==> |ws| % 2 == 0) && Fits(wd, Count(isMap, ws))
    requires AsGroup(isMap, r, 1 + Follow(wd)).Got?
    ensures ExplainsBehind(WGroup(isMap, wd, ws), q, HeadAt(GroupType(isMap), wd, Count(isMap, ws)), s,
                           AsGroup(isMap, r, 1 + Follow(wd)))
  {
    var w, head := WGroup(isMap, wd, ws), HeadAt(GroupType(isMap), wd, Count(isMap, ws));
    Assoc(head, FlattenAll(ws), r.rest);
    assert Flatten(w) == head + FlattenAll(ws);
    CutGroupMeaning(w, |q|);
  }

  lemma {:induction false} ExplainsTag(tb: byte, wd: Width, num: nat, s: seq<byte>, r: PyParsed<Value>)
    returns (w: DataItem, q: seq<byte>)
    requires TypeBits(tb) == TAG && Fits(wd, num)
    requires BodyIs(tb, Some(num), s, 1 + Follow(wd), r)
    ensures ExplainsBehind(w, q, HeadAt(TAG, wd, num), s, r)
    decreases |s|, 3
  {
    assert r == AsTag(Some(num), Item(s), 1 + Follow(wd)) by {
      assert C.Unsealed(0);
      assert tb == TypeOr(TAG, InfoBits(tb));
      BodyOfTag(InfoBits(tb), Some(num), s, 1 + Follow(wd));
    }
    var item;
    item, q := ExplainsItem(s);
    w := WTag(wd, num, item);
    TagBehind(wd, num, item, q, s, Item(s), r);
  }

  /** A tag around an item, with or without a number. */
  lemma TagBehind(wd: Width, num: nat, item: DataItem, q: seq<byte>, s: seq<byte>, c: PyParsed<Value>, r: PyParsed<Value>)
    requires Spells(wd, num) && (wd.Reserved? ==> !Definite(wd)) && Explains(item, q, s, c)
    requires r == AsTag(TagNumber(wd, num), c, 1 + Follow(wd)) && r.Got?
    ensures ExplainsBehind(WTag(wd, num, item), q, HeadAt(TAG, wd, num), s, r)
  {
    var w, head := WTag(wd, num, item), HeadAt(TAG, wd, num);
    assert CutMeaning(w, |q|) == Some(r.value) by {
      CutTagMeaning(w, |q|);
    }
    assert head + (s + q) == Flatten(w) + r.rest by {
      TagBytes(w, c.rest);
    }
    assert r.count == Cost(w) && r.rest == c.rest && Readable(w) && Trailing(w) == Trailing(item);
  }

  /** The item whose head has no number. */
  lemma {:induction false} ExplainsOpenBody(tb: byte, s: seq<byte>, r: PyParsed<Value>)
    returns (w: DataItem, q: seq<byte>)
    requires InfoBits(tb) == VAR_FOLLOWS && BodyIs(tb, None, s, 1, r)
    ensures ExplainsBehind(w, q, [tb], s, r)
    decreases |s|, 5, 1
  {
    var t := TypeBits(tb);
    q := [];
    if t == BYTES || t == TEXT {
      w := ExplainsChunked(tb, t == TEXT, s, r);
    } else if t == ARRAY || t == MAP {
      w := ExplainsOpenGroup(tb, t == MAP, s, r);
    } else if t == TAG {
      w, q := ExplainsBareTag(tb, s, r);
    } else {
      w := ExplainsVoid(tb, s, r);
    }
  }

  /** An integer of indefinite length is read as None. */
  lemma ExplainsVoid(tb: byte, s: seq<byte>, r: PyParsed<Value>) returns (w: DataItem)
    requires InfoBits(tb) == VAR_FOLLOWS && TypeBits(tb) !in {BYTES, TEXT, ARRAY, MAP, TAG} && BodyIs(tb, None, s, 1, r)
    ensures ExplainsBehind(w, [], [tb], s, r)
  {
    assert tb == TypeOr(UINT, VAR_FOLLOWS) && r == Got(Null, s, 1) by {
      assert C.Unsealed(0);
      assert tb == TypeOr(TypeBits(tb), VAR_FOLLOWS);
    }
    w := WInt(false, Reserved(VAR_FOLLOWS), 0);
    VoidHead(UINT, 0);
    Whole(w, [tb], s, r);
  }

  /** A tag of indefinite length is a Tag whose number is None. */
  lemma {:induction false} ExplainsBareTag(tb: byte, s: seq<byte>, r: PyParsed<Value>)
    returns (w: DataItem, q: seq<byte>)
    requires tb == TypeOr(TAG, VAR_FOLLOWS) && BodyIs(tb, None, s, 1, r)
    ensures ExplainsBehind(w, q, [tb], s, r)
    decreases |s|, 3
  {
    assert r == AsTag(None, Item(s), 1) by {
      assert C.Unsealed(0);
      BodyOfTag(VAR_FOLLOWS, None, s, 1);
    }
    var item;
    item, q := ExplainsItem(s);
    w := WTag(Reserved(VAR_FOLLOWS), 0, item);
    VoidHead(TAG, 0);
    TagBehind(Reserved(VAR_FOLLOWS), 0, item, q, s, Item(s), r);
  }

  lemma {:induction false} ExplainsOpenGroup(tb: byte, isMap: bool, s: seq<byte>, r: PyParsed<Value>)
    returns (w: DataItem)
    requires tb == TypeOr(GroupType(isMap), VAR_FOLLOWS) && BodyIs(tb, None, s, 1, r)
    ensures ExplainsBehind(w, [], [tb], s, r)
    decreases |s|, 5, 0
  {
    var items := GroupItems(isMap, None, s);
    assert r == AsGroup(isMap, items, 1) by {
      assert C.Unsealed(0);
      BodyOfGroup(isMap, VAR_FOLLOWS, None, s, 1);
    }
    var ws := ExplainsOpenItems(isMap, s);
    w := WOpenGroup(isMap, ws);
    OpenBehind(isMap, ws, s, items);
  }

  lemma {:induction false} ExplainsOpenItems(isMap: bool, s: seq<byte>) returns (ws: seq<DataItem>)
    requires GroupItems(isMap, None, s).Got?
    ensures isMap ==> |ws| % 2 == 0
    ensures ExplainsOpen(ws, s, GroupItems(isMap, None, s), if isMap then CostPairs(ws) else CostToBreak(ws))
    decreases |s|, 4
  {
    if isMap {
      var n;
      ws, n := ExplainsPairs(s);
    } else {
      ws := ExplainsToBreak(s);
    }
  }

  lemma OpenBehind(isMap: bool, ws: seq<DataItem>, s: seq<byte>, r: PyParsed<seq<Value>>)
    requires isMap ==> |ws| % 2 == 0
    requires ExplainsOpen(ws, s, r, if isMap then CostPairs(ws) else CostToBreak(ws)) && AsGroup(isMap, r, 1).Got?
    ensures ExplainsBehind(WOpenGroup(isMap, ws), [], [TypeOr(GroupType(isMap), VAR_FOLLOWS)], s, AsGroup(isMap, r, 1))
  {
    var head, w := [TypeOr(GroupType(isMap), VAR_FOLLOWS)], WOpenGroup(isMap, ws);
    OpenBytes(w, r.rest);
    Whole(w, head, s, AsGroup(isMap, r, 1));
  }

  // ---------- Items in a row ----------

  lemma AllCons(w: DataItem, ws: seq<DataItem>)
    requires Readable(w) && ReadableAll(ws)
    ensures ReadableAll([w] + ws) && FlattenAll([w] + ws) == Flatten(w) + FlattenAll(ws)
    ensures MeaningAll(FromPython, [w] + ws) == Both(Meaning(FromPython, w), MeaningAll(FromPython, ws))
    ensures CostAll([w] + ws) == Cost(w) + CostAll(ws) && CostToBreak([w] + ws) == 1 + Cost(w) + CostToBreak(ws)
  {
    FlattenAllCons(w, ws);
    assert ([w] + ws)[1..] == ws;
  }

  lemma {:induction false} ExplainsItems(s: seq<byte>, n: nat) returns (ws: seq<DataItem>, q: seq<byte>)
    requires Items(s, n).Got?
    ensures ExplainsAll(ws, q, s, Items(s, n)) && |ws| == n
    decreases |s|, 2, n
  {
    if n == 0 {
      ws, q := [], [];
      NoItems(s);
    } else {
      ItemsOf(s, n);
      var w, first := ExplainsItem(s);
      var r := Item(s);
      if first != [] {
        NothingBehind(n - 1);
        ws, q := [w], first;
        OneItem(w, q, s);
      } else {
        var others;
        others, q := ExplainsItems(r.rest, n - 1);
        MoreItems(w, others, q, s, r, Items(r.rest, n - 1));
        ws := [w] + others;
      }
    }
  }

  lemma NoItems(s: seq<byte>)
    ensures ExplainsAll([], [], s, Items(s, 0))
  {
    assert s + [] == [] + s;
  }

  lemma ItemsOf(s: seq<byte>, n: nat)
    requires n > 0 && Items(s, n).Got?
    ensures var r := Item(s);
            r.Got? && Items(r.rest, n - 1).Got?
    ensures var r := Item(s);
            var more := Items(r.rest, n - 1);
            Items(s, n) == Got([r.value] + more.value, more.rest, r.count + more.count)
  {
  }

  lemma NothingBehind(n: nat)
    requires Items([], n).Got?
    ensures n == 0
  {
  }

  lemma OneItem(w: DataItem, q: seq<byte>, s: seq<byte>)
    requires Explains(w, q, s, Item(s)) && q != []
    ensures ExplainsAll([w], q, s, Items(s, 1))
  {
    AllCons(w, []);
    assert [w] + [] == [w];
    OneCut([w], |q|);
    var r := Item(s);
    assert Items(s, 1) == Got([r.value] + [], [], r.count + 0) by { assert Items([], 0) == Got([], [], 0); }
    assert Flatten(w) + [] == Flatten(w);
  }

  lemma MoreItems(w: DataItem, ws: seq<DataItem>, q: seq<byte>, s: seq<byte>,
                  r: PyParsed<Value>, more: PyParsed<seq<Value>>)
    requires Explains(w, [], s, r) && ExplainsAll(ws, q, r.rest, more)
    ensures ExplainsAll([w] + ws, q, s, Got([r.value] + more.value, more.rest, r.count + more.count))
  {
    AllCons(w, ws);
    ClipNothing(w);
    EndsTwice(s, r.rest, more.rest);
    assert s + [] == s;
    Assoc(Flatten(w), r.rest, q);
    Assoc(Flatten(w), FlattenAll(ws), more.rest);
    assert ([w] + ws)[1..] == ws;
    if ws == [] {
      assert [w] + ws == [w];
      OneCut([w], 0);
    } else {
      CutMeaningCons([w] + ws, |q|);
    }
  }

  /** `w` is the item that `s` starts with. */
  ghost predicate First(w: DataItem, s: seq<byte>, r: PyParsed<Value>) {
    && r.Got? && Ends(s, r.rest)
    && Readable(w) && s == Flatten(w) + r.rest
    && Meaning(FromPython, w) == Some(r.value) && r.count == Cost(w)
  }

  /** An item with something behind it lacks nothing. */
  lemma {:induction false} ExplainsFirst(s: seq<byte>) returns (w: DataItem)
    requires Item(s).Got? && Item(s).rest != []
    ensures First(w, s, Item(s))
    decreases |s|, 2
  {
    var q;
    w, q := ExplainsItem(s);
    assert q == [] && s + [] == s;
    ClipNothing(w);
  }

  lemma {:induction false} ExplainsToBreak(s: seq<byte>) returns (ws: seq<DataItem>)
    requires ItemsToBreak(s).Got?
    ensures ExplainsOpen(ws, s, ItemsToBreak(s), CostToBreak(ws))
    decreases |s|, 3
  {
    if s[0] == BREAK {
      ws := [];
      assert s == [] + ([BREAK] + s[1..]);
    } else {
      BreakOf(s);
      var r := Item(s);
      var more := ItemsToBreak(r.rest);
      var w := ExplainsFirst(s);
      var others := ExplainsToBreak(r.rest);
      ws := [w] + others;
      OpenCons(w, others, s, r.rest, more.rest);
      EndsTwice(s, r.rest, more.rest);
    }
  }

  lemma BreakOf(s: seq<byte>)
    requires ItemsToBreak(s).Got? && s[0] != BREAK
    ensures var r := Item(s);
            r.Got? && r.rest != [] && ItemsToBreak(r.rest).Got?
    ensures var r := Item(s);
            var more := ItemsToBreak(r.rest);
            ItemsToBreak(s) == Got([r.value] + more.value, more.rest, 1 + r.count + more.count)
  {
  }

  lemma OpenCons(w: DataItem, ws: seq<DataItem>, s: seq<byte>, s1: seq<byte>, rest: seq<byte>)
    requires Readable(w) && ReadableAll(ws)
    requires s == Flatten(w) + s1 && s1 == FlattenAll(ws) + ([BREAK] + rest)
    ensures ReadableAll([w] + ws) && s == FlattenAll([w] + ws) + ([BREAK] + rest)
    ensures MeaningAll(FromPython, [w] + ws) == Both(Meaning(FromPython, w), MeaningAll(FromPython, ws))
    ensures CostToBreak([w] + ws) == 1 + Cost(w) + CostToBreak(ws)
  {
    AllCons(w, ws);
    Assoc(Flatten(w), FlattenAll(ws), [BREAK] + rest);
  }

  lemma {:induction false} ExplainsPairs(s: seq<byte>) returns (ws: seq<DataItem>, n: nat)
    requires PairsToBreak(s).Got?
    ensures ExplainsOpen(ws, s, PairsToBreak(s), CostPairs(ws)) && |ws| == 2 * n
    decreases |s|, 3
  {
    if s[0] == BREAK {
      ws, n := [], 0;
      assert s == [] + ([BREAK] + s[1..]);
    } else {
      PairsOf(s);
      var k := Item(s);
      var v := Item(k.rest);
      var more := PairsToBreak(v.rest);
      var key := ExplainsFirst(s);
      var val := ExplainsFirst(k.rest);
      var others, m := ExplainsPairs(v.rest);
      PairCons(key, val, others, s, k, v, more);
      ws, n := [key, val] + others, m + 1;
    }
  }

  lemma PairsOf(s: seq<byte>)
    requires PairsToBreak(s).Got? && s[0] != BREAK
    ensures var k := Item(s);
            k.Got? && k.rest != []
    ensures var v := Item(Item(s).rest);
            v.Got? && v.rest != [] && PairsToBreak(v.rest).Got?
    ensures var k := Item(s);
            var v := Item(k.rest);
            var more := PairsToBreak(v.rest);
            PairsToBreak(s) == Got([k.value, v.value] + more.value, more.rest, 1 + (k.count + v.count) + more.count)
  {
    PairsStep(s);
    var k := Item(s);
    assert PairAt(s).Got?;
    var v := Item(k.rest);
    assert PairAt(s) == Got((k.value, v.value), v.rest, k.count + v.count);
  }

  lemma PairCons(key: DataItem, val: DataItem, ws: seq<DataItem>, s: seq<byte>,
                 k: PyParsed<Value>, v: PyParsed<Value>, more: PyParsed<seq<Value>>)
    requires First(key, s, k) && First(val, k.rest, v) && ExplainsOpen(ws, v.rest, more, CostPairs(ws))
    ensures var all := [key, val] + ws;
            ExplainsOpen(all, s, Got([k.value, v.value] + more.value, more.rest, 1 + (k.count + v.count) + more.count),
                         CostPairs(all))
  {
    PairParts(key, val, ws, s, k, v, more, CostPairs(ws));
    PairCost(key, val, ws);
    EndsTwice(s, k.rest, v.rest);
    EndsTwice(s, v.rest, more.rest);
  }

  lemma PairParts(key: DataItem, val: DataItem, ws: seq<DataItem>, s: seq<byte>,
                  k: PyParsed<Value>, v: PyParsed<Value>, more: PyParsed<seq<Value>>, cost: nat)
    requires First(key, s, k) && First(val, k.rest, v) && ExplainsOpen(ws, v.rest, more, cost)
    ensures var all := [key, val] + ws;
            && ReadableAll(all) && s == FlattenAll(all) + ([BREAK] + more.rest)
            && MeaningAll(FromPython, all) == Some([k.value, v.value] + more.value)
  {
    OpenCons(val, ws, k.rest, v.rest, more.rest);
    PairOpen(key, [val] + ws, s, k, Got([v.value] + more.value, more.rest, v.count + more.count));
    assert [key, val] + ws == [key] + ([val] + ws);
    assert [k.value, v.value] + more.value == [k.value] + ([v.value] + more.value);
  }

  /** A key in front of what follows it. */
  lemma PairOpen(key: DataItem, us: seq<DataItem>, s: seq<byte>, k: PyParsed<Value>, more: PyParsed<seq<Value>>)
    requires First(key, s, k) && more.Got? && ReadableAll(us)
    requires k.rest == FlattenAll(us) + ([BREAK] + more.rest) && MeaningAll(FromPython, us) == Some(more.value)
    ensures var all := [key] + us;
            && ReadableAll(all) && s == FlattenAll(all) + ([BREAK] + more.rest)
            && MeaningAll(FromPython, all) == Some([k.value] + more.value)
  {
    OpenCons(key, us, s, k.rest, more.rest);
  }

  lemma PairCost(key: DataItem, val: DataItem, ws: seq<DataItem>)
    ensures [key, val] + ws == [key] + ([val] + ws)
    ensures CostPairs([key, val] + ws) == 1 + Cost(key) + (Cost(val) + CostPairs(ws))
  {
    assert ([key, val] + ws)[2..] == ws;
  }

  // ---------- From which bytes an object is returned ----------

  /** `s` is the item `w` without its last bytes `q`, or all of it with `rest` behind it. */
  ghost predicate Shows(w: DataItem, q: seq<byte>, s: seq<byte>, rest: seq<byte>) {
    Readable(w) && (q != [] ==> rest == []) && s + q == Flatten(w) + rest && CutMeaning(w, |q|).Some?
  }

  lemma ShownIsRead(w: DataItem, q: seq<byte>, s: seq<byte>, rest: seq<byte>)
    requires Shows(w, q, s, rest)
    ensures Item(s) == Got(CutMeaning(w, |q|).value, rest, Cost(w))
  {
    if q == [] {
      assert s + q == s;
      ReadItem(w, rest);
      ClipNothing(w);
    } else {
      assert Flatten(w) + rest == Flatten(w);
      CutItem(w, s, q);
    }
  }

  /** The Python decoder returns an object of this model exactly from the items that mean one to it, cut or not. */
  lemma Acceptance(s: seq<byte>)
    ensures Item(s).Got? <==> exists w, q, rest :: Shows(w, q, s, rest)
  {
    if Item(s).Got? {
      var w, q := ExplainsItem(s);
      assert Shows(w, q, s, Item(s).rest);
    }
    forall w, q, rest | Shows(w, q, s, rest) ensures Item(s).Got? {
      ShownIsRead(w, q, s, rest);
    }
  }
}
