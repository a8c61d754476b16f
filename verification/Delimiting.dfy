/**
  Data items delimit themselves: the bytes of an item, well-formed or not, determine the
  item, down to the width of every head, and where it ends.
 */
module Delimiting {
  import opened Prelude
  import opened BigEndian
  import opened Values
  import opened Wire

  function Major(w: DataItem): (t: byte)
    ensures IsMajor(t)
  {
    match w
    case WInt(neg, _, _) => if neg then NEGINT else UINT
    case WStr(text, _, _) => StrType(text)
    case WChunked(text, _) => StrType(text)
    case WGroup(isMap, _, _) => GroupType(isMap)
    case WOpenGroup(isMap, _) => GroupType(isMap)
    case WTag(_, _, _) => TAG
    case WSimple(_, _) => SEVEN
    case WFloat(_) => SEVEN
  }

  function InfoOf(w: DataItem): (info: byte)
    requires Readable(w)
    ensures info < 32
    ensures w.WChunked? || w.WOpenGroup? ==> info == VAR_FOLLOWS
    ensures w.WStr? || w.WGroup? ==> info != VAR_FOLLOWS
    ensures w.WSimple? ==> info <= UINT8_FOLLOWS
    ensures w.WFloat? ==> info > UINT8_FOLLOWS
  {
    match w
    case WInt(_, wd, n) => Info(wd, n)
    case WStr(_, wd, data) => Info(wd, |data|)
    case WGroup(isMap, wd, items) => Info(wd, Count(isMap, items))
    case WTag(wd, num, _) => Info(wd, num)
    case WSimple(wd, code) => Info(wd, code)
    case WFloat(payload) => InfoBits(FloatHead(payload))
    case _ => VAR_FOLLOWS
  }

  lemma FirstByte(w: DataItem)
    requires Readable(w)
    ensures Flatten(w)[0] == TypeOr(Major(w), InfoOf(w))
    ensures Flatten(w)[0] != BREAK
  {
  }

  lemma InfoUnique(w: Width, m: nat, v: Width, n: nat)
    requires Spells(w, m) && Spells(v, n) && Info(w, m) == Info(v, n)
    ensures w == v && (w.Imm? || w.Reserved? ==> m == n)
  {
  }

  lemma HeadUnique(t: byte, w: Width, m: nat, x: seq<byte>, v: Width, n: nat, y: seq<byte>)
    requires IsMajor(t) && Spells(w, m) && Spells(v, n)
    requires HeadAt(t, w, m) + x == HeadAt(t, v, n) + y
    ensures w == v && m == n && x == y
  {
    var a, b := HeadAt(t, w, m) + x, HeadAt(t, v, n) + y;
    assert a[0] == TypeOr(t, Info(w, m)) && b[0] == TypeOr(t, Info(v, n));
    InfoUnique(w, m, v, n);
    var k := Follow(w);
    assert a[1..1 + k] == ToBE(m, k) && b[1..1 + k] == ToBE(n, k);
    assert a[1 + k..] == x && b[1 + k..] == y;
    if !w.Imm? && !w.Reserved? {
      FitsPow(w, m);
      FitsPow(v, n);
      ToBEInverse(m, k);
      ToBEInverse(n, k);
    }
  }

  /** `a` and `b` start the same bytes. */
  ghost predicate Overlap(a: DataItem, r: seq<byte>, b: DataItem, s: seq<byte>) {
    Readable(a) && Readable(b) && Flatten(a) + r == Flatten(b) + s
  }

  /** The first byte tells the constructors apart. */
  lemma SameKind(a: DataItem, r: seq<byte>, b: DataItem, s: seq<byte>)
    requires Overlap(a, r, b, s)
    ensures Major(a) == Major(b) && InfoOf(a) == InfoOf(b)
    ensures (a.WInt? <==> b.WInt?) && (a.WStr? <==> b.WStr?) && (a.WChunked? <==> b.WChunked?)
    ensures (a.WGroup? <==> b.WGroup?) && (a.WOpenGroup? <==> b.WOpenGroup?) && (a.WTag? <==> b.WTag?)
    ensures (a.WSimple? <==> b.WSimple?) && (a.WFloat? <==> b.WFloat?)
  {
    FirstByte(a);
    FirstByte(b);
    assert Flatten(a)[0] == (Flatten(a) + r)[0] && Flatten(b)[0] == (Flatten(b) + s)[0];
  }

  /** The bytes of two items do not start each other unless the items are equal. */
  lemma {:induction false} ItemUnique(a: DataItem, r: seq<byte>, b: DataItem, s: seq<byte>)
    requires Overlap(a, r, b, s)
    ensures a == b && r == s
    decreases a, 1
  {
    SameKind(a, r, b, s);
    match a
    case WChunked(_, _) => OpenItemUnique(a, r, b, s);
    case WGroup(_, _, _) => GroupUnique(a, r, b, s);
    case WOpenGroup(_, _) => OpenItemUnique(a, r, b, s);
    case WTag(_, _, _) => TagUnique(a, r, b, s);
    case WStr(_, _, _) => StringUnique(a, r, b, s);
    case _ => LeafUnique(a, r, b, s);
  }

  lemma StringUnique(a: DataItem, r: seq<byte>, b: DataItem, s: seq<byte>)
    requires Overlap(a, r, b, s) && Major(a) == Major(b) && a.WStr? && b.WStr?
    ensures a == b && r == s
  {
    ChunkUnique(a.text, Chunk(a.w, a.data), r, Chunk(b.w, b.data), s);
  }

  lemma LeafUnique(a: DataItem, r: seq<byte>, b: DataItem, s: seq<byte>)
    requires Overlap(a, r, b, s) && Major(a) == Major(b) && InfoOf(a) == InfoOf(b)
    requires (a.WInt? && b.WInt?) || (a.WSimple? && b.WSimple?) || (a.WFloat? && b.WFloat?)
    ensures a == b && r == s
  {
    match a
    case WInt(_, w, n) => HeadUnique(Major(a), w, n, r, b.w, b.n, s);
    case WSimple(w, code) => HeadUnique(SEVEN, w, code, r, b.w, b.code, s);
    case WFloat(payload) => FloatUnique(payload, r, b.payload, s);
  }

  lemma {:induction false} TagUnique(a: DataItem, r: seq<byte>, b: DataItem, s: seq<byte>)
    requires Overlap(a, r, b, s) && a.WTag? && b.WTag?
    ensures a == b && r == s
    decreases a, 0
  {
    var x, y := Flatten(a.item), Flatten(b.item);
    Assoc(HeadAt(TAG, a.w, a.num), x, r);
    Assoc(HeadAt(TAG, b.w, b.num), y, s);
    HeadUnique(TAG, a.w, a.num, x + r, b.w, b.num, y + s);
    ItemUnique(a.item, r, b.item, s);
  }

  lemma {:induction false} OpenItemUnique(a: DataItem, r: seq<byte>, b: DataItem, s: seq<byte>)
    requires Overlap(a, r, b, s) && Major(a) == Major(b)
    requires (a.WChunked? && b.WChunked?) || (a.WOpenGroup? && b.WOpenGroup?)
    ensures a == b && r == s
    decreases a, 0
  {
    Body(a, r);
    Body(b, s);
    if a.WChunked? {
      ChunksUnique(a.text, a.chunks, r, b.chunks, s);
    } else {
      OpenUnique(a.items, r, b.items, s);
    }
  }

  lemma Behind(head: seq<byte>, x: seq<byte>, y: seq<byte>)
    requires head + x == head + y
    ensures x == y
  {
    assert (head + x)[|head|..] == x && (head + y)[|head|..] == y;
  }

  lemma FloatUnique(p: seq<byte>, r: seq<byte>, q: seq<byte>, s: seq<byte>)
    requires |p| == 2 || |p| == 4 || |p| == 8
    requires |q| == 2 || |q| == 4 || |q| == 8
    requires FloatHead(p) == FloatHead(q) && [FloatHead(p)] + p + r == [FloatHead(q)] + q + s
    ensures p == q && r == s
  {
    assert |p| == |q|;
    var a, b := [FloatHead(p)] + p + r, [FloatHead(q)] + q + s;
    assert a[1..1 + |p|] == p && b[1..1 + |p|] == q;
    assert a[1 + |p|..] == r && b[1 + |p|..] == s;
  }

  lemma Body(w: DataItem, r: seq<byte>)
    requires Readable(w) && (w.WChunked? || w.WOpenGroup?)
    ensures var body := if w.WChunked? then FlattenChunks(w.text, w.chunks) else FlattenAll(w.items);
            (Flatten(w) + r)[1..] == body + ([BREAK] + r)
  {
  }

  lemma ChunkKind(text: bool, c: Chunk, r: seq<byte>)
    requires ChunkReadable(text, c)
    ensures var info := if c.Chunk? then Info(c.w, |c.data|) else VAR_FOLLOWS;
            (FlattenChunk(text, c) + r)[0] == TypeOr(StrType(text), info)
  {
  }

  lemma {:induction false} ChunkUnique(text: bool, c: Chunk, r: seq<byte>, d: Chunk, s: seq<byte>)
    requires ChunkReadable(text, c) && ChunkReadable(text, d) && FlattenChunk(text, c) + r == FlattenChunk(text, d) + s
    ensures c == d && r == s
    decreases c
  {
    ChunkKind(text, c, r);
    ChunkKind(text, d, s);
    assert c.Chunk? <==> d.Chunk?;
    if c.Chunk? {
      DefiniteUnique(text, c, r, d, s);
    } else {
      ChunkedBytes(text, c.chunks, r);
      ChunkedBytes(text, d.chunks, s);
      var head := [TypeOr(StrType(text), VAR_FOLLOWS)];
      var x, y := FlattenChunks(text, c.chunks) + ([BREAK] + r), FlattenChunks(text, d.chunks) + ([BREAK] + s);
      Behind(head, x, y);
      ChunksUnique(text, c.chunks, r, d.chunks, s);
    }
  }

  lemma DefiniteUnique(text: bool, c: Chunk, r: seq<byte>, d: Chunk, s: seq<byte>)
    requires ChunkReadable(text, c) && ChunkReadable(text, d) && FlattenChunk(text, c) + r == FlattenChunk(text, d) + s
    requires c.Chunk? && d.Chunk?
    ensures c == d && r == s
  {
    var t, x, y := StrType(text), c.data + r, d.data + s;
    StringBytes(text, c.w, c.data, r);
    StringBytes(text, d.w, d.data, s);
    HeadUnique(t, c.w, |c.data|, x, d.w, |d.data|, y);
    SplitUnique(c.data, r, d.data, s);
  }

  lemma SplitUnique(x: seq<byte>, r: seq<byte>, y: seq<byte>, s: seq<byte>)
    requires |x| == |y| && x + r == y + s
    ensures x == y && r == s
  {
    assert (x + r)[..|x|] == x && (y + s)[..|x|] == y;
    assert (x + r)[|x|..] == r && (y + s)[|x|..] == s;
  }

  lemma ChunksFirst(text: bool, cs: seq<Chunk>, tail: seq<byte>)
    requires ChunksReadable(text, cs) && cs != []
    ensures FlattenChunks(text, cs) + tail == FlattenChunk(text, cs[0]) + (FlattenChunks(text, cs[1..]) + tail)
    ensures (FlattenChunks(text, cs) + tail)[0] != BREAK
  {
    NoBreakChunk(text, cs[0]);
    Assoc(FlattenChunk(text, cs[0]), FlattenChunks(text, cs[1..]), tail);
  }

  lemma BreakFirst(r: seq<byte>)
    ensures [] + ([BREAK] + r) == [BREAK] + r && ([BREAK] + r)[0] == BREAK
  {
  }

  lemma {:induction false} ChunksUnique(text: bool, cs: seq<Chunk>, r: seq<byte>, ds: seq<Chunk>, s: seq<byte>)
    requires ChunksReadable(text, cs) && ChunksReadable(text, ds)
    requires FlattenChunks(text, cs) + ([BREAK] + r) == FlattenChunks(text, ds) + ([BREAK] + s)
    ensures cs == ds && r == s
    decreases cs
  {
    BreakFirst(r);
    BreakFirst(s);
    if cs != [] { ChunksFirst(text, cs, [BREAK] + r); }
    if ds != [] { ChunksFirst(text, ds, [BREAK] + s); }
    if cs == [] {
      Behind([BREAK], r, s);
    } else {
      var x, y := FlattenChunks(text, cs[1..]) + ([BREAK] + r), FlattenChunks(text, ds[1..]) + ([BREAK] + s);
      ChunkUnique(text, cs[0], x, ds[0], y);
      ChunksUnique(text, cs[1..], r, ds[1..], s);
      assert cs == [cs[0]] + cs[1..] && ds == [ds[0]] + ds[1..];
    }
  }

  lemma {:induction false} GroupUnique(a: DataItem, r: seq<byte>, b: DataItem, s: seq<byte>)
    requires Overlap(a, r, b, s)
    requires a.WGroup? && b.WGroup? && a.isMap == b.isMap
    ensures a == b && r == s
    decreases a, 0
  {
    GroupBytes(a, r);
    GroupBytes(b, s);
    HeadUnique(GroupType(a.isMap), a.w, Count(a.isMap, a.items), FlattenAll(a.items) + r,
               b.w, Count(b.isMap, b.items), FlattenAll(b.items) + s);
    ItemsUnique(a.items, r, b.items, s);
  }

  lemma ItemsFirst(ws: seq<DataItem>, tail: seq<byte>)
    requires ReadableAll(ws) && ws != []
    ensures FlattenAll(ws) + tail == Flatten(ws[0]) + (FlattenAll(ws[1..]) + tail)
    ensures (FlattenAll(ws) + tail)[0] != BREAK
  {
    FlattenAllBytes(ws, tail);
    NoBreak(ws[0]);
  }

  lemma {:induction false} ItemsUnique(as_: seq<DataItem>, r: seq<byte>, bs: seq<DataItem>, s: seq<byte>)
    requires ReadableAll(as_) && ReadableAll(bs) && |as_| == |bs|
    requires FlattenAll(as_) + r == FlattenAll(bs) + s
    ensures as_ == bs && r == s
    decreases as_
  {
    if as_ == [] {
      assert [] + r == r && [] + s == s;
    } else {
      ItemsFirst(as_, r);
      ItemsFirst(bs, s);
      ItemUnique(as_[0], FlattenAll(as_[1..]) + r, bs[0], FlattenAll(bs[1..]) + s);
      ItemsUnique(as_[1..], r, bs[1..], s);
      assert as_ == [as_[0]] + as_[1..] && bs == [bs[0]] + bs[1..];
    }
  }

  lemma {:induction false} OpenUnique(as_: seq<DataItem>, r: seq<byte>, bs: seq<DataItem>, s: seq<byte>)
    requires ReadableAll(as_) && ReadableAll(bs)
    requires FlattenAll(as_) + ([BREAK] + r) == FlattenAll(bs) + ([BREAK] + s)
    ensures as_ == bs && r == s
    decreases as_
  {
    BreakFirst(r);
    BreakFirst(s);
    if as_ != [] { ItemsFirst(as_, [BREAK] + r); }
    if bs != [] { ItemsFirst(bs, [BREAK] + s); }
    if as_ == [] {
      Behind([BREAK], r, s);
    } else {
      var x, y := FlattenAll(as_[1..]) + ([BREAK] + r), FlattenAll(bs[1..]) + ([BREAK] + s);
      ItemUnique(as_[0], x, bs[0], y);
      OpenUnique(as_[1..], r, bs[1..], s);
      assert as_ == [as_[0]] + as_[1..] && bs == [bs[0]] + bs[1..];
    }
  }
}
