/**
  The encoders write the shortest heads: of all items that differ from the encoded one in
  head widths only, it alone has the fewest bytes (section 3.9 of RFC 7049).
 */
module Optimal {
  import opened Prelude
  import opened Values
  import opened Wire
  import opened Encoding

  /** Equal but for the widths of their heads. */
  predicate SameShape(a: DataItem, b: DataItem) {
    match a
    case WInt(neg, _, n) => b.WInt? && b.neg == neg && b.n == n
    case WStr(text, _, data) => b.WStr? && b.text == text && b.data == data
    case WChunked(text, chunks) =>
      && b.WChunked? && b.text == text && |b.chunks| == |chunks|
      && Plain(chunks) && Plain(b.chunks) && SameData(chunks, b.chunks)
    case WGroup(isMap, _, items) =>
      b.WGroup? && b.isMap == isMap && |b.items| == |items|
      && forall i :: 0 <= i < |items| ==> SameShape(items[i], b.items[i])
    case WOpenGroup(isMap, items) =>
      b.WOpenGroup? && b.isMap == isMap && |b.items| == |items|
      && forall i :: 0 <= i < |items| ==> SameShape(items[i], b.items[i])
    case WTag(_, num, item) => b.WTag? && b.num == num && SameShape(item, b.item)
    case WSimple(_, code) => b.WSimple? && b.code == code
    case WFloat(_) => a == b
  }

  predicate SameData(cs: seq<Chunk>, ds: seq<Chunk>)
    requires |cs| == |ds| && Plain(cs) && Plain(ds)
  {
    forall i :: 0 <= i < |cs| ==> cs[i].data == ds[i].data
  }

  predicate ShortChunk(c: Chunk) {
    c.Chunk? && |c.data| < MAX_LENGTH && c.w == Shortest(|c.data|)
  }

  /** Every head is as short as it can be. */
  predicate Minimal(w: DataItem)
    requires WellFormed(w)
  {
    match w
    case WInt(_, wd, n) => wd == Shortest(n)
    case WStr(_, wd, data) => wd == Shortest(|data|)
    case WChunked(_, chunks) => forall i :: 0 <= i < |chunks| ==> ShortChunk(chunks[i])
    case WGroup(isMap, wd, items) =>
      wd == Shortest(Count(isMap, items)) && forall i :: 0 <= i < |items| ==> Minimal(items[i])
    case WOpenGroup(_, items) => forall i :: 0 <= i < |items| ==> Minimal(items[i])
    case WTag(wd, num, item) => wd == Shortest(num) && Minimal(item)
    case _ => true
  }

  /** `a` is shorter than `b` unless they are the same. */
  predicate Beats<T(==)>(a: T, la: nat, b: T, lb: nat) {
    la <= lb && (la == lb <==> a == b)
  }

  lemma {:induction false} ShortestItem(a: DataItem, b: DataItem)
    requires WellFormed(a) && WellFormed(b) && Minimal(a) && SameShape(a, b)
    ensures Beats(a, |Flatten(a)|, b, |Flatten(b)|)
    decreases a
  {
    match a
    case WChunked(text, chunks) => ShortestChunks(text, chunks, b.chunks);
    case WGroup(_, _, items) => ShortestItems(items, b.items);
    case WOpenGroup(_, items) => ShortestItems(items, b.items);
    case WTag(_, _, item) => ShortestItem(item, b.item);
    case _ => ShortestLeaf(a, b);
  }

  lemma ShortestLeaf(a: DataItem, b: DataItem)
    requires WellFormed(a) && WellFormed(b) && Minimal(a) && SameShape(a, b)
    requires a.WInt? || a.WStr? || a.WSimple? || a.WFloat?
    ensures Beats(a, |Flatten(a)|, b, |Flatten(b)|)
  {
  }

  lemma {:induction false} ShortestItems(as_: seq<DataItem>, bs: seq<DataItem>)
    requires WellFormedAll(as_) && WellFormedAll(bs) && |as_| == |bs|
    requires forall i :: 0 <= i < |as_| ==> Minimal(as_[i])
    requires forall i :: 0 <= i < |as_| ==> SameShape(as_[i], bs[i])
    ensures Beats(as_, |FlattenAll(as_)|, bs, |FlattenAll(bs)|)
    decreases as_
  {
    if as_ != [] {
      ShortestItem(as_[0], bs[0]);
      ShortestItems(as_[1..], bs[1..]);
      assert as_ == [as_[0]] + as_[1..] && bs == [bs[0]] + bs[1..];
    }
  }

  lemma {:induction false} ShortestChunks(text: bool, cs: seq<Chunk>, ds: seq<Chunk>)
    requires ChunksReadable(text, cs) && ChunksReadable(text, ds)
    requires |cs| == |ds| && Plain(cs) && Plain(ds) && SameData(cs, ds)
    requires forall i :: 0 <= i < |cs| ==> ShortChunk(cs[i])
    ensures Beats(cs, |FlattenChunks(text, cs)|, ds, |FlattenChunks(text, ds)|)
    decreases |cs|
  {
    if cs != [] {
      ShortestChunks(text, cs[1..], ds[1..]);
      assert cs == [cs[0]] + cs[1..] && ds == [ds[0]] + ds[1..];
    }
  }

  /** Head widths do not change what a well-formed item means. */
  lemma {:induction false} SameMeaning(a: DataItem, b: DataItem)
    requires WellFormed(a) && WellFormed(b) && SameShape(a, b)
    ensures Meaning(Standard, a) == Meaning(Standard, b)
    ensures Meaning(FromPython, a) == Meaning(FromPython, b)
    decreases a
  {
    match a
    case WChunked(text, chunks) => SameJoined(chunks, b.chunks);
    case WGroup(_, _, items) => SameMeaningAll(items, b.items);
    case WOpenGroup(_, items) => SameMeaningAll(items, b.items);
    case WTag(_, _, item) => SameMeaning(item, b.item);
    case _ =>
  }

  lemma {:induction false} SameMeaningAll(as_: seq<DataItem>, bs: seq<DataItem>)
    requires WellFormedAll(as_) && WellFormedAll(bs)
    requires |as_| == |bs| && forall i :: 0 <= i < |as_| ==> SameShape(as_[i], bs[i])
    ensures MeaningAll(Standard, as_) == MeaningAll(Standard, bs)
    ensures MeaningAll(FromPython, as_) == MeaningAll(FromPython, bs)
    decreases as_
  {
    if as_ != [] {
      SameMeaning(as_[0], bs[0]);
      SameMeaningAll(as_[1..], bs[1..]);
    }
  }

  lemma {:induction false} SameJoined(cs: seq<Chunk>, ds: seq<Chunk>)
    requires |cs| == |ds| && Plain(cs) && Plain(ds) && SameData(cs, ds)
    ensures Joined(cs) == Joined(ds) && (EachValid(cs) <==> EachValid(ds))
    decreases |cs|
  {
    if cs != [] {
      SameJoined(cs[1..], ds[1..]);
      EachValidCons(cs);
      EachValidCons(ds);
    }
  }

  /**
    `dumps` writes the unique shortest of all encodings with the same structure that
    differ only in head widths.
   */
  lemma DumpsIsShortest(d: Codec, v: Value, b: DataItem)
    requires Ready(d, v) && HasItem(v) && WellFormed(b) && SameShape(ItemOf(d, v), b)
    ensures |Enc(d, v)| <= |Flatten(b)|
    ensures |Enc(d, v)| == |Flatten(b)| <==> b == ItemOf(d, v)
    ensures Meaning(Standard, b) == Meaning(Standard, ItemOf(d, v))
  {
    EncIsItem(d, v);
    DumpsIsMinimal(d, v);
    ShortestItem(ItemOf(d, v), b);
    SameMeaning(ItemOf(d, v), b);
  }

  lemma {:induction false} DumpsIsMinimal(d: Codec, v: Value)
    requires Ready(d, v) && HasItem(v)
    ensures WellFormed(ItemOf(d, v)) && Minimal(ItemOf(d, v))
    decreases v
  {
    match v
    case List(items, _) => DumpsIsMinimalAll(d, items);
    case Dict(entries) => DumpsIsMinimalEntries(d, entries);
    case Tag(_, item) => DumpsIsMinimal(d, item);
    case _ => LeafIsMinimal(d, v);
  }

  lemma LeafIsMinimal(d: Codec, v: Value)
    requires Ready(d, v) && HasItem(v) && !v.List? && !v.Dict? && !v.Tag?
    ensures WellFormed(ItemOf(d, v)) && Minimal(ItemOf(d, v))
  {
    if v.Int? {
      IntIsMinimal(d, v.n);
    }
  }

  lemma IntIsMinimal(d: Codec, n: int)
    requires SizedInt(n)
    ensures WellFormed(IntItem(d, n)) && Minimal(IntItem(d, n))
  {
  }

  lemma {:induction false} DumpsIsMinimalAll(d: Codec, vs: seq<Value>)
    requires ReadyAll(d, vs) && forall i :: 0 <= i < |vs| ==> HasItem(vs[i])
    ensures forall w :: w in ItemsOf(d, vs) ==> WellFormed(w) && Minimal(w)
    decreases vs
  {
    if vs != [] {
      DumpsIsMinimal(d, vs[0]);
      DumpsIsMinimalAll(d, vs[1..]);
    }
  }

  lemma {:induction false} DumpsIsMinimalEntries(d: Codec, es: seq<Entry>)
    requires ReadyEntries(d, es) && EntriesHaveItems(es)
    ensures forall w :: w in ItemsOfEntries(d, es) ==> WellFormed(w) && Minimal(w)
    decreases es
  {
    if es != [] {
      assert es decreases to es[0];
      DumpsIsMinimal(d, es[0].key);
      DumpsIsMinimal(d, es[0].val);
      DumpsIsMinimalEntries(d, es[1..]);
    }
  }

  // ---------- Shapes ----------

  /** The item without the widths of its heads. */
  function Bare(w: DataItem): DataItem {
    match w
    case WInt(neg, _, n) => WInt(neg, Imm, n)
    case WStr(text, _, data) => WStr(text, Imm, data)
    case WChunked(text, chunks) => WChunked(text, BareChunks(chunks))
    case WGroup(isMap, _, items) => WGroup(isMap, Imm, BareAll(items))
    case WOpenGroup(isMap, items) => WOpenGroup(isMap, BareAll(items))
    case WTag(_, num, item) => WTag(Imm, num, Bare(item))
    case WSimple(_, code) => WSimple(Imm, code)
    case WFloat(_) => w
  }

  function BareAll(ws: seq<DataItem>): (r: seq<DataItem>)
    ensures |r| == |ws|
  {
    if ws == [] then [] else [Bare(ws[0])] + BareAll(ws[1..])
  }

  function BareChunks(cs: seq<Chunk>): (r: seq<Chunk>)
    ensures |r| == |cs|
    ensures forall i :: 0 <= i < |cs| ==> r[i] == BareChunk(cs[i])
  {
    seq(|cs|, i requires 0 <= i < |cs| => BareChunk(cs[i]))
  }

  function BareChunk(c: Chunk): Chunk {
    if c.Chunk? then Chunk(Imm, c.data) else c
  }

  /** Two items have one shape exactly if they are equal without the widths. */
  lemma {:induction false} ShapesAreBare(a: DataItem, b: DataItem)
    requires WellFormed(a) && WellFormed(b)
    ensures SameShape(a, b) <==> Bare(a) == Bare(b)
    decreases a
  {
    match a
    case WChunked(text, chunks) => if b.WChunked? { ChunksAreBare(chunks, b.chunks); }
    case WGroup(_, _, items) => if b.WGroup? { ShapesAreBareAll(items, b.items); }
    case WOpenGroup(_, items) => if b.WOpenGroup? { ShapesAreBareAll(items, b.items); }
    case WTag(_, _, item) => if b.WTag? { ShapesAreBare(item, b.item); }
    case _ =>
  }

  lemma {:induction false} ShapesAreBareAll(as_: seq<DataItem>, bs: seq<DataItem>)
    requires WellFormedAll(as_) && WellFormedAll(bs)
    ensures |as_| == |bs| && (forall i :: 0 <= i < |as_| ==> SameShape(as_[i], bs[i])) <==> BareAll(as_) == BareAll(bs)
    decreases as_
  {
    if as_ != [] && bs != [] {
      ShapesAreBare(as_[0], bs[0]);
      ShapesAreBareAll(as_[1..], bs[1..]);
      var x, y, xs, ys := Bare(as_[0]), Bare(bs[0]), BareAll(as_[1..]), BareAll(bs[1..]);
      assert ([x] + xs)[0] == x && ([y] + ys)[0] == y && ([x] + xs)[1..] == xs && ([y] + ys)[1..] == ys;
      assert forall i :: 1 <= i < |as_| ==> as_[i] == as_[1..][i - 1];
      assert forall i :: 1 <= i < |bs| ==> bs[i] == bs[1..][i - 1];
      assert forall i :: 0 <= i < |as_| - 1 ==> as_[1..][i] == as_[i + 1];
      assert forall i :: 0 <= i < |bs| - 1 ==> bs[1..][i] == bs[i + 1];
    }
  }

  lemma ChunksAreBare(cs: seq<Chunk>, ds: seq<Chunk>)
    requires Plain(cs) && Plain(ds)
    ensures |cs| == |ds| && SameData(cs, ds) <==> BareChunks(cs) == BareChunks(ds)
  {
    if BareChunks(cs) == BareChunks(ds) {
      forall i | 0 <= i < |cs| ensures cs[i].data == ds[i].data {
        assert BareChunks(cs)[i] == BareChunks(ds)[i];
      }
    }
  }

  /** The item with the shortest heads. */
  function Shrunk(w: DataItem): DataItem
    requires WellFormed(w)
  {
    match w
    case WInt(neg, _, n) => WInt(neg, Shortest(n), n)
    case WStr(text, _, data) => WStr(text, Shortest(|data|), data)
    case WChunked(text, chunks) => WChunked(text, ShrunkChunks(text, chunks))
    case WGroup(isMap, _, items) => WGroup(isMap, Shortest(Count(isMap, items)), ShrunkAll(items))
    case WOpenGroup(isMap, items) => WOpenGroup(isMap, ShrunkAll(items))
    case WTag(_, num, item) => WTag(Shortest(num), num, Shrunk(item))
    case _ => w
  }

  function ShrunkAll(ws: seq<DataItem>): (r: seq<DataItem>)
    requires WellFormedAll(ws)
    ensures |r| == |ws|
  {
    if ws == [] then [] else [Shrunk(ws[0])] + ShrunkAll(ws[1..])
  }

  function ShrunkChunks(text: bool, cs: seq<Chunk>): (r: seq<Chunk>)
    requires ChunksReadable(text, cs) && Plain(cs)
    ensures |r| == |cs| && ChunksReadable(text, r) && Plain(r) && SameData(r, cs)
    ensures forall i :: 0 <= i < |r| ==> ShortChunk(r[i])
  {
    if cs == [] then []
    else
      assert ChunkReadable(text, cs[0]) && cs[0].Chunk?;
      assert forall i :: 0 <= i < |cs[1..]| ==> cs[1..][i] == cs[i + 1];
      var more := ShrunkChunks(text, cs[1..]);
      assert forall i :: 1 <= i < |cs| ==> cs[i] == cs[1..][i - 1];
      [Chunk(Shortest(|cs[0].data|), cs[0].data)] + more
  }

  lemma {:induction false} ShrunkIsMinimal(w: DataItem)
    requires WellFormed(w)
    ensures WellFormed(Shrunk(w)) && Minimal(Shrunk(w)) && SameShape(Shrunk(w), w)
    decreases w
  {
    match w
    case WChunked(text, chunks) =>
    case WGroup(_, _, items) => ShrunkAllMinimal(items);
    case WOpenGroup(_, items) => ShrunkAllMinimal(items);
    case WTag(_, _, item) => ShrunkIsMinimal(item);
    case _ =>
  }

  lemma {:induction false} ShrunkAllMinimal(ws: seq<DataItem>)
    requires WellFormedAll(ws)
    ensures var r := ShrunkAll(ws);
            forall i :: 0 <= i < |ws| ==> WellFormed(r[i]) && Minimal(r[i]) && SameShape(r[i], ws[i])
    decreases ws
  {
    if ws != [] {
      ShrunkIsMinimal(ws[0]);
      ShrunkAllMinimal(ws[1..]);
      var r := ShrunkAll(ws);
      forall i | 0 <= i < |ws| ensures WellFormed(r[i]) && Minimal(r[i]) && SameShape(r[i], ws[i]) {
        if i > 0 {
          assert r[i] == ShrunkAll(ws[1..])[i - 1] && ws[i] == ws[1..][i - 1];
        }
      }
    }
  }

  /** Minimal are exactly the items of which there is no shorter one with their shape. */
  lemma MinimalExactly(a: DataItem)
    requires WellFormed(a)
    ensures Minimal(a) <==> forall b :: WellFormed(b) && SameShape(b, a) ==> |Flatten(a)| <= |Flatten(b)|
  {
    var m := Shrunk(a);
    ShrunkIsMinimal(a);
    ShortestItem(m, a);
    if Minimal(a) {
      forall b | WellFormed(b) && SameShape(b, a) ensures |Flatten(a)| <= |Flatten(b)| {
        ShapesAreBare(b, a);
        ShapesAreBare(a, b);
        ShortestItem(a, b);
      }
    } else {
      assert |Flatten(m)| < |Flatten(a)|;
    }
  }
}
