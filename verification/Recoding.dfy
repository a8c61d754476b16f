/**
  What the decoders return for arbitrary bytes can be written again, and reading that
  gives the same object: decoding normalises in one step.
 */
module Recoding {
  import opened Prelude
  import opened BigEndian
  import opened Biguint
  import opened Values
  import opened Wire
  import opened Encoding
  import opened RoundTrip
  import C = CGrammar
  import CCompleteness
  import CSoundness
  import Py = PyGrammar
  import PyTruncation
  import PySoundness
  import Interop
  import Support
  import Utf8

  /** What an object is like that a decoder returns. */
  predicate Fresh(p: Reading, v: Value) {
    match v
    case Int(n) => SizedInt(n) && (InC(p) ==> InBignumRange(n))
    case Bytes(data) => |data| < MAX_LENGTH
    case Float(payload) => |payload| == 8
    case Text(data) => |data| < MAX_LENGTH && Utf8.Valid(data)
    case List(items, frozen) =>
      !frozen && |items| < MAX_LENGTH && forall i :: 0 <= i < |items| ==> Fresh(p, items[i])
    case Dict(entries) =>
      && |entries| < MAX_LENGTH && ScalarKeys(entries) && DistinctKeys(entries)
      && forall i :: 0 <= i < |entries| ==> FreshEntry(p, entries[i])
    case Tag(num, item) => 0 <= num < HEAD_LIMIT && !Consumed(p, num) && Fresh(p, item)
    case BareTag(item) => p.FromPython? && Fresh(p, item)
    case Instance(_, _) => false
    case _ => true
  }

  predicate FreshEntry(p: Reading, e: Entry) {
    Fresh(p, e.key) && Fresh(p, e.val)
  }

  predicate FreshAll(p: Reading, vs: seq<Value>) {
    forall i :: 0 <= i < |vs| ==> Fresh(p, vs[i])
  }

  // ---------- The meaning of an item ----------

  lemma FreshHead(p: Reading, neg: bool, n: nat)
    requires n < HEAD_LIMIT
    ensures Fresh(p, Int(if neg then -1 - n else n))
  {
    Powers();
    MinBELength(n, 8);
  }

  /** An integer within 256^k has no more than k bytes. */
  lemma WithinSized(n: int, k: nat)
    requires Within(n, k) && k < MAX_LENGTH
    ensures SizedInt(n) && SizedInt(-1 - n)
  {
    MinBELength(if n < 0 then -1 - n else n, k);
  }

  lemma {:induction false} JoinedSize(text: bool, cs: seq<Chunk>)
    requires ChunksReadable(text, cs)
    ensures |Joined(cs)| <= |FlattenChunks(text, cs)|
    decreases cs
  {
    if cs != [] {
      if cs[0].Nest? {
        JoinedSize(text, cs[0].chunks);
      }
      JoinedSize(text, cs[1..]);
    }
  }

  lemma {:induction false} ItemsSize(ws: seq<DataItem>)
    requires ReadableAll(ws)
    ensures |ws| <= |FlattenAll(ws)|
  {
    if ws != [] {
      ItemsSize(ws[1..]);
    }
  }

  /** How large an item can be among others. */
  lemma {:induction false} ItemSize(ws: seq<DataItem>, i: nat)
    requires ReadableAll(ws) && i < |ws|
    ensures |Flatten(ws[i])| + |ws| <= |FlattenAll(ws)| + 1
  {
    ItemsSize(ws[1..]);
    if i > 0 {
      ItemSize(ws[1..], i - 1);
    }
  }

  /** A dict is made of the keys and values read. */
  lemma {:induction false} BuildFrom(kvs: seq<Value>)
    requires Build(kvs).Some?
    ensures forall e :: e in Build(kvs).value ==> e.key in kvs && e.val in kvs
    decreases |kvs|
  {
    if kvs != [] {
      var n := |kvs| - 2;
      var front, k, v := kvs[..n], kvs[n], kvs[n + 1];
      BuildFrom(front);
      var es := Build(front).value;
      forall e | e in Put(es, k, v) ensures e.key in kvs && e.val in kvs {
        assert k in kvs && v in kvs;
        var i := FindKey(es, k);
        if e !in es && i < |es| {
          assert es[i] in es;
          assert e == Entry(es[i].key, v);
        }
      }
    }
  }

  lemma FreshDict(p: Reading, kvs: seq<Value>)
    requires FreshAll(p, kvs) && |kvs| < MAX_LENGTH && Build(kvs).Some?
    ensures Fresh(p, Dict(Build(kvs).value))
  {
    var es := Build(kvs).value;
    BuildSize(kvs);
    BuildDistinct(kvs);
    BuildFrom(kvs);
    forall i | 0 <= i < |es| ensures FreshEntry(p, es[i]) {
      assert es[i] in es;
    }
  }

  lemma FreshString(p: Reading, w: DataItem)
    requires (w.WStr? || w.WChunked?) && Readable(w) && Meaning(p, w).Some? && |Flatten(w)| < MAX_LENGTH
    ensures Fresh(p, Meaning(p, w).value)
  {
    match w
    case WStr(_, _, _) =>
    case WChunked(text, cs) => JoinedSize(text, cs);
  }

  lemma FreshLeaf(p: Reading, w: DataItem)
    requires (w.WInt? || w.WSimple? || w.WFloat?) && Readable(w) && Meaning(p, w).Some?
    ensures Fresh(p, Meaning(p, w).value)
  {
    if w.WInt? {
      FreshHead(p, w.neg, w.n);
    }
  }

  // ---------- The size of integers ----------

  lemma {:induction false} MeaningAt(p: Reading, ws: seq<DataItem>, i: nat)
    requires MeaningAll(p, ws).Some? && i < |ws|
    ensures Meaning(p, ws[i]) == Some(MeaningAll(p, ws).value[i])
  {
    if i > 0 {
      MeaningAt(p, ws[1..], i - 1);
    }
  }

  lemma HeadWithin(neg: bool, wd: Width, n: nat)
    requires Spells(wd, n)
    ensures Within(if neg then -1 - n else n, 1 + Follow(wd))
  {
    assert Pow256(1) == 256 * Pow256(0);
    if wd.Imm? || wd.Reserved? {
    } else {
      FitsPow(wd, n);
      WithinMore(if neg then -1 - n else n, Follow(wd), 1 + Follow(wd));
    }
  }

  lemma BytesWithin(num: nat, data: seq<byte>, k: nat)
    requires (num == TAG_BIGNUM || num == TAG_NEGBIGNUM) && |data| <= k
    ensures Within(Bignum(num, data).value.n, k)
  {
    FromBEBound(data);
    WithinMore(Bignum(num, data).value.n, |data|, k);
  }

  lemma BytesSize(p: Reading, w: DataItem)
    requires Readable(w) && Meaning(p, w).Some? && Meaning(p, w).value.Bytes?
    ensures |Meaning(p, w).value.data| <= |Flatten(w)|
  {
    BytesOnly(p, w);
    StringSize(w);
  }

  lemma BytesOnly(p: Reading, w: DataItem)
    requires Meaning(p, w).Some? && Meaning(p, w).value.Bytes?
    ensures w.WStr? || w.WChunked?
    ensures Meaning(p, w).value.data == if w.WStr? then w.data else Joined(w.chunks)
  {
  }

  lemma StringSize(w: DataItem)
    requires Readable(w) && (w.WStr? || w.WChunked?)
    ensures |if w.WStr? then w.data else Joined(w.chunks)| <= |Flatten(w)|
  {
    if w.WChunked? {
      JoinedSize(w.text, w.chunks);
    }
  }

  /** An integer takes no more bytes than the item that it was read from. */
  lemma {:induction false} IntWithin(p: Reading, w: DataItem)
    requires Readable(w) && Meaning(p, w).Some? && Meaning(p, w).value.Int?
    ensures Within(Meaning(p, w).value.n, |Flatten(w)|)
    decreases w, 1
  {
    if w.WInt? {
      HeadWithin(w.neg, w.w, w.n);
    } else {
      BignumOnly(p, w);
      TagSize(w);
      if InC(p) {
        BytesWithin(w.num, w.item.data, |Flatten(w)|);
      } else {
        var v := Meaning(p, w.item).value;
        if v.Bytes? {
          BytesSize(p, w.item);
          BytesWithin(w.num, v.data, |Flatten(w)|);
        } else {
          FoldWithin(p, w.item);
          SignWithin(p, w.num, v, |Flatten(w.item)| + 1, |Flatten(w)|);
        }
      }
    }
  }

  lemma SignWithin(p: Reading, num: nat, v: Value, j: nat, k: nat)
    requires (num == TAG_BIGNUM || num == TAG_NEGBIGNUM) && !v.Bytes? && Tagged(p, num, v).Some?
    requires Folded(v).Some? && Within(Folded(v).value, j) && j <= k
    ensures Tagged(p, num, v).value.Int? && Within(Tagged(p, num, v).value.n, k)
  {
    WithinMore(Folded(v).value, j, k);
  }

  lemma TagSize(w: DataItem)
    requires Readable(w) && w.WTag?
    ensures |Flatten(w)| > |Flatten(w.item)|
    ensures w.item.WStr? ==> |Flatten(w.item)| > |w.item.data|
  {
  }

  lemma BignumOnly(p: Reading, w: DataItem)
    requires Readable(w) && !w.WInt? && Meaning(p, w).Some? && Meaning(p, w).value.Int?
    ensures w.WTag? && !w.w.Reserved? && (w.num == TAG_BIGNUM || w.num == TAG_NEGBIGNUM)
    ensures !InC(p) ==> Meaning(p, w.item).Some?
    ensures Meaning(p, w) ==
            if InC(p) then Bignum(w.num, w.item.data) else Tagged(p, w.num, Meaning(p, w.item).value)
  {
  }

  /** What the loop over something else computes. */
  lemma {:induction false} FoldWithin(p: Reading, w: DataItem)
    requires Readable(w) && Meaning(p, w).Some? && Folded(Meaning(p, w).value).Some? && !Meaning(p, w).value.Bytes?
    ensures Within(Folded(Meaning(p, w).value).value, |Flatten(w)| + 1)
    decreases w, 0
  {
    var v := Meaning(p, w).value;
    if v.Text? {
      TextFolded(v);
      WithinMore(0, 0, |Flatten(w)| + 1);
    } else {
      ContainerParts(p, w, v);
      var m := ElementsWithin(p, w.isMap, w.items, v);
      FoldedElements(v, m, |Flatten(w)| + 1);
    }
  }

  lemma TextFolded(v: Value)
    requires v.Text? && Folded(v).Some?
    ensures Folded(v) == Some(0) && Within(0, 0)
  {
    if v.data != [] {
      assert false;
    }
  }

  lemma FoldedElements(v: Value, m: nat, k: nat)
    requires Folded(v).Some? && m > 0 && m + |Elements(v).value| <= k
    requires forall i :: 0 <= i < |Elements(v).value| && Elements(v).value[i].Int? ==> Within(Elements(v).value[i].n, m)
    ensures Within(Folded(v).value, k)
  {
    FoldedWithin(Elements(v).value, m);
    WithinMore(Folded(v).value, m + |Elements(v).value|, k);
  }

  lemma ContainerParts(p: Reading, w: DataItem, v: Value)
    requires Readable(w) && Meaning(p, w) == Some(v) && Elements(v).Some? && !v.Bytes? && !v.Text?
    ensures (w.WGroup? || w.WOpenGroup?) && Grouped(w.isMap, MeaningAll(p, w.items)) == Some(v)
    ensures ReadableAll(w.items) && |FlattenAll(w.items)| < |Flatten(w)|
    ensures w decreases to w.items
  {
    ContainerOnly(p, w);
    GroupParts(p, w);
  }

  lemma ContainerOnly(p: Reading, w: DataItem)
    requires Meaning(p, w).Some? && (Meaning(p, w).value.List? || Meaning(p, w).value.Dict?)
    ensures w.WGroup? || w.WOpenGroup?
  {
  }

  /** `m` bytes for each integer among the elements, and one for every element. */
  lemma {:induction false} ElementsWithin(p: Reading, isMap: bool, items: seq<DataItem>, v: Value) returns (m: nat)
    requires ReadableAll(items) && Grouped(isMap, MeaningAll(p, items)) == Some(v)
    ensures Elements(v).Some?
    ensures var vs := Elements(v).value;
            && m > 0 && m + |vs| <= |FlattenAll(items)| + 1
            && forall i :: 0 <= i < |vs| && vs[i].Int? ==> Within(vs[i].n, m)
    decreases items
  {
    ItemsSize(items);
    var all, vs := MeaningAll(p, items).value, Elements(v).value;
    m := |FlattenAll(items)| + 1 - |items|;
    forall i | 0 <= i < |items| && all[i].Int? ensures Within(all[i].n, m) {
      MeaningAt(p, items, i);
      ItemSize(items, i);
      IntWithin(p, items[i]);
      WithinMore(all[i].n, |Flatten(items[i])|, m);
    }
    if isMap {
      BuildSize(all);
      BuildFrom(all);
      var es := Build(all).value;
      forall i | 0 <= i < |vs| && vs[i].Int? ensures Within(vs[i].n, m) {
        assert es[i] in es && es[i].key in all;
        var k :| 0 <= k < |all| && all[k] == es[i].key;
      }
    }
  }

  // ---------- Objects ----------

  lemma GroupParts(p: Reading, w: DataItem)
    requires Readable(w) && (w.WGroup? || w.WOpenGroup?)
    ensures ReadableAll(w.items) && |FlattenAll(w.items)| < |Flatten(w)|
    ensures Meaning(p, w).Some? ==> Meaning(p, w) == Grouped(w.isMap, MeaningAll(p, w.items))
    ensures w decreases to w.items
  {
  }

  /** Whatever an item means is an object as decoders return them. */
  lemma {:induction false} MeaningFresh(p: Reading, w: DataItem)
    requires Readable(w) && Meaning(p, w).Some? && |Flatten(w)| < MAX_LENGTH
    ensures Fresh(p, Meaning(p, w).value)
    decreases w, 1
  {
    if w.WGroup? || w.WOpenGroup? {
      ContainerFresh(p, w);
    } else if w.WTag? {
      TagFresh(p, w);
    } else if w.WStr? || w.WChunked? {
      FreshString(p, w);
    } else {
      FreshLeaf(p, w);
    }
  }

  lemma {:induction false} ContainerFresh(p: Reading, w: DataItem)
    requires (w.WGroup? || w.WOpenGroup?) && Readable(w) && Meaning(p, w).Some? && |Flatten(w)| < MAX_LENGTH
    ensures Fresh(p, Meaning(p, w).value)
    decreases w, 0
  {
    GroupParts(p, w);
    GroupFresh(p, w.isMap, w.items);
  }

  lemma {:induction false} TagFresh(p: Reading, w: DataItem)
    requires w.WTag? && Readable(w) && Meaning(p, w).Some? && |Flatten(w)| < MAX_LENGTH
    ensures Fresh(p, Meaning(p, w).value)
    decreases w, 0
  {
    if Meaning(p, w).value.Int? {
      IntWithin(p, w);
      WithinSized(Meaning(p, w).value.n, |Flatten(w)|);
      if InC(p) {
        SmallBignum(p, w);
      }
    } else {
      if Meaning(p, w.item).Some? {
        MeaningFresh(p, w.item);
      }
      OtherTagFresh(p, w);
    }
  }

  /** What the C decoder makes of a bignum has 23 bytes at most. */
  lemma SmallBignum(p: Reading, w: DataItem)
    requires w.WTag? && Readable(w) && InC(p) && Meaning(p, w).Some? && Meaning(p, w).value.Int?
    ensures InBignumRange(Meaning(p, w).value.n)
  {
    BignumOnly(p, w);
    FromBEBound(w.item.data);
    PowGrows(|w.item.data|, C_BIGNUM_BYTES);
    BignumLimit();
  }

  lemma OtherTagFresh(p: Reading, w: DataItem)
    requires Readable(w) && w.WTag? && Meaning(p, w).Some? && !Meaning(p, w).value.Int?
    requires Meaning(p, w.item).Some? ==> Fresh(p, Meaning(p, w.item).value)
    ensures Fresh(p, Meaning(p, w).value)
  {
  }

  lemma {:induction false} GroupFresh(p: Reading, isMap: bool, items: seq<DataItem>)
    requires ReadableAll(items) && |FlattenAll(items)| < MAX_LENGTH && Grouped(isMap, MeaningAll(p, items)).Some?
    ensures Fresh(p, Grouped(isMap, MeaningAll(p, items)).value)
    decreases items, 2
  {
    AllFresh(p, items);
    ItemsSize(items);
    if isMap {
      FreshDict(p, MeaningAll(p, items).value);
    }
  }

  lemma {:induction false} AllFresh(p: Reading, ws: seq<DataItem>)
    requires ReadableAll(ws) && MeaningAll(p, ws).Some? && |FlattenAll(ws)| < MAX_LENGTH
    ensures FreshAll(p, MeaningAll(p, ws).value)
    decreases ws, 1
  {
    if ws != [] {
      MeaningFresh(p, ws[0]);
      AllFresh(p, ws[1..]);
      var vs := MeaningAll(p, ws).value;
      forall i | 0 <= i < |vs| ensures Fresh(p, vs[i]) {
        if i > 0 {
          assert vs[i] == MeaningAll(p, ws[1..]).value[i - 1];
        }
      }
    }
  }

  // ---------- Arbitrary bytes ----------

  /** What the C decoder returns. */
  lemma CFresh(m: C.Mode, s: seq<byte>)
    requires C.Item(m, s).Ok? && |s| < MAX_LENGTH
    ensures Fresh(CCompleteness.ReadingOf(m), C.Item(m, s).value)
  {
    var w := CSoundness.ReadsItem(m, s);
    MeaningFresh(CCompleteness.ReadingOf(m), w);
  }

  lemma {:induction false} ClipSize(w: DataItem, cut: nat)
    requires Readable(w) && cut <= PyTruncation.Trailing(w)
    ensures var c := PyTruncation.Clip(w, cut); Readable(c) && |Flatten(c)| + cut == |Flatten(w)|
    decreases w
  {
    match w
    case WGroup(_, _, items) => ClipSizeAll(items, cut);
    case WTag(_, _, item) => ClipSize(item, cut);
    case _ =>
  }

  lemma {:induction false} ClipSizeAll(ws: seq<DataItem>, cut: nat)
    requires ReadableAll(ws) && cut <= PyTruncation.TrailingAll(ws)
    ensures var cs := PyTruncation.ClipAll(ws, cut); ReadableAll(cs) && |FlattenAll(cs)| + cut == |FlattenAll(ws)|
    decreases ws
  {
    if |ws| == 1 {
      ClipSize(ws[0], cut);
      assert [PyTruncation.Clip(ws[0], cut)][1..] == [];
    } else if ws != [] {
      ClipSizeAll(ws[1..], cut);
      var cs := PyTruncation.ClipAll(ws[1..], cut);
      assert ([ws[0]] + cs)[1..] == cs;
    }
  }

  /** What the Python decoder returns. */
  lemma PyFresh(s: seq<byte>)
    requires Py.Item(s).Got? && |s| < MAX_LENGTH
    ensures Fresh(FromPython, Py.Item(s).value)
  {
    var w, q := PySoundness.ExplainsItem(s);
    ClipSize(w, |q|);
    assert |s + q| == |Flatten(w) + Py.Item(s).rest|;
    MeaningFresh(FromPython, PyTruncation.Clip(w, |q|));
  }

  // ---------- Writing it again ----------

  /**
    A returned object is valid; the Python encoder knows it, and what it writes is an item,
    unless it contains a tag whose number is None, which the C decoder never returns.
   */
  lemma {:induction false} FreshValid(p: Reading, v: Value)
    requires Fresh(p, v)
    ensures Valid(v)
    ensures HasItem(v) <==> Encodable(Python, v)
    ensures InC(p) ==> HasItem(v)
    decreases v
  {
    match v
    case List(items, _) =>
      forall i | 0 <= i < |items|
        ensures Valid(items[i]) && (HasItem(items[i]) <==> Encodable(Python, items[i]))
        ensures InC(p) ==> HasItem(items[i])
      {
        FreshValid(p, items[i]);
      }
    case Dict(entries) =>
      forall i | 0 <= i < |entries|
        ensures Valid(entries[i].key) && Valid(entries[i].val)
        ensures HasItem(entries[i].key) <==> Encodable(Python, entries[i].key)
        ensures HasItem(entries[i].val) <==> Encodable(Python, entries[i].val)
        ensures InC(p) ==> HasItem(entries[i].key) && HasItem(entries[i].val)
      {
        assert entries decreases to entries[i];
        assert FreshEntry(p, entries[i]);
        FreshValid(p, entries[i].key);
        FreshValid(p, entries[i].val);
      }
    case Tag(_, item) => FreshValid(p, item);
    case BareTag(item) => FreshValid(p, item);
    case _ =>
  }

  /** A returned object contains no tuple. */
  lemma {:induction false} FreshNorm(p: Reading, v: Value)
    requires Fresh(p, v)
    ensures Norm(v) == v
    decreases v
  {
    match v
    case List(items, _) => FreshNormAll(p, items);
    case Dict(entries) => FreshNormEntries(p, entries);
    case Tag(_, item) => FreshNorm(p, item);
    case BareTag(item) => FreshNorm(p, item);
    case _ =>
  }

  lemma {:induction false} FreshNormAll(p: Reading, vs: seq<Value>)
    requires FreshAll(p, vs)
    ensures NormAll(vs) == vs
    decreases vs
  {
    if vs != [] {
      FreshNorm(p, vs[0]);
      FreshNormAll(p, vs[1..]);
    }
  }

  lemma {:induction false} FreshNormEntries(p: Reading, es: seq<Entry>)
    requires forall i :: 0 <= i < |es| ==> FreshEntry(p, es[i])
    ensures NormEntries(es) == es
    decreases es
  {
    if es != [] {
      assert es decreases to es[0];
      assert FreshEntry(p, es[0]);
      FreshNorm(p, es[0].key);
      FreshNorm(p, es[0].val);
      FreshNormEntries(p, es[1..]);
    }
  }

  /** No list and no dict has more entries than the loop counters of the C decoder can reach. */
  predicate Counted(v: Value) {
    match v
    case List(items, _) => |items| < MAX_COUNT && forall i :: 0 <= i < |items| ==> Counted(items[i])
    case Dict(entries) =>
      |entries| < MAX_COUNT && forall i :: 0 <= i < |entries| ==> Counted(entries[i].key) && Counted(entries[i].val)
    case Tag(_, item) => Counted(item)
    case _ => true
  }

  /** Nothing in it is lost on the way to the same decoder, if that can count its entries. */
  lemma {:induction false} FreshSurvives(d: Codec, p: Reading, r: Reading, v: Value)
    requires Fresh(p, v)
    requires (InC(p) && InC(r)) || (d.Python? && p.FromPython? && r.FromPython?)
    ensures Survives(d, r, v) <==> (InC(r) ==> Counted(v))
    decreases v
  {
    match v
    case List(items, _) =>
      forall i | 0 <= i < |items| ensures Survives(d, r, items[i]) <==> (InC(r) ==> Counted(items[i])) {
        FreshSurvives(d, p, r, items[i]);
      }
    case Dict(entries) =>
      forall i | 0 <= i < |entries|
        ensures Survives(d, r, entries[i].key) <==> (InC(r) ==> Counted(entries[i].key))
        ensures Survives(d, r, entries[i].val) <==> (InC(r) ==> Counted(entries[i].val))
      {
        assert entries decreases to entries[i];
        assert FreshEntry(p, entries[i]);
        FreshSurvives(d, p, r, entries[i].key);
        FreshSurvives(d, p, r, entries[i].val);
      }
    case Tag(_, item) => FreshSurvives(d, p, r, item);
    case _ =>
  }

  lemma FreshTags(p: Reading, v: Value)
    requires Fresh(p, v)
    ensures Encodable(Codec.C, v) <==>
            forall x :: x in Support.Parts(v) && x.Tag? ==> 0 <= x.num < 0x8000_0000_0000_0000
  {
    FreshParts(p, v);
    Support.PartsDecide(Codec.C, v);
  }

  /** A returned object contains no instance of a class that the encoders do not know. */
  lemma {:induction false} FreshParts(p: Reading, v: Value)
    requires Fresh(p, v)
    ensures forall x :: x in Support.Parts(v) ==> !x.Instance?
    decreases v
  {
    Support.PartsOf(v);
    match v
    case List(items, _) => FreshPartsAll(p, items);
    case Dict(entries) => FreshPartsEntries(p, entries);
    case Tag(_, item) => FreshParts(p, item);
    case _ =>
  }

  lemma {:induction false} FreshPartsAll(p: Reading, vs: seq<Value>)
    requires FreshAll(p, vs)
    ensures forall x :: x in Support.PartsAll(vs) ==> !x.Instance?
    decreases vs
  {
    if vs != [] {
      FreshParts(p, vs[0]);
      FreshPartsAll(p, vs[1..]);
    }
  }

  lemma {:induction false} FreshPartsEntries(p: Reading, es: seq<Entry>)
    requires forall i :: 0 <= i < |es| ==> FreshEntry(p, es[i])
    ensures forall x :: x in Support.PartsEntries(es) ==> !x.Instance?
    decreases es
  {
    if es != [] {
      assert es decreases to es[0];
      assert FreshEntry(p, es[0]);
      FreshParts(p, es[0].key);
      FreshParts(p, es[0].val);
      FreshPartsEntries(p, es[1..]);
    }
  }

  /**
    An object that the C decoder returned for any bytes can be written by either encoder,
    the C one if its tag numbers are below 2^63, and the C decoder reads the same object,
    exactly if its loop counters can reach the sizes of the containers in it.
   */
  lemma CRecodes(m: C.Mode, s: seq<byte>, d: Codec, m': C.Mode, rest: seq<byte>)
    requires C.Item(m, s).Ok? && |s| < MAX_LENGTH
    ensures var v := C.Item(m, s).value;
            && Valid(v) && Encodable(Python, v)
            && (Encodable(d, v) ==> (C.Item(m', Enc(d, v) + rest) == C.Ok(v, rest) <==> Counted(v)))
            && (Encodable(Codec.C, v) <==>
                  forall x :: x in Support.Parts(v) && x.Tag? ==> 0 <= x.num < 0x8000_0000_0000_0000)
  {
    var v, p := C.Item(m, s).value, CCompleteness.ReadingOf(m);
    CFresh(m, s);
    FreshValid(p, v);
    FreshNorm(p, v);
    FreshSurvives(d, p, CCompleteness.ReadingOf(m'), v);
    FreshTags(p, v);
    if Encodable(d, v) {
      Interop.DecodedByC(d, m', v, rest);
    }
  }

  /** The same for Python, unless a tag whose number is None is in it: then `dumps` raises. */
  lemma PyRecodes(s: seq<byte>, rest: seq<byte>)
    requires Py.Item(s).Got? && |s| < MAX_LENGTH
    ensures var v := Py.Item(s).value;
            && Valid(v) && (Encodable(Python, v) <==> HasItem(v))
            && (Encodable(Python, v) ==> Py.Item(Enc(Python, v) + rest) == Py.Got(v, rest, |Enc(Python, v)|))
  {
    var v := Py.Item(s).value;
    PyFresh(s);
    FreshValid(FromPython, v);
    FreshNorm(FromPython, v);
    FreshSurvives(Python, FromPython, FromPython, v);
    if Encodable(Python, v) {
      Interop.DecodedByPython(Python, v, rest);
    }
  }
}
