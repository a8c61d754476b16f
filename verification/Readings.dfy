/**
  How the readings of a data item differ: the two decoders, and the C decoder over
  bytes and over a stream.
 */
module Readings {
  import opened Prelude
  import opened Values
  import opened Wire
  import Utf8

  /**
    The limits of the C decoder: bignum payloads are definite byte strings of less than
    24 bytes with a one-byte head, each chunk of a text is a text, and the items of a
    definite container can be counted with 32 bits.
   */
  predicate FitsC(w: DataItem) {
    match w
    case WChunked(text, chunks) => text ==> EachValid(chunks)
    case WGroup(isMap, _, items) =>
      Count(isMap, items) < MAX_COUNT && forall i :: 0 <= i < |items| ==> FitsC(items[i])
    case WOpenGroup(_, items) => forall i :: 0 <= i < |items| ==> FitsC(items[i])
    case WTag(_, num, item) =>
      if num == TAG_BIGNUM || num == TAG_NEGBIGNUM then item.WStr? && !item.text && item.w.Imm?
      else FitsC(item)
    case _ => true
  }

  /**
    The limits of the Python decoder: no tag that it turns into a library object, and of the
    malformed items only non-negative integers and tags of indefinite length.
   */
  predicate FitsPython(w: DataItem) {
    match w
    case WInt(neg, wd, _) => wd.Reserved? ==> !Definite(wd) && !neg
    case WStr(_, wd, _) => !wd.Reserved?
    case WChunked(_, chunks) => Plain(chunks)
    case WGroup(_, wd, items) => !wd.Reserved? && forall i :: 0 <= i < |items| ==> FitsPython(items[i])
    case WOpenGroup(_, items) => forall i :: 0 <= i < |items| ==> FitsPython(items[i])
    case WTag(wd, num, item) => (wd.Reserved? ==> !Definite(wd)) && !LibraryTag(num) && FitsPython(item)
    case WSimple(wd, _) => wd.Imm?
    case WFloat(_) => true
  }

  /** No integer and no tag of indefinite length: to C they are numbered 0, to Python None. */
  predicate Voidless(w: DataItem) {
    match w
    case WInt(_, wd, _) => !wd.Reserved?
    case WGroup(_, _, items) => forall i :: 0 <= i < |items| ==> Voidless(items[i])
    case WOpenGroup(_, items) => forall i :: 0 <= i < |items| ==> Voidless(items[i])
    case WTag(wd, _, item) => !wd.Reserved? && Voidless(item)
    case _ => true
  }

  /** No entry of a map that the Python decoder reads takes the place of another one. */
  predicate KeepsEntries(w: DataItem)
    decreases w
  {
    match w
    case WGroup(isMap, _, items) => KeepsAll(isMap, items)
    case WOpenGroup(isMap, items) => KeepsAll(isMap, items)
    case WTag(_, _, item) => KeepsEntries(item)
    case _ => true
  }

  predicate KeepsAll(isMap: bool, items: seq<DataItem>)
    decreases items
  {
    && (forall i :: 0 <= i < |items| ==> KeepsEntries(items[i]))
    && (isMap ==>
          match Grouped(true, MeaningAll(FromPython, items))
          case Some(d) => 2 * |d.entries| == |items|
          case None => true)
  }

  /** The item and the items inside it. */
  function Inside(w: DataItem): seq<DataItem>
    decreases w, 1
  {
    [w] + match w
          case WGroup(_, _, items) => InsideAll(items)
          case WOpenGroup(_, items) => InsideAll(items)
          case WTag(_, _, item) => Inside(item)
          case _ => []
  }

  function InsideAll(ws: seq<DataItem>): seq<DataItem>
    decreases ws
  {
    if ws == [] then [] else Inside(ws[0]) + InsideAll(ws[1..])
  }

  /** The dict that the Python decoder makes of the item, if it makes one, has as many entries as were read. */
  predicate Kept(w: DataItem) {
    (w.WGroup? || w.WOpenGroup?) && w.isMap ==>
      var kvs := MeaningAll(FromPython, w.items);
      kvs.Some? && Build(kvs.value).Some? ==> 2 * |Build(kvs.value).value| == |w.items|
  }

  lemma {:induction false} KeepsExactly(w: DataItem)
    ensures KeepsEntries(w) <==> forall x :: x in Inside(w) ==> Kept(x)
    decreases w, 1
  {
    assert w in Inside(w);
    match w
    case WGroup(_, _, items) => KeepsExactlyAll(items);
    case WOpenGroup(_, items) => KeepsExactlyAll(items);
    case WTag(_, _, item) => KeepsExactly(item);
    case _ => assert Inside(w) == [w];
  }

  lemma {:induction false} KeepsExactlyAll(ws: seq<DataItem>)
    ensures (forall i :: 0 <= i < |ws| ==> KeepsEntries(ws[i])) <==> forall x :: x in InsideAll(ws) ==> Kept(x)
    decreases ws
  {
    if ws != [] {
      KeepsExactly(ws[0]);
      KeepsExactlyAll(ws[1..]);
      assert forall i :: 1 <= i < |ws| ==> ws[i] == ws[1..][i - 1];
      assert forall i :: 0 <= i < |ws| - 1 ==> ws[1..][i] == ws[i + 1];
    }
  }

  /** No tag that the Python decoder turns into a library object. */
  predicate NoLibraryTags(w: DataItem) {
    match w
    case WGroup(_, _, items) => forall i :: 0 <= i < |items| ==> NoLibraryTags(items[i])
    case WOpenGroup(_, items) => forall i :: 0 <= i < |items| ==> NoLibraryTags(items[i])
    case WTag(_, num, item) => !LibraryTag(num) && NoLibraryTags(item)
    case _ => true
  }

  /** Of the well-formed items the Python decoder is limited in these tags alone. */
  lemma {:induction false} WellFormedFits(w: DataItem)
    requires WellFormed(w)
    ensures Voidless(w) && (FitsPython(w) <==> NoLibraryTags(w))
    decreases w
  {
    match w
    case WGroup(_, _, items) => WellFormedFitsAll(items);
    case WOpenGroup(_, items) => WellFormedFitsAll(items);
    case WTag(_, _, item) => WellFormedFits(item);
    case _ =>
  }

  lemma {:induction false} WellFormedFitsAll(ws: seq<DataItem>)
    requires WellFormedAll(ws)
    ensures forall i :: 0 <= i < |ws| ==> Voidless(ws[i])
    ensures forall i :: 0 <= i < |ws| ==> (FitsPython(ws[i]) <==> NoLibraryTags(ws[i]))
    decreases ws
  {
    forall i | 0 <= i < |ws| ensures Voidless(ws[i]) && (FitsPython(ws[i]) <==> NoLibraryTags(ws[i])) {
      WellFormedFits(ws[i]);
    }
  }

  /** No empty chunk in an indefinite byte string, outside bignum payloads. */
  predicate NoEmptyChunk(w: DataItem) {
    match w
    case WChunked(text, chunks) => text || NoneEmpty(chunks)
    case WGroup(_, _, items) => forall i :: 0 <= i < |items| ==> NoEmptyChunk(items[i])
    case WOpenGroup(_, items) => forall i :: 0 <= i < |items| ==> NoEmptyChunk(items[i])
    case WTag(_, _, item) => NoEmptyChunk(item)
    case _ => true
  }

  // ---------- The two decoders ----------

  predicate FitsCAll(ws: seq<DataItem>) {
    forall i :: 0 <= i < |ws| ==> FitsC(ws[i])
  }

  predicate FitsPythonAll(ws: seq<DataItem>) {
    forall i :: 0 <= i < |ws| ==> FitsPython(ws[i])
  }

  predicate VoidlessAll(ws: seq<DataItem>) {
    forall i :: 0 <= i < |ws| ==> Voidless(ws[i])
  }

  predicate KeepsEntriesAll(ws: seq<DataItem>) {
    forall i :: 0 <= i < |ws| ==> KeepsEntries(ws[i])
  }

  predicate NoEmptyChunkAll(ws: seq<DataItem>) {
    forall i :: 0 <= i < |ws| ==> NoEmptyChunk(ws[i])
  }

  /**
    What the C and the Python decoder make of something, given what each can take, whether
    voids are in it and whether each entry of a dict is kept.
   */
  predicate Compare<T(==)>(c: Option<T>, py: Option<T>, fitsC: bool, fitsPython: bool, voidless: bool, keeps: bool) {
    && (c.Some? ==> (py.Some? <==> fitsPython))
    && (py.Some? ==> (c.Some? <==> fitsC))
    && (c.Some? && py.Some? && voidless ==> c == py)
    && (c.Some? && keeps && c == py ==> voidless)
  }

  predicate AlikeOnes(c: Option<Value>, py: Option<Value>) {
    c.Some? && py.Some? ==> (Scalar(c.value) <==> Scalar(py.value))
  }

  predicate AlikeAll(c: Option<seq<Value>>, py: Option<seq<Value>>) {
    c.Some? && py.Some? ==>
      |c.value| == |py.value| && forall i :: 0 <= i < |c.value| ==> (Scalar(c.value[i]) <==> Scalar(py.value[i]))
  }

  predicate Compared(w: DataItem) {
    var c, py := Meaning(FromBuffer, w), Meaning(FromPython, w);
    Compare(c, py, FitsC(w), FitsPython(w), Voidless(w), KeepsEntries(w)) && AlikeOnes(c, py)
  }

  predicate ComparedAll(ws: seq<DataItem>) {
    var c, py := MeaningAll(FromBuffer, ws), MeaningAll(FromPython, ws);
    && Compare(c, py, FitsCAll(ws), FitsPythonAll(ws), VoidlessAll(ws), KeepsEntriesAll(ws))
    && AlikeAll(c, py)
  }

  /**
    What the decoders make of one item: each takes what the other takes exactly within its
    own limits; where both do and no void is in it the values are equal, and where each dict
    keeps its entries they are equal only then.
   */
  lemma {:induction false} DecodersCompare(w: DataItem)
    requires Readable(w)
    ensures Compared(w)
    decreases w
  {
    match w
    case WChunked(text, chunks) => CompareChunked(text, chunks);
    case WGroup(_, _, items) =>
      CompareAll(items);
      CompareGroup(w);
    case WOpenGroup(_, items) =>
      CompareAll(items);
      CompareGroup(w);
    case WTag(_, num, item) =>
      if num == TAG_BIGNUM || num == TAG_NEGBIGNUM {
        CompareBignum(w);
      } else {
        DecodersCompare(item);
        CompareTag(w);
      }
    case _ => CompareLeaf(w);
  }

  lemma CompareLeaf(w: DataItem)
    requires Readable(w) && (w.WInt? || w.WStr? || w.WSimple? || w.WFloat?)
    ensures Compared(w)
  {
  }

  lemma CompareChunked(text: bool, chunks: seq<Chunk>)
    ensures Compared(WChunked(text, chunks))
  {
    if text && EachValid(chunks) {
      EachValidJoined(chunks);
    }
  }

  lemma BytesFit(w: DataItem)
    requires Meaning(FromPython, w).Some? && Meaning(FromPython, w).value.Bytes?
    ensures (w.WStr? || w.WChunked?) && FitsPython(w)
  {
  }

  lemma CompareBignum(w: DataItem)
    requires Readable(w) && w.WTag? && (w.num == TAG_BIGNUM || w.num == TAG_NEGBIGNUM)
    ensures Compared(w)
  {
    if Meaning(FromBuffer, w).Some? {
      assert Meaning(FromPython, w.item) == Some(Bytes(w.item.data));
      BytesFit(w.item);
    }
  }

  lemma CompareTag(w: DataItem)
    requires Readable(w) && w.WTag? && w.num != TAG_BIGNUM && w.num != TAG_NEGBIGNUM && Compared(w.item)
    ensures Compared(w)
  {
  }

  /** Whether a dict can be made depends on the kinds of the keys alone. */
  lemma {:induction false} BuildAlike(a: seq<Value>, b: seq<Value>)
    requires |a| == |b| && forall i :: 0 <= i < |a| ==> (Scalar(a[i]) <==> Scalar(b[i]))
    ensures Build(a).Some? <==> Build(b).Some?
    decreases |a|
  {
    if |a| > 1 {
      var n := |a| - 2;
      BuildAlike(a[..n], b[..n]);
      assert a[n] == a[|a| - 2] && b[n] == b[|b| - 2];
    }
  }

  lemma GroupedAlike(isMap: bool, c: Option<seq<Value>>, py: Option<seq<Value>>)
    requires AlikeAll(c, py) && c.Some? && py.Some?
    ensures Grouped(isMap, c).Some? <==> Grouped(isMap, py).Some?
    ensures Grouped(isMap, c).Some? ==> !Scalar(Grouped(isMap, c).value)
  {
    BuildAlike(c.value, py.value);
  }

  /** Equal containers that have kept their entries were made of equal items. */
  lemma GroupedApart(isMap: bool, a: seq<Value>, b: seq<Value>)
    requires |a| == |b| && Grouped(isMap, Some(a)).Some? && Grouped(isMap, Some(a)) == Grouped(isMap, Some(b))
    requires isMap ==> 2 * |Grouped(true, Some(b)).value.entries| == |b|
    ensures a == b
  {
    if isMap {
      BuildNoCollision(a);
      BuildNoCollision(b);
    }
  }

  lemma CompareGroup(w: DataItem)
    requires Readable(w) && (w.WGroup? || w.WOpenGroup?) && ComparedAll(w.items)
    ensures Compared(w)
  {
    var all, allPy := MeaningAll(FromBuffer, w.items), MeaningAll(FromPython, w.items);
    var c, py := Meaning(FromBuffer, w), Meaning(FromPython, w);
    GroupMeanings(w);
    assert FitsPython(w) <==> !(w.WGroup? && w.w.Reserved?) && FitsPythonAll(w.items);
    if all.Some? && allPy.Some? {
      GroupedAlike(w.isMap, all, allPy);
      if c.Some? && c == py && KeepsEntries(w) {
        GroupedApart(w.isMap, all.value, allPy.value);
      }
    }
  }

  predicate Uncounted(w: DataItem) {
    w.WGroup? && Count(w.isMap, w.items) >= MAX_COUNT
  }

  lemma GroupMeanings(w: DataItem)
    requires w.WGroup? || w.WOpenGroup?
    ensures Meaning(FromBuffer, w) ==
            if Uncounted(w) then None else Grouped(w.isMap, MeaningAll(FromBuffer, w.items))
    ensures Meaning(FromPython, w) ==
            if w.WGroup? && w.w.Reserved? then None else Grouped(w.isMap, MeaningAll(FromPython, w.items))
    ensures FitsC(w) <==> !Uncounted(w) && FitsCAll(w.items)
    ensures Voidless(w) <==> VoidlessAll(w.items)
    ensures KeepsEntries(w) <==> KeepsAll(w.isMap, w.items)
  {
  }

  lemma {:induction false} CompareAll(ws: seq<DataItem>)
    requires ReadableAll(ws)
    ensures ComparedAll(ws)
    decreases ws
  {
    if ws != [] {
      DecodersCompare(ws[0]);
      CompareAll(ws[1..]);
      CompareCons(ws);
    }
  }

  lemma CompareCons(ws: seq<DataItem>)
    requires ws != [] && Compared(ws[0]) && ComparedAll(ws[1..])
    ensures ComparedAll(ws)
  {
    SplitAll(ws);
    var c, cs := Meaning(FromBuffer, ws[0]), MeaningAll(FromBuffer, ws[1..]);
    var p, ps := Meaning(FromPython, ws[0]), MeaningAll(FromPython, ws[1..]);
    if c.Some? && cs.Some? && p.Some? && ps.Some? {
      BothApart(c.value, cs.value, p.value, ps.value);
    }
  }

  lemma BothApart(c: Value, cs: seq<Value>, p: Value, ps: seq<Value>)
    ensures [c] + cs == [p] + ps <==> c == p && cs == ps
  {
    if [c] + cs == [p] + ps {
      assert ([c] + cs)[0] == ([p] + ps)[0];
      assert ([c] + cs)[1..] == cs && ([p] + ps)[1..] == ps;
    }
  }

  lemma SplitAll(ws: seq<DataItem>)
    requires ws != []
    ensures FitsCAll(ws) <==> FitsC(ws[0]) && FitsCAll(ws[1..])
    ensures FitsPythonAll(ws) <==> FitsPython(ws[0]) && FitsPythonAll(ws[1..])
    ensures VoidlessAll(ws) <==> Voidless(ws[0]) && VoidlessAll(ws[1..])
    ensures KeepsEntriesAll(ws) <==> KeepsEntries(ws[0]) && KeepsEntriesAll(ws[1..])
    ensures NoEmptyChunkAll(ws) <==> NoEmptyChunk(ws[0]) && NoEmptyChunkAll(ws[1..])
  {
    assert forall i :: 0 <= i < |ws[1..]| ==> ws[1..][i] == ws[i + 1];
    assert forall i :: 1 <= i < |ws| ==> ws[i] == ws[1..][i - 1];
  }

  // ---------- The two readers ----------

  predicate CompareReaders<T(==)>(buffer: Option<T>, object_: Option<T>, noEmptyChunk: bool) {
    && (object_.Some? ==> buffer == object_)
    && (buffer.Some? ==> (object_.Some? <==> noEmptyChunk))
  }

  /**
    Over a stream the C decoder yields the same value as over bytes or none, and it yields
    one exactly where no indefinite byte string has an empty chunk.
   */
  lemma {:induction false} ReadersCompare(w: DataItem)
    ensures CompareReaders(Meaning(FromBuffer, w), Meaning(FromObject, w), NoEmptyChunk(w))
    decreases w
  {
    match w
    case WGroup(isMap, _, items) => CompareReadersAll(items);
    case WOpenGroup(isMap, items) => CompareReadersAll(items);
    case WTag(_, num, item) => ReadersCompare(item);
    case _ =>
  }

  lemma {:induction false} CompareReadersAll(ws: seq<DataItem>)
    ensures CompareReaders(MeaningAll(FromBuffer, ws), MeaningAll(FromObject, ws), NoEmptyChunkAll(ws))
    decreases ws
  {
    if ws != [] {
      ReadersCompare(ws[0]);
      CompareReadersAll(ws[1..]);
      SplitAll(ws);
    }
  }
}
