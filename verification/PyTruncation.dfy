/**
  The Python decoder on items that were cut short.  A short `fp.read` goes unnoticed
  inside the payload of a definite string, so that not every truncated item is rejected:
  this module says exactly which ones are accepted, and as what.
 */
module PyTruncation {
  import opened Prelude
  import opened BigEndian
  import opened Values
  import opened Wire
  import opened PyGrammar
  import opened PyCompleteness
  import Utf8

  /** How many bytes at the end of an item can be missing without a complaint. */
  function Trailing(w: DataItem): nat {
    match w
    case WStr(_, _, data) => |data|
    case WGroup(_, _, items) => TrailingAll(items)
    case WTag(_, _, item) => Trailing(item)
    case _ => 0
  }

  function TrailingAll(ws: seq<DataItem>): nat {
    if ws == [] then 0 else if |ws| == 1 then Trailing(ws[0]) else TrailingAll(ws[1..])
  }

  /** The item whose last string has lost its last `cut` bytes. */
  function Clip(w: DataItem, cut: nat): DataItem
    requires cut <= Trailing(w)
  {
    match w
    case WStr(text, wd, data) => WStr(text, wd, data[..|data| - cut])
    case WGroup(isMap, wd, items) => WGroup(isMap, wd, ClipAll(items, cut))
    case WTag(wd, num, item) => WTag(wd, num, Clip(item, cut))
    case _ => w
  }

  function ClipAll(ws: seq<DataItem>, cut: nat): (r: seq<DataItem>)
    requires cut <= TrailingAll(ws)
    ensures |r| == |ws|
  {
    if ws == [] then []
    else if |ws| == 1 then [Clip(ws[0], cut)]
    else [ws[0]] + ClipAll(ws[1..], cut)
  }

  /** What an item means that lacks its last `cut` bytes. */
  function CutMeaning(w: DataItem, cut: nat): Option<Value> {
    if cut <= Trailing(w) then Meaning(FromPython, Clip(w, cut)) else None
  }

  function CutMeaningAll(ws: seq<DataItem>, cut: nat): Option<seq<Value>> {
    if cut <= TrailingAll(ws) then MeaningAll(FromPython, ClipAll(ws, cut)) else None
  }

  /** What is left of an item that lacks its last `cut` bytes comes to a call of `datetime` or `re`. */
  predicate CutCalls(w: DataItem, cut: nat)
    requires Readable(w)
  {
    match w
    case WGroup(_, wd, items) =>
      !wd.Reserved? && CutMeaningAll(items, cut).None? && CutCallsAll(items, cut)
    case WOpenGroup(_, items) => cut > 0 && CutCallsAll(items, cut - 1)
    case WTag(wd, num, item) =>
      && (wd.Reserved? ==> NoNumber(FromPython, wd)) && cut < |Flatten(item)|
      && TagCalls(wd, num, CutMeaning(item, cut), CutCalls(item, cut))
    case _ => false
  }

  predicate CutCallsAll(ws: seq<DataItem>, cut: nat)
    requires ReadableAll(ws)
  {
    && ws != [] && cut < |FlattenAll(ws)|
    && var behind := |FlattenAll(ws[1..])|;
       if cut <= behind then
         if Meaning(FromPython, ws[0]).Some? then CutCallsAll(ws[1..], cut) else CallsLibrary(ws[0])
       else CutMeaning(ws[0], cut - behind).None? && CutCalls(ws[0], cut - behind)
  }

  /** The answer for an item, or some, that lack their last `cut` bytes. */
  function CutAnswer(w: DataItem, cut: nat): PyParsed<Value>
    requires Readable(w)
  {
    Expect(CutMeaning(w, cut), CutCalls(w, cut), [], Cost(w))
  }

  function CutAnswers(ws: seq<DataItem>, cut: nat): PyParsed<seq<Value>>
    requires ReadableAll(ws)
  {
    Expect(CutMeaningAll(ws, cut), CutCallsAll(ws, cut), [], CostAll(ws))
  }

  lemma {:induction false} TrailingBound(w: DataItem)
    requires Readable(w)
    ensures Trailing(w) < |Flatten(w)|
    decreases w
  {
    match w
    case WGroup(_, _, items) => TrailingAllBound(items);
    case WTag(_, _, item) => TrailingBound(item);
    case _ =>
  }

  lemma {:induction false} TrailingAllBound(ws: seq<DataItem>)
    requires ReadableAll(ws)
    ensures TrailingAll(ws) <= |FlattenAll(ws)|
    ensures ws != [] ==> TrailingAll(ws) < |FlattenAll(ws)|
    decreases ws
  {
    if ws != [] {
      TrailingBound(ws[0]);
      TrailingAllBound(ws[1..]);
    }
  }

  /** Where a cut falls: in the first part, or behind it. */
  lemma Split(p: seq<byte>, q: seq<byte>, x: seq<byte>, y: seq<byte>)
    requires p + q == x + y
    ensures |p| < |x| ==> x == p + x[|p|..] && x[|p|..] != [] && q == x[|p|..] + y
    ensures |p| >= |x| ==> p == x + p[|x|..] && p[|x|..] + q == y
  {
    if |p| < |x| {
      assert (p + q)[..|p|] == p && (x + y)[..|p|] == x[..|p|];
      assert (p + q)[|p|..] == q && (x + y)[|p|..] == x[|p|..] + y;
    } else {
      assert (p + q)[..|x|] == p[..|x|] && (x + y)[..|x|] == x;
      assert (p + q)[|x|..] == p[|x|..] + q && (x + y)[|x|..] == y;
    }
  }

  // ---------- Heads and strings ----------

  lemma AuxCut(t: byte, wd: Width, n: nat, p: seq<byte>, q: seq<byte>)
    requires IsMajor(t) && Spells(wd, n) && p + q == HeadAt(t, wd, n) && p != [] && q != []
    ensures p[0] == TypeOr(t, Info(wd, n)) && TagAux(p[0], p[1..]) == Raises
  {
    assert p[0] == (p + q)[0];
    assert |p[1..]| < Follow(wd);
  }

  lemma HeadCut(t: byte, wd: Width, n: nat, p: seq<byte>, q: seq<byte>)
    requires IsMajor(t) && Spells(wd, n) && p + q == HeadAt(t, wd, n) && q != []
    requires t == SEVEN ==> Follow(wd) < 2
    ensures Item(p) == Raises
  {
    if p != [] {
      AuxCut(t, wd, n, p, q);
      assert TypeBits(p[0]) == t;
    }
  }

  lemma ShortBlob(text: bool, wd: Width, n: nat, d: seq<byte>, read: nat)
    requires |d| <= n < MAX_LENGTH && !wd.Reserved?
    ensures var r := LoadsBytes(StrType(text), Some(n), d);
            (if text then AsText(r, read) else AsBytes(r, read)) ==
            Expect(Meaning(FromPython, WStr(text, wd, d)), false, [], read + n)
  {
    assert Upto(d, n) == |d| && d[..|d|] == d && d[|d|..] == [];
    assert LoadsBytes(StrType(text), Some(n), d) == Got(d, [], n);
  }

  /** A definite string of which only `d` is there. */
  lemma ShortString(text: bool, wd: Width, n: nat, d: seq<byte>)
    requires Fits(wd, n) && |d| <= n < MAX_LENGTH
    ensures Item(HeadAt(StrType(text), wd, n) + d) ==
            Expect(Meaning(FromPython, WStr(text, wd, d)), false, [], 1 + Follow(wd) + n)
  {
    var t, read := StrType(text), 1 + Follow(wd);
    var r := LoadsBytes(t, Some(n), d);
    calc {
      Item(HeadAt(t, wd, n) + d);
      { ReadHead(t, wd, n, d); }
      Body(TypeOr(t, Info(wd, n)), Some(n), d, read);
      { BodyOfString(text, Info(wd, n), Some(n), d, read); }
      if text then AsText(r, read) else AsBytes(r, read);
      { ShortBlob(text, wd, n, d, read); }
      Expect(Meaning(FromPython, WStr(text, wd, d)), false, [], read + n);
    }
  }

  lemma CutString(w: DataItem, p: seq<byte>, q: seq<byte>)
    requires Readable(w) && w.WStr? && Flatten(w) == p + q && q != []
    ensures Item(p) == CutAnswer(w, |q|)
  {
    var t, n := StrType(w.text), |w.data|;
    var head := HeadAt(t, w.w, n);
    Split(p, q, head, w.data);
    if |p| < |head| {
      HeadCut(t, w.w, n, p, head[|p|..]);
    } else {
      var d := p[|head|..];
      assert d == w.data[..n - |q|];
      ShortString(w.text, w.w, n, d);
    }
  }

  lemma CutFloat(payload: seq<byte>, p: seq<byte>, q: seq<byte>)
    requires |payload| == 2 || |payload| == 4 || |payload| == 8
    requires [FloatHead(payload)] + payload == p + q && q != []
    ensures Item(p) == Raises
  {
    if p != [] {
      assert p[0] == (p + q)[0] == FloatHead(payload);
      assert |p[1..]| < |payload|;
    }
  }

  lemma CutLeaf(w: DataItem, p: seq<byte>, q: seq<byte>)
    requires Readable(w) && (w.WInt? || w.WSimple? || w.WFloat?) && Flatten(w) == p + q && q != []
    ensures Item(p) == Raises
  {
    match w
    case WInt(neg, wd, n) => HeadCut(if neg then NEGINT else UINT, wd, n, p, q);
    case WSimple(wd, code) => HeadCut(SEVEN, wd, code, p, q);
    case WFloat(payload) => CutFloat(payload, p, q);
  }

  // ---------- Chunks ----------

  lemma CutChunk(text: bool, c: Chunk, p: seq<byte>, q: seq<byte>)
    requires ChunkReadable(text, c) && FlattenChunk(text, c) == p + q && p != [] && q != []
    ensures p[0] != BREAK
    ensures var r := ChunkAt(StrType(text), p[0], p[1..]); r == Raises || (r.Got? && r.rest == [])
  {
    NoBreakChunk(text, c);
    assert p[0] == (p + q)[0];
    if c.Chunk? {
      CutPlainChunk(text, c.w, c.data, p, q);
    } else {
      assert InfoBits(p[0]) == VAR_FOLLOWS;
    }
  }

  lemma CutPlainChunk(text: bool, wd: Width, data: seq<byte>, p: seq<byte>, q: seq<byte>)
    requires Spells(wd, |data|) && HeadAt(StrType(text), wd, |data|) + data == p + q && p != [] && q != []
    ensures var r := ChunkAt(StrType(text), p[0], p[1..]); r == Raises || (r.Got? && r.rest == [])
  {
    var t, n := StrType(text), |data|;
    var head := HeadAt(t, wd, n);
    assert p[0] == (p + q)[0] == TypeOr(t, Info(wd, n));
    Split(p, q, head, data);
    if |p| < |head| {
      AuxCut(t, wd, n, p, head[|p|..]);
    } else {
      var d := p[|head|..];
      assert p[1..] == ToBE(n, Follow(wd)) + d;
      ReadAux(t, wd, n, d);
    }
  }

  lemma ChunksAfter(t: byte, p: seq<byte>)
    requires p != [] && p[0] != BREAK
    requires var r := ChunkAt(t, p[0], p[1..]); r == Raises || (r.Got? && Chunks(t, r.rest) == Raises)
    ensures Chunks(t, p) == Raises
  {
  }

  lemma {:induction false} CutChunks(text: bool, cs: seq<Chunk>, p: seq<byte>, q: seq<byte>)
    requires ChunksReadable(text, cs) && FlattenChunks(text, cs) + [BREAK] == p + q && q != []
    ensures Chunks(StrType(text), p) == Raises
    decreases |cs|
  {
    assert cs == [] ==> |p + q| == 1;
    if p != [] {
      var x, y := FlattenChunk(text, cs[0]), FlattenChunks(text, cs[1..]) + [BREAK];
      Assoc(x, FlattenChunks(text, cs[1..]), [BREAK]);
      Split(p, q, x, y);
      if |p| < |x| {
        CutChunk(text, cs[0], p, x[|p|..]);
      } else {
        ReadChunk(text, cs[0], p[|x|..]);
        CutChunks(text, cs[1..], p[|x|..], q);
      }
      ChunksAfter(StrType(text), p);
    }
  }

  // ---------- Items ----------

  /**
    The verdict of the Python decoder on every truncated item: it is accepted if and only
    if no more is missing than a part of its last string, and what is left means something;
    then the count reported is that of the whole item.
   */
  lemma CutItem(w: DataItem, p: seq<byte>, q: seq<byte>)
    requires Readable(w) && Flatten(w) == p + q && q != []
    ensures Item(p) == CutAnswer(w, |q|)
  {
    Cuts(w, p, q);
    assert ItemOpen(0);
  }

  lemma {:induction false} Cuts(w: DataItem, p: seq<byte>, q: seq<byte>)
    requires Readable(w) && Flatten(w) == p + q && q != []
    ensures ItemIs(p, CutAnswer(w, |q|))
    decreases w, 1
  {
    match w
    case WStr(_, _, _) => CutString(w, p, q);
    case WChunked(_, _) => CutChunked(w, p, q);
    case WGroup(_, _, _) => CutGroup(w, p, q);
    case WOpenGroup(_, _) => CutOpenGroup(w, p, q);
    case WTag(_, _, _) => CutTag(w, p, q);
    case _ => CutLeaf(w, p, q);
  }

  lemma {:induction false} CutTag(w: DataItem, p: seq<byte>, q: seq<byte>)
    requires Readable(w) && w.WTag? && Flatten(w) == p + q && q != []
    ensures ItemIs(p, CutAnswer(w, |q|))
    decreases w, 0
  {
    var head := HeadAt(TAG, w.w, w.num);
    Split(p, q, head, Flatten(w.item));
    if |p| < |head| {
      HeadCut(TAG, w.w, w.num, p, head[|p|..]);
      assert |q| > |Flatten(w.item)|;
      NoTagLeft(w, |q|);
    } else if w.w.Reserved? && Definite(w.w) {
      ReadReserved(TAG, w.w, w.num, p[|head|..]);
      CutTagMeaning(w, |q|);
    } else {
      var tail := p[|head|..];
      Cuts(w.item, tail, q);
      TagBody(w, tail, CutMeaning(w.item, |q|), CutCalls(w.item, |q|), []);
      CutTagMeaning(w, |q|);
      if tail == [] {
        NothingLeft(1);
        assert ItemOpen(0);
        NoTagLeft(w, |q|);
      }
    }
  }

  /** Nothing is left of what the tag is about. */
  lemma NoTagLeft(w: DataItem, cut: nat)
    requires Readable(w) && w.WTag? && cut >= |Flatten(w.item)|
    ensures CutAnswer(w, cut) == Raises
  {
    TrailingBound(w.item);
    CutTagMeaning(w, cut);
  }

  lemma CutTagMeaning(w: DataItem, cut: nat)
    requires Readable(w) && w.WTag?
    ensures CutMeaning(w, cut) ==
            if w.w.Reserved? && Definite(w.w) then None else TagMeaning(w.w, w.num, CutMeaning(w.item, cut))
    ensures CutCalls(w, cut) <==>
            && (w.w.Reserved? ==> !Definite(w.w)) && cut < |Flatten(w.item)|
            && TagCalls(w.w, w.num, CutMeaning(w.item, cut), CutCalls(w.item, cut))
  {
  }

  lemma CutChunked(w: DataItem, p: seq<byte>, q: seq<byte>)
    requires Readable(w) && w.WChunked? && Flatten(w) == p + q && q != []
    ensures Item(p) == Raises
  {
    if p != [] {
      var t, body := StrType(w.text), FlattenChunks(w.text, w.chunks) + [BREAK];
      var head := [TypeOr(t, VAR_FOLLOWS)];
      Assoc(head, FlattenChunks(w.text, w.chunks), [BREAK]);
      Split(p, q, head, body);
      var tail := p[1..];
      ReadOpenHead(t, tail);
      BodyOfString(w.text, VAR_FOLLOWS, None, tail, 1);
      CutChunks(w.text, w.chunks, tail, q);
    }
  }

  lemma {:induction false} CutGroup(w: DataItem, p: seq<byte>, q: seq<byte>)
    requires Readable(w) && w.WGroup? && Flatten(w) == p + q && q != []
    ensures ItemIs(p, CutAnswer(w, |q|))
    decreases w, 0
  {
    var t, n := GroupType(w.isMap), Count(w.isMap, w.items);
    var head := HeadAt(t, w.w, n);
    Split(p, q, head, FlattenAll(w.items));
    if |p| < |head| {
      HeadCut(t, w.w, n, p, head[|p|..]);
      assert |q| > |FlattenAll(w.items)|;
      NoGroupLeft(w, |q|);
    } else if w.w.Reserved? {
      ReadReserved(t, w.w, n, p[|head|..]);
      CutGroupMeaning(w, |q|);
    } else {
      CutItems(w.items, p[|head|..], q);
      GroupLeft(w, p[|head|..], |q|);
    }
  }

  /** The head of the container is there. */
  lemma GroupLeft(w: DataItem, tail: seq<byte>, cut: nat)
    requires Readable(w) && w.WGroup? && !w.w.Reserved? && ItemsAre(tail, |w.items|, CutAnswers(w.items, cut))
    ensures Item(HeadAt(GroupType(w.isMap), w.w, Count(w.isMap, w.items)) + tail) == CutAnswer(w, cut)
  {
    var all := CutMeaningAll(w.items, cut);
    CutGroupMeaning(w, cut);
    GroupBody(w, tail, CutAnswers(w.items, cut));
    ExpectGroup(w.isMap, all, all.None? && CutCallsAll(w.items, cut), [], CostAll(w.items), 1 + Follow(w.w));
  }

  lemma NoGroupLeft(w: DataItem, cut: nat)
    requires Readable(w) && w.WGroup? && cut > |FlattenAll(w.items)|
    ensures CutAnswer(w, cut) == Raises
  {
    TrailingAllBound(w.items);
    CutGroupMeaning(w, cut);
    assert CutMeaningAll(w.items, cut).None? && !CutCallsAll(w.items, cut);
  }

  lemma CutGroupMeaning(w: DataItem, cut: nat)
    requires Readable(w) && w.WGroup?
    ensures CutMeaning(w, cut) == if w.w.Reserved? then None else Grouped(w.isMap, CutMeaningAll(w.items, cut))
    ensures CutCalls(w, cut) <==>
            !w.w.Reserved? && CutMeaningAll(w.items, cut).None? && CutCallsAll(w.items, cut)
  {
  }

  lemma {:induction false} CutOpenGroup(w: DataItem, p: seq<byte>, q: seq<byte>)
    requires Readable(w) && w.WOpenGroup? && Flatten(w) == p + q && q != []
    ensures ItemIs(p, CutAnswer(w, |q|))
    decreases w, 0
  {
    OpenCut(w, |q|);
    if p != [] {
      var t, body := GroupType(w.isMap), FlattenAll(w.items) + [BREAK];
      var head := [TypeOr(t, VAR_FOLLOWS)];
      Assoc(head, FlattenAll(w.items), [BREAK]);
      Split(p, q, head, body);
      var tail := p[1..];
      ReadOpenHead(t, tail);
      BodyOfGroup(w.isMap, VAR_FOLLOWS, None, tail, 1);
      if w.isMap {
        CutPairs(w.items, Count(w.isMap, w.items), tail, q);
      } else {
        CutToBreak(w.items, tail, q);
      }
      assert GroupItems(w.isMap, None, tail) == Fails(CutCallsAll(w.items, |q| - 1)) by {
        assert RowOpen(0);
      }
    }
  }

  /** Of an indefinite container nothing can be missing. */
  lemma OpenCut(w: DataItem, cut: nat)
    requires Readable(w) && w.WOpenGroup? && cut > 0
    ensures CutAnswer(w, cut) == Fails(CutCallsAll(w.items, cut - 1))
    ensures cut >= |Flatten(w)| ==> CutAnswer(w, cut) == Raises
  {
  }

  lemma CutMeaningCons(ws: seq<DataItem>, cut: nat)
    requires |ws| > 1
    ensures CutMeaningAll(ws, cut) == Both(Meaning(FromPython, ws[0]), CutMeaningAll(ws[1..], cut))
  {
    if cut <= TrailingAll(ws) {
      assert ([ws[0]] + ClipAll(ws[1..], cut))[1..] == ClipAll(ws[1..], cut);
    }
  }

  lemma NothingLeft(n: nat)
    requires n > 0
    ensures ItemIs([], Raises) && ItemsAre([], n, Raises) && ToBreakIs([], Raises) && PairsAre([], Raises)
  {
  }

  lemma {:induction false} CutItems(ws: seq<DataItem>, p: seq<byte>, q: seq<byte>)
    requires ReadableAll(ws) && FlattenAll(ws) == p + q && q != []
    ensures ItemsAre(p, |ws|, CutAnswers(ws, |q|))
    decreases ws, 2
  {
    var x, y := Flatten(ws[0]), FlattenAll(ws[1..]);
    Split(p, q, x, y);
    if |p| >= |x| {
      var tail := p[|x|..];
      Reads(ws[0], tail);
      CutItems(ws[1..], tail, q);
      ItemsThen(p, |ws|, Answer(ws[0], tail), CutAnswers(ws[1..], |q|));
      ThenCut(ws, tail, |q|);
    } else {
      CutFirst(ws, p, q);
    }
  }

  /** An item that is there, in front of some that are cut. */
  lemma ThenCut(ws: seq<DataItem>, tail: seq<byte>, cut: nat)
    requires ReadableAll(ws) && ws != [] && 0 < cut <= |FlattenAll(ws[1..])|
    ensures Then(Answer(ws[0], tail), CutAnswers(ws[1..], cut), 0) == CutAnswers(ws, cut)
  {
    CutMeaningCons(ws, cut);
    ThenExpect(Meaning(FromPython, ws[0]), CallsLibrary(ws[0]), tail, Cost(ws[0]),
               CutMeaningAll(ws[1..], cut), CutCallsAll(ws[1..], cut), [], CostAll(ws[1..]), 0);
  }

  lemma {:induction false} CutFirst(ws: seq<DataItem>, p: seq<byte>, q: seq<byte>)
    requires ReadableAll(ws) && FlattenAll(ws) == p + q && ws != [] && |p| < |Flatten(ws[0])|
    ensures ItemsAre(p, |ws|, CutAnswers(ws, |q|))
    decreases ws, 1
  {
    var x, y := Flatten(ws[0]), FlattenAll(ws[1..]);
    Split(p, q, x, y);
    var mid := x[|p|..];
    Cuts(ws[0], p, mid);
    assert |q| == |mid| + |y|;
    if p == [] {
      assert |q| == |FlattenAll(ws)|;
      TrailingAllBound(ws);
      NothingLeft(|ws|);
    } else if |ws| == 1 {
      assert y == [] && q == mid;
      LastCut(ws, p, |q|);
    } else {
      OthersGone(ws, p, |mid|);
    }
  }

  lemma LastCut(ws: seq<DataItem>, p: seq<byte>, cut: nat)
    requires ReadableAll(ws) && |ws| == 1 && 0 < cut < |Flatten(ws[0])| && ItemIs(p, CutAnswer(ws[0], cut))
    ensures ItemsAre(p, 1, CutAnswers(ws, cut))
  {
    ItemsEnd([]);
    ItemsThen(p, 1, CutAnswer(ws[0], cut), Got([], [], 0));
    ThenExpect(CutMeaning(ws[0], cut), CutCalls(ws[0], cut), [], Cost(ws[0]), Some([]), false, [], 0, 0);
    OneCut(ws, cut);
    assert FlattenAll(ws) == Flatten(ws[0]) + [] && FlattenAll(ws[1..]) == [];
    assert CostAll(ws) == Cost(ws[0]) + 0;
  }

  /** Where an item is cut that is not the last one, nothing is left of the others. */
  lemma OthersGone(ws: seq<DataItem>, p: seq<byte>, cut: nat)
    requires ReadableAll(ws) && |ws| > 1 && 0 < cut < |Flatten(ws[0])| && ItemIs(p, CutAnswer(ws[0], cut))
    ensures ItemsAre(p, |ws|, CutAnswers(ws, cut + |FlattenAll(ws[1..])|))
  {
    NothingLeft(|ws| - 1);
    ItemsThen(p, |ws|, CutAnswer(ws[0], cut), Raises);
    TrailingAllBound(ws[1..]);
    assert CutMeaningAll(ws, cut + |FlattenAll(ws[1..])|).None?;
  }

  lemma OneCut(ws: seq<DataItem>, cut: nat)
    requires |ws| == 1
    ensures CutMeaningAll(ws, cut) == Both(CutMeaning(ws[0], cut), Some([]))
  {
    if cut <= Trailing(ws[0]) {
      var cs := ClipAll(ws, cut);
      assert cs == [Clip(ws[0], cut)] && cs[1..] == [];
      assert MeaningAll(FromPython, cs) == Both(Meaning(FromPython, cs[0]), MeaningAll(FromPython, []));
    }
  }

  lemma {:induction false} CutToBreak(ws: seq<DataItem>, p: seq<byte>, q: seq<byte>)
    requires ReadableAll(ws) && FlattenAll(ws) + [BREAK] == p + q && q != []
    ensures ToBreakIs(p, Fails(CutCallsAll(ws, |q| - 1)))
    decreases ws, 2
  {
    NothingLeft(1);
    assert |p| + |q| == |FlattenAll(ws)| + 1;
    if p != [] {
      var x, y := Flatten(ws[0]), FlattenAll(ws[1..]) + [BREAK];
      Assoc(x, FlattenAll(ws[1..]), [BREAK]);
      Split(p, q, x, y);
      NoBreak(ws[0]);
      assert p[0] == (p + q)[0] == x[0];
      if |p| < |x| {
        Cuts(ws[0], p, x[|p|..]);
        BreakCut(ws, p, |x| - |p|);
        assert |q| - 1 == |x| - |p| + |FlattenAll(ws[1..])|;
      } else {
        Reads(ws[0], p[|x|..]);
        CutToBreak(ws[1..], p[|x|..], q);
        BreakThen(p, Answer(ws[0], p[|x|..]), Fails(CutCallsAll(ws[1..], |q| - 1)));
        OtherCalls(ws, p[|x|..], |q| - 1, 1);
      }
    }
  }

  lemma BreakCut(ws: seq<DataItem>, p: seq<byte>, cut: nat)
    requires ReadableAll(ws) && ws != [] && 0 < cut < |Flatten(ws[0])|
    requires p != [] && p[0] != BREAK && ItemIs(p, CutAnswer(ws[0], cut))
    ensures ToBreakIs(p, Fails(CutCallsAll(ws, cut + |FlattenAll(ws[1..])|)))
  {
    NothingLeft(1);
    BreakThen(p, CutAnswer(ws[0], cut), Raises);
    FirstCalls(ws, cut, 1);
  }

  lemma {:induction false} CutPairs(ws: seq<DataItem>, n: nat, p: seq<byte>, q: seq<byte>)
    requires ReadableAll(ws) && |ws| == 2 * n && FlattenAll(ws) + [BREAK] == p + q && q != []
    ensures PairsAre(p, Fails(CutCallsAll(ws, |q| - 1)))
    decreases ws, 2
  {
    NothingLeft(1);
    assert |p| + |q| == |FlattenAll(ws)| + 1;
    if p != [] {
      var us := ws[1..];
      var x, y := Flatten(ws[0]), FlattenAll(us) + [BREAK];
      Assoc(x, FlattenAll(us), [BREAK]);
      Split(p, q, x, y);
      NoBreak(ws[0]);
      assert p[0] == (p + q)[0] == x[0];
      if |p| < |x| {
        Cuts(ws[0], p, x[|p|..]);
        PairsThen(p, CutAnswer(ws[0], |x| - |p|), Raises, Raises);
      } else {
        Reads(ws[0], p[|x|..]);
        CutSecond(ws, n, p, q);
      }
    }
  }

  /** The key is there. */
  lemma {:induction false} CutSecond(ws: seq<DataItem>, n: nat, p: seq<byte>, q: seq<byte>)
    requires ReadableAll(ws) && |ws| == 2 * n && n > 0 && q != []
    requires |p| >= |Flatten(ws[0])| && p != [] && p[0] != BREAK
    requires p[|Flatten(ws[0])|..] + q == FlattenAll(ws[1..]) + [BREAK]
    requires ItemIs(p, Answer(ws[0], p[|Flatten(ws[0])|..]))
    ensures PairsAre(p, Fails(CutCallsAll(ws, |q| - 1)))
    decreases ws, 1
  {
    var us, s := ws[1..], p[|Flatten(ws[0])|..];
    var v, r := CutValue(us, n - 1, s, q);
    PairsThen(p, Answer(ws[0], s), v, r);
    assert |s| + |q| == |FlattenAll(us)| + 1;
  }

  /** The value behind it, and what follows that, fail together. */
  lemma {:induction false} CutValue(us: seq<DataItem>, n: nat, s: seq<byte>, q: seq<byte>)
    returns (v: PyParsed<Value>, r: PyParsed<seq<Value>>)
    requires ReadableAll(us) && |us| == 2 * n + 1 && q != [] && s + q == FlattenAll(us) + [BREAK]
    ensures ItemIs(s, v) && (v.Got? ==> PairsAre(v.rest, r))
    ensures Then(v, r, 0) == Fails(CutCallsAll(us, |q| - 1))
    decreases us, 3
  {
    NothingLeft(1);
    var vs, cut := us[1..], |q| - 1;
    var x, y := Flatten(us[0]), FlattenAll(vs) + [BREAK];
    Assoc(x, FlattenAll(vs), [BREAK]);
    Split(s, q, x, y);
    assert |s| + |q| == |FlattenAll(us)| + 1;
    if s == [] {
      v, r := Raises, Raises;
    } else if |s| < |x| {
      Cuts(us[0], s, x[|s|..]);
      v, r := CutAnswer(us[0], |x| - |s|), Raises;
      FirstCalls(us, |x| - |s|, 0);
    } else {
      Reads(us[0], s[|x|..]);
      CutPairs(vs, n, s[|x|..], q);
      v, r := Answer(us[0], s[|x|..]), Fails(CutCallsAll(vs, cut));
      OtherCalls(us, s[|x|..], cut, 0);
    }
  }

  lemma FirstCalls(us: seq<DataItem>, cut: nat, extra: nat)
    requires ReadableAll(us) && us != [] && 0 < cut < |Flatten(us[0])|
    ensures Then(CutAnswer(us[0], cut), Raises, extra) == Fails(CutCallsAll(us, cut + |FlattenAll(us[1..])|))
  {
    var all := cut + |FlattenAll(us[1..])|;
    assert all < |FlattenAll(us)|;
    assert CutCallsAll(us, all) <==> CutMeaning(us[0], cut).None? && CutCalls(us[0], cut);
  }

  lemma OtherCalls(us: seq<DataItem>, tail: seq<byte>, cut: nat, extra: nat)
    requires ReadableAll(us) && us != [] && cut <= |FlattenAll(us[1..])|
    ensures Then(Answer(us[0], tail), Fails(CutCallsAll(us[1..], cut)), extra) == Fails(CutCallsAll(us, cut))
  {
    assert CutCallsAll(us, cut) <==>
           if Meaning(FromPython, us[0]).Some? then CutCallsAll(us[1..], cut) else CallsLibrary(us[0]);
  }

  /** The same for the first `k` bytes of an item. */
  lemma TruncationVerdict(w: DataItem, k: nat)
    requires Readable(w) && k < |Flatten(w)|
    ensures var r, m := Item(Flatten(w)[..k]), CutMeaning(w, |Flatten(w)| - k);
            && (r.Got? <==> m.Some?) && (r.Got? ==> r == Got(m.value, [], Cost(w)))
            && (r.Foreign? <==> m.None? && CutCalls(w, |Flatten(w)| - k))
  {
    var s := Flatten(w);
    var p, q := s[..k], s[k..];
    assert s == p + q && |q| == |s| - k;
    CutItem(w, p, q);
  }

  /** For instance: the encoding of two bytes, one of which is missing, is read as the other. */
  lemma TruncationAccepted()
    ensures Item([0x42, 0x61]) == Got(Bytes([0x61]), [], 3)
  {
    var w := WStr(false, Imm, [0x61, 0x62]);
    assert Flatten(w) == [0x42, 0x61, 0x62];
    assert [0x42, 0x61, 0x62] == [0x42, 0x61] + [0x62];
    CutItem(w, [0x42, 0x61], [0x62]);
    assert [0x61, 0x62][..1] == [0x61];
  }
}
