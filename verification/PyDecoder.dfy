/**
  The Python decoder: a walk over a file object that also adds up how many bytes each
  call read, proved to compute the functions of `PyGrammar`.
 */
module PyDecoder {
  import opened Prelude
  import opened BigEndian
  import opened Values
  import opened Floats
  import opened Wire
  import opened PyGrammar
  import opened Biguint
  import CGrammar
  import Bits
  import Utf8

  /**
    What a call returns: an object with the bytes read for it, an exception, or whatever
    comes of a call of `datetime` or `re`.
   */
  datatype Reply<+T> = Done(ob: T, bytesRead: nat) | Raised | Library

  function Stop<T, U>(r: Reply<T>): (f: Reply<U>)
    requires !r.Done?
    ensures !f.Done?
  {
    if r.Library? then Library else Raised
  }

  // Each kind of fact that is sealed has a seal of its own.

  predicate FpOpen(k: int) { true }

  predicate DictOpen(k: int) { true }

  predicate PairOpen(k: int) { true }

  predicate LoopOpen(k: int) { true }

  /** A `BytesIO`. */
  class Fp {
    const buf: seq<byte>
    var pos: nat
    ghost var left: seq<byte>  // what is still to come

    constructor (buf: seq<byte>)
      ensures Valid() && left == buf && this.buf == buf
    {
      this.buf, pos, left := buf, 0, buf;
    }

    ghost predicate Valid()
      reads this
    {
      forall k {:trigger FpOpen(k)} :: FpOpen(k) ==> pos <= |buf| && left == buf[pos..]
    }

    /** As many bytes as there are, but no more than `n`. */
    method Read(n: nat) returns (data: seq<byte>)
      requires Valid()
      modifies this
      ensures Valid()
      ensures var k := Upto(old(left), n); data == old(left)[..k] && left == old(left)[k..]
    {
      assert FpOpen(0);
      var k := if n <= |buf| - pos then n else |buf| - pos;
      data := buf[pos..pos + k];
      pos, left := pos + k, left[k..];
    }
  }

  /** A call did what the grammar says, after `read` bytes had been counted before it. */
  ghost predicate Gives<T>(fp: Fp, r: Reply<T>, spec: PyParsed<T>, read: nat)
    reads fp
  {
    && fp.Valid()
    && match spec
       case Got(v, rest, c) => r == Done(v, read + c) && fp.left == rest
       case Raises => r.Raised?
       case Foreign => !r.Done?
  }

  // ---------- Heads ----------

  method ReadByte(fp: Fp) returns (r: Reply<byte>)
    requires fp.Valid()
    modifies fp
    ensures fp.Valid()
    ensures var s := old(fp.left);
            if s == [] then r.Raised? else r == Done(s[0], 1) && fp.left == s[1..]
  {
    var tb := fp.Read(1);
    if |tb| == 0 {
      return Raised;  // EOFError
    }
    return Done(tb[0], 1);
  }

  /** `fp.read(k)` and `struct.unpack_from`, which needs all of the bytes. */
  method ReadNumber(fp: Fp, k: nat) returns (r: Reply<Option<nat>>)
    requires fp.Valid()
    modifies fp
    ensures Gives(fp, r, Unpack(old(fp.left), k), 0)
  {
    var data := fp.Read(k);
    if |data| < k {
      return Raised;  // struct.error
    }
    return Done(Some(FromBE(data)), 1 + k);
  }

  method TagAuxOf(fp: Fp, tb: byte) returns (r: Reply<Option<nat>>)
    requires fp.Valid()
    modifies fp
    ensures Gives(fp, r, TagAux(tb, old(fp.left)), 0)
  {
    var _, tagAux := Bits.SplitHead(tb);
    if tagAux <= 23 {
      r := Done(Some(tagAux as nat), 1);
    } else if tagAux == UINT8_FOLLOWS {
      r := ReadNumber(fp, 1);
    } else if tagAux == UINT16_FOLLOWS {
      r := ReadNumber(fp, 2);
    } else if tagAux == UINT32_FOLLOWS {
      r := ReadNumber(fp, 4);
    } else if tagAux == UINT64_FOLLOWS {
      r := ReadNumber(fp, 8);
    } else if tagAux == VAR_FOLLOWS {
      r := Done(None, 1);
    } else {
      r := Raised;  // bogus tag
    }
  }

  method LoadsFloat(fp: Fp, tb: byte) returns (r: Reply<Value>)
    requires fp.Valid() && UINT16_FOLLOWS <= InfoBits(tb) <= UINT64_FOLLOWS
    modifies fp
    ensures Gives(fp, r, FloatAfter(tb, old(fp.left)), 0)
  {
    var k := if InfoBits(tb) == UINT16_FOLLOWS then 2 else if InfoBits(tb) == UINT32_FOLLOWS then 4 else 8;
    var data := fp.Read(k);
    if |data| < k {
      return Raised;  // struct.error
    }
    if k == 2 {
      assert data == [data[0], data[1]];
      var double := Half(data[0], data[1]);
      return Done(Float(double), 3);
    }
    return Done(Float(Double(data)), 1 + k);
  }

  // ---------- Strings ----------

  /** A result that continues what has been collected and counted so far. */
  ghost function Plus<T>(acc: seq<T>, c: nat, r: PyParsed<seq<T>>): PyParsed<seq<T>> {
    match r
    case Got(vs, rest, d) => Got(acc + vs, rest, c + d)
    case _ => r
  }

  lemma PlusNone<T>(r: PyParsed<seq<T>>)
    ensures Plus([], 0, r) == r
  {
    if r.Got? {
      assert [] + r.value == r.value;
    }
  }

  lemma PlusTwice<T>(acc: seq<T>, c: nat, x: seq<T>, d: nat, r: PyParsed<seq<T>>)
    ensures Plus(acc, c, Plus(x, d, r)) == Plus(acc + x, c + d, r)
  {
    if r.Got? {
      assert acc + (x + r.value) == acc + x + r.value;
    }
  }

  /** After `acc`, for which `c` bytes were counted, the string goes on with `tail`. */
  ghost predicate ChunksFrom(t: byte, s0: seq<byte>, acc: seq<byte>, c: nat, tail: seq<byte>) {
    forall k {:trigger CGrammar.Unsealed(k)} :: CGrammar.Unsealed(k) ==>
      Chunks(t, s0) == Plus(acc, c, Chunks(t, tail))
  }

  lemma ChunksStart(t: byte, s: seq<byte>)
    ensures ChunksFrom(t, s, [], 0, s)
  {
    PlusNone(Chunks(t, s));
  }

  lemma ChunksStep(t: byte, s: seq<byte>)
    requires s != [] && s[0] != BREAK
    ensures var r := ChunkAt(t, s[0], s[1..]);
            Chunks(t, s) == if r.Got? then Plus(r.value, r.count, Chunks(t, r.rest)) else r
  {
  }

  lemma ChunksPass(t: byte, s0: seq<byte>, acc: seq<byte>, c: nat, tail: seq<byte>)
    requires ChunksFrom(t, s0, acc, c, tail) && tail != [] && tail[0] != BREAK
    ensures var r := ChunkAt(t, tail[0], tail[1..]);
            if r.Got? then ChunksFrom(t, s0, acc + r.value, c + r.count, r.rest) else Chunks(t, s0) == r
  {
    assert CGrammar.Unsealed(0);
    ChunksStep(t, tail);
    var r := ChunkAt(t, tail[0], tail[1..]);
    if r.Got? {
      PlusTwice(acc, c, r.value, r.count, Chunks(t, r.rest));
    }
  }

  lemma ChunksStop(t: byte, s0: seq<byte>, acc: seq<byte>, c: nat, tail: seq<byte>)
    requires ChunksFrom(t, s0, acc, c, tail)
    ensures tail == [] ==> Chunks(t, s0) == Raises
    ensures tail != [] && tail[0] == BREAK ==> Chunks(t, s0) == Got(acc, tail[1..], c + 1)
  {
    assert CGrammar.Unsealed(0);
    assert acc + [] == acc;
  }

  method LoadsChunk(fp: Fp, t: byte, tb: byte) returns (r: Reply<seq<byte>>)
    requires fp.Valid()
    modifies fp
    ensures Gives(fp, r, ChunkAt(t, tb, old(fp.left)), 0)
  {
    var tag, _ := Bits.SplitHead(tb);
    var aux := TagAuxOf(fp, tb);
    if !aux.Done? { return Stop(aux); }
    if tag != t || aux.ob.None? || aux.ob.value >= MAX_LENGTH {
      return Raised;  // an assertion, or what read() makes of None or of such a length
    }
    var ob := fp.Read(aux.ob.value);
    return Done(ob, aux.bytesRead + aux.ob.value);
  }

  method LoadsBytesOf(fp: Fp, aux: Option<nat>, t: byte) returns (r: Reply<seq<byte>>)
    requires fp.Valid()
    modifies fp
    ensures Gives(fp, r, LoadsBytes(t, aux, old(fp.left)), 0)
  {
    if aux.Some? {
      if aux.value >= MAX_LENGTH {
        return Raised;  // OverflowError
      }
      var ob := fp.Read(aux.value);
      return Done(ob, aux.value);
    }
    ghost var s0 := fp.left;
    var chunklist: seq<byte>, totalBytesRead: nat := [], 0;
    ChunksStart(t, s0);
    while true
      invariant fp.Valid()
      invariant ChunksFrom(t, s0, chunklist, totalBytesRead, fp.left)
      decreases |fp.left|
    {
      ghost var tail := fp.left;
      ChunksStop(t, s0, chunklist, totalBytesRead, tail);
      var tb := ReadByte(fp);
      if !tb.Done? { return Stop(tb); }
      if tb.ob == BREAK {
        return Done(chunklist, totalBytesRead + 1);
      }
      ChunksPass(t, s0, chunklist, totalBytesRead, tail);
      var chunk := LoadsChunk(fp, t, tb.ob);
      if !chunk.Done? { return Stop(chunk); }
      chunklist := chunklist + chunk.ob;
      totalBytesRead := totalBytesRead + chunk.bytesRead;
    }
  }

  // ---------- Tags ----------

  /** The loop over what a payload iterates over; None where an element is no number. */
  method BytesToBiguint(bs: seq<Value>) returns (r: Option<int>)
    ensures r == FoldedAll(bs)
  {
    var out := 0;
    for i := 0 to |bs|
      invariant FoldedAll(bs[..i]) == Some(out)
    {
      assert bs[..i + 1][..i] == bs[..i];
      var ch := NumberOf(bs[i]);
      if ch.None? {
        FoldedSpoilt(bs, i + 1);
        return None;  // TypeError
      }
      out := BitOr(out * 256, ch.value);
    }
    assert bs[..|bs|] == bs;
    return Some(out);
  }

  /** The interpretation of a tag; `bytesRead` is passed on. */
  method Tagify(ob: Value, aux: Option<nat>, bytesRead: nat) returns (r: Reply<Value>)
    ensures aux.None? ==> r == Done(BareTag(ob), bytesRead)
    ensures aux.Some? && LibraryTag(aux.value) ==> r.Library?
    ensures aux.Some? && !LibraryTag(aux.value) ==>
            r == match Tagged(FromPython, aux.value, ob) case Some(v) => Done(v, bytesRead) case None => Raised
  {
    if aux.None? {
      return Done(BareTag(ob), bytesRead);
    }
    if LibraryTag(aux.value) {
      return Library;  // datetime.utcfromtimestamp and re.compile
    }
    if aux.value == TAG_BIGNUM || aux.value == TAG_NEGBIGNUM {
      if ob.Bytes? {
        FoldedBytes(ob.data);
      }
      var bs := Elements(ob);
      if bs.None? {
        return Raised;  // TypeError: not iterable
      }
      var n := BytesToBiguint(bs.value);
      if n.None? {
        return Raised;
      }
      return Done(Int(if aux.value == TAG_BIGNUM then n.value else -1 - n.value), bytesRead);
    }
    return Done(Tag(aux.value, ob), bytesRead);
  }

  // ---------- The walk over a container, pass by pass ----------

  ghost predicate ItemsFrom(s0: seq<byte>, n: nat, acc: seq<Value>, c: nat, tail: seq<byte>, todo: nat) {
    && |acc| + todo == n
    && forall k {:trigger CGrammar.Unsealed(k)} :: CGrammar.Unsealed(k) ==>
      Items(s0, n) == Plus(acc, c, Items(tail, todo))
  }

  lemma ItemsStart(s: seq<byte>, n: nat)
    ensures ItemsFrom(s, n, [], 0, s, n)
  {
    PlusNone(Items(s, n));
  }

  lemma ItemsStep(s: seq<byte>, n: nat)
    requires n > 0
    ensures var r := Item(s);
            Items(s, n) == if r.Got? then Plus([r.value], r.count, Items(r.rest, n - 1)) else Failed(r)
  {
  }

  lemma ItemsPass(s0: seq<byte>, n: nat, acc: seq<Value>, c: nat, tail: seq<byte>, todo: nat)
    requires ItemsFrom(s0, n, acc, c, tail, todo) && todo > 0
    ensures var r := Item(tail);
            if r.Got? then ItemsFrom(s0, n, acc + [r.value], c + r.count, r.rest, todo - 1)
            else Items(s0, n) == Failed(r)
  {
    assert CGrammar.Unsealed(0);
    ItemsStep(tail, todo);
    var r := Item(tail);
    if r.Got? {
      PlusTwice(acc, c, [r.value], r.count, Items(r.rest, todo - 1));
    }
  }

  lemma ItemsStop(s0: seq<byte>, n: nat, acc: seq<Value>, c: nat, tail: seq<byte>)
    requires ItemsFrom(s0, n, acc, c, tail, 0)
    ensures Items(s0, n) == Got(acc, tail, c)
  {
    assert CGrammar.Unsealed(0);
    assert acc + [] == acc;
  }

  ghost predicate BreakFrom(s0: seq<byte>, acc: seq<Value>, c: nat, tail: seq<byte>) {
    forall k {:trigger CGrammar.Unsealed(k)} :: CGrammar.Unsealed(k) ==>
      ItemsToBreak(s0) == Plus(acc, c, ItemsToBreak(tail))
  }

  lemma BreakStart(s: seq<byte>)
    ensures BreakFrom(s, [], 0, s)
  {
    PlusNone(ItemsToBreak(s));
  }

  lemma BreakStep(s: seq<byte>)
    requires s != [] && s[0] != BREAK
    ensures var r := Item(s);
            ItemsToBreak(s) == if r.Got? then Plus([r.value], 1 + r.count, ItemsToBreak(r.rest)) else Failed(r)
  {
  }

  lemma BreakPass(s0: seq<byte>, acc: seq<Value>, c: nat, tail: seq<byte>)
    requires BreakFrom(s0, acc, c, tail) && tail != [] && tail[0] != BREAK
    ensures var r := Item(tail);
            if r.Got? then BreakFrom(s0, acc + [r.value], c + 1 + r.count, r.rest)
            else ItemsToBreak(s0) == Failed(r)
  {
    assert CGrammar.Unsealed(0);
    BreakStep(tail);
    var r := Item(tail);
    if r.Got? {
      PlusTwice(acc, c, [r.value], 1 + r.count, ItemsToBreak(r.rest));
      assert c + (1 + r.count) == c + 1 + r.count;
    }
  }

  lemma BreakStop(s0: seq<byte>, acc: seq<Value>, c: nat, tail: seq<byte>)
    requires BreakFrom(s0, acc, c, tail)
    ensures tail == [] ==> ItemsToBreak(s0) == Raises
    ensures tail != [] && tail[0] == BREAK ==> ItemsToBreak(s0) == Got(acc, tail[1..], c + 1)
  {
    assert CGrammar.Unsealed(0);
    assert acc + [] == acc;
  }

  ghost predicate PairsFrom(s0: seq<byte>, acc: seq<Value>, c: nat, tail: seq<byte>) {
    forall k {:trigger CGrammar.Unsealed(k)} :: CGrammar.Unsealed(k) ==>
      PairsToBreak(s0) == Plus(acc, c, PairsToBreak(tail))
  }

  lemma PairsStart(s: seq<byte>)
    ensures PairsFrom(s, [], 0, s)
  {
    PlusNone(PairsToBreak(s));
  }

  lemma PairsToBreakStep(s: seq<byte>)
    requires s != [] && s[0] != BREAK
    ensures var r := PairAt(s);
            PairsToBreak(s) ==
            if r.Got? then Plus([r.value.0, r.value.1], 1 + r.count, PairsToBreak(r.rest)) else Failed(r)
  {
  }

  lemma PairsToBreakPass(s0: seq<byte>, acc: seq<Value>, c: nat, tail: seq<byte>)
    requires PairsFrom(s0, acc, c, tail) && tail != [] && tail[0] != BREAK
    ensures var r := PairAt(tail);
            if r.Got? then PairsFrom(s0, acc + [r.value.0, r.value.1], c + 1 + r.count, r.rest)
            else PairsToBreak(s0) == Failed(r)
  {
    assert CGrammar.Unsealed(0);
    PairsToBreakStep(tail);
    var r := PairAt(tail);
    if r.Got? {
      PlusTwice(acc, c, [r.value.0, r.value.1], 1 + r.count, PairsToBreak(r.rest));
      assert c + (1 + r.count) == c + 1 + r.count;
    }
  }

  lemma PairsStop(s0: seq<byte>, acc: seq<Value>, c: nat, tail: seq<byte>)
    requires PairsFrom(s0, acc, c, tail)
    ensures tail == [] ==> PairsToBreak(s0) == Raises
    ensures tail != [] && tail[0] == BREAK ==> PairsToBreak(s0) == Got(acc, tail[1..], c + 1)
  {
    assert CGrammar.Unsealed(0);
    assert acc + [] == acc;
  }

  // ---------- Dicts ----------

  /** Once a key was not hashable, nothing that follows makes a dict of it. */
  lemma {:induction false} BuildSpoilt(kvs: seq<Value>, n: nat, more: seq<Value>)
    requires |kvs| == 2 * n && Build(kvs).None?
    ensures Build(kvs + more).None?
    decreases |more|
  {
    if more == [] {
      assert kvs + more == kvs;
    } else if |more| == 1 {
      BuildOdd(kvs + more, n);
    } else {
      var front, k, v := more[..|more| - 2], more[|more| - 2], more[|more| - 1];
      BuildSpoilt(kvs, n, front);
      BuildSnoc(kvs + front, k, v);
      assert kvs + more == kvs + front + [k, v];
    }
  }

  /** The dict made of keys and values in alternation. */
  ghost function AsDict(r: PyParsed<seq<Value>>): PyParsed<seq<Entry>> {
    match r
    case Got(kvs, rest, c) =>
      (match Build(kvs) case Some(es) => Got(es, rest, c) case None => Raises)
    case Raises => Raises
    case Foreign => Foreign
  }

  lemma DictIsGroup(r: PyParsed<seq<Value>>, read: nat)
    ensures AsGroup(true, r, read) ==
            match AsDict(r)
            case Got(es, rest, c) => Got(Dict(es), rest, read + c)
            case Raises => Raises
            case Foreign => Foreign
  {
  }

  /** The dict of the keys and values read so far; `n` is their number. */
  ghost predicate Collects(out: seq<Entry>, kvs: seq<Value>, n: nat) {
    && |kvs| == 2 * n && ScalarKeys(out)
    && forall k {:trigger DictOpen(k)} :: DictOpen(k) ==> Build(kvs) == Some(out)
  }

  /** No dict starts with these keys and values; sealed. */
  ghost predicate Spoilt(kvs: seq<Value>) {
    forall k {:trigger DictOpen(k)} :: DictOpen(k) ==> forall more :: Build(kvs + more).None?
  }

  lemma CollectsMore(out: seq<Entry>, kvs: seq<Value>, n: nat, k: Value, v: Value)
    requires Collects(out, kvs, n)
    ensures var more := SetItem(Some(out), k, v);
            if more.Some? then Collects(more.value, kvs + [k, v], n + 1) else Spoilt(kvs + [k, v])
  {
    assert DictOpen(0);
    var kvs' := kvs + [k, v];
    BuildSnoc(kvs, k, v);
    if !Scalar(k) {
      forall more ensures Build(kvs' + more).None? {
        BuildSpoilt(kvs', n + 1, more);
      }
    }
  }

  lemma DictDone(out: seq<Entry>, kvs: seq<Value>, n: nat, rest: seq<byte>, c: nat)
    requires Collects(out, kvs, n)
    ensures AsDict(Got(kvs, rest, c)) == Got(out, rest, c)
  {
    assert DictOpen(0);
  }

  /** One more entry for the dict `out`. */
  ghost function EntryOf(r: PyParsed<(Value, Value)>, out: seq<Entry>): (e: PyParsed<seq<Entry>>)
    requires ScalarKeys(out)
    ensures e.Got? ==> ScalarKeys(e.value) && r.Got? && e.rest == r.rest && e.count == r.count
  {
    if !r.Got? then Failed(r)
    else
      match SetItem(Some(out), r.value.0, r.value.1)
      case Some(es) => Got(es, r.rest, r.count)
      case None => Raises
  }

  ghost function EntryAt(s: seq<byte>, out: seq<Entry>): (e: PyParsed<seq<Entry>>)
    requires ScalarKeys(out)
    ensures e.Got? ==> ScalarKeys(e.value) && |e.rest| < |s|
  {
    EntryOf(PairAt(s), out)
  }

  ghost function AddCount<T>(c: nat, r: PyParsed<T>): PyParsed<T> {
    if r.Got? then Got(r.value, r.rest, c + r.count) else r
  }

  /** The loop of a definite map with `n` entries to go. */
  ghost function EntriesFrom(s: seq<byte>, n: nat, out: seq<Entry>): PyParsed<seq<Entry>>
    requires ScalarKeys(out)
    decreases n
  {
    if n == 0 then Got(out, s, 0)
    else
      var e := EntryAt(s, out);
      if e.Got? then AddCount(e.count, EntriesFrom(e.rest, n - 1, e.value)) else e
  }

  /** The loop gives `e`, the grammar `spec`: they differ in which of two failures comes first. */
  ghost predicate Agrees<T>(e: PyParsed<T>, spec: PyParsed<T>) {
    if e.Got? then spec == e else !spec.Got? && (spec.Raises? ==> e.Raises?)
  }

  /** The loop over pairs, with the dict of `kvs` at hand, against the dict of `m` more items. */
  ghost predicate LoopAgrees(s: seq<byte>, n: nat, m: nat, out: seq<Entry>, kvs: seq<Value>) {
    && ScalarKeys(out)
    && forall k {:trigger LoopOpen(k)} :: LoopOpen(k) ==>
      Agrees(EntriesFrom(s, n, out), AsDict(Plus(kvs, 0, Items(s, m))))
  }

  ghost predicate PairIs(s: seq<byte>, r: PyParsed<(Value, Value)>) {
    forall k {:trigger PairOpen(k)} :: PairOpen(k) ==> PairAt(s) == r
  }

  lemma ThePair(s: seq<byte>) returns (r: PyParsed<(Value, Value)>)
    ensures PairIs(s, r) && (r.Got? ==> |r.rest| < |s|)
  {
    r := PairAt(s);
  }

  lemma TwoItems(s: seq<byte>, m: nat, r: PyParsed<(Value, Value)>)
    requires m >= 2 && PairIs(s, r)
    ensures Items(s, m) ==
            if r.Got? then Plus([r.value.0, r.value.1], r.count, Items(r.rest, m - 2)) else Failed(r)
  {
    assert PairOpen(0);
    ItemsStep(s, m);
    var k := Item(s);
    if k.Got? {
      ItemsStep(k.rest, m - 1);
      var v := Item(k.rest);
      if v.Got? {
        PlusTwice([k.value], k.count, [v.value], v.count, Items(v.rest, m - 2));
        assert [k.value] + [v.value] == [k.value, v.value];
      }
    }
  }

  lemma OneEntry(s: seq<byte>, n: nat, out: seq<Entry>, r: PyParsed<(Value, Value)>)
    requires n > 0 && ScalarKeys(out) && PairIs(s, r)
    ensures var e := EntryOf(r, out);
            EntriesFrom(s, n, out) == if e.Got? then AddCount(e.count, EntriesFrom(e.rest, n - 1, e.value)) else e
  {
    assert PairOpen(0);
  }

  lemma DictOfMore(kvs: seq<Value>, k: Value, v: Value, c: nat, r: PyParsed<seq<Value>>)
    ensures AsDict(Plus(kvs, 0, Plus([k, v], c, r))) == AddCount(c, AsDict(Plus(kvs + [k, v], 0, r)))
  {
    if r.Got? {
      assert kvs + ([k, v] + r.value) == kvs + [k, v] + r.value;
    }
  }

  lemma DictSpoilt(kvs: seq<Value>, r: PyParsed<seq<Value>>)
    requires Spoilt(kvs)
    ensures !AsDict(Plus(kvs, 0, r)).Got?
  {
    assert DictOpen(0);
  }

  /** The loop over pairs and the dict of twice as many items. */
  lemma {:induction false} EntriesAgree(s: seq<byte>, n: nat, m: nat, out: seq<Entry>, kvs: seq<Value>, k: nat)
    requires m == 2 * n && Collects(out, kvs, k)
    ensures LoopAgrees(s, n, m, out, kvs)
    decreases n, 1
  {
    if n == 0 {
      AgreesEmpty(s, out, kvs, k);
    } else {
      var r := ThePair(s);
      if !r.Got? {
        AgreesFailed(s, n, m, out, kvs, r);
      } else {
        var next, kvs' := SetItem(Some(out), r.value.0, r.value.1), kvs + [r.value.0, r.value.1];
        CollectsMore(out, kvs, k, r.value.0, r.value.1);
        if next.Some? {
          AgreesHashable(s, n, m, out, kvs, k + 1, r, next.value, kvs');
        } else {
          AgreesSpoilt(s, n, m, out, kvs, r, kvs');
        }
      }
    }
  }

  /** A key and its value put behind what has been read and into the dict; sealed. */
  ghost predicate Adds(out: seq<Entry>, kvs: seq<Value>, kv: (Value, Value), next: seq<Entry>, kvs': seq<Value>) {
    forall k {:trigger DictOpen(k)} :: DictOpen(k) ==>
      ScalarKeys(out) && SetItem(Some(out), kv.0, kv.1) == Some(next) && kvs' == kvs + [kv.0, kv.1]
  }

  lemma {:induction false} AgreesHashable(s: seq<byte>, n: nat, m: nat, out: seq<Entry>, kvs: seq<Value>, k: nat,
                                          r: PyParsed<(Value, Value)>, next: seq<Entry>, kvs': seq<Value>)
    requires n > 0 && m == 2 * n && PairIs(s, r) && r.Got?
    requires Collects(next, kvs', k) && Adds(out, kvs, r.value, next, kvs')
    ensures LoopAgrees(s, n, m, out, kvs)
    decreases n, 0
  {
    EntriesAgree(r.rest, n - 1, m - 2, next, kvs', k);
    AgreesNext(s, n, m, out, kvs, r, next, kvs');
  }

  lemma AgreesEmpty(s: seq<byte>, out: seq<Entry>, kvs: seq<Value>, k: nat)
    requires Collects(out, kvs, k)
    ensures LoopAgrees(s, 0, 0, out, kvs)
  {
    assert kvs + [] == kvs;
    assert EntriesFrom(s, 0, out) == Got(out, s, 0) && Items(s, 0) == Got([], s, 0);
    DictDone(out, kvs, k, s, 0);
  }

  lemma AgreesFailed(s: seq<byte>, n: nat, m: nat, out: seq<Entry>, kvs: seq<Value>, r: PyParsed<(Value, Value)>)
    requires n > 0 && m >= 2 && ScalarKeys(out) && PairIs(s, r) && !r.Got?
    ensures LoopAgrees(s, n, m, out, kvs)
  {
    TwoItems(s, m, r);
    OneEntry(s, n, out, r);
  }

  lemma AgreesSpoilt(s: seq<byte>, n: nat, m: nat, out: seq<Entry>, kvs: seq<Value>, r: PyParsed<(Value, Value)>,
                     kvs': seq<Value>)
    requires n > 0 && m >= 2 && ScalarKeys(out) && PairIs(s, r) && r.Got?
    requires SetItem(Some(out), r.value.0, r.value.1).None? && kvs' == kvs + [r.value.0, r.value.1] && Spoilt(kvs')
    ensures LoopAgrees(s, n, m, out, kvs)
  {
    TwoItems(s, m, r);
    OneEntry(s, n, out, r);
    var more := Items(r.rest, m - 2);
    DictOfMore(kvs, r.value.0, r.value.1, r.count, more);
    DictSpoilt(kvs', more);
  }

  lemma AgreesNext(s: seq<byte>, n: nat, m: nat, out: seq<Entry>, kvs: seq<Value>, r: PyParsed<(Value, Value)>,
                   next: seq<Entry>, kvs': seq<Value>)
    requires n > 0 && m >= 2 && PairIs(s, r) && r.Got?
    requires Adds(out, kvs, r.value, next, kvs') && LoopAgrees(r.rest, n - 1, m - 2, next, kvs')
    ensures LoopAgrees(s, n, m, out, kvs)
  {
    assert DictOpen(0);
    TwoItems(s, m, r);
    OneEntry(s, n, out, r);
    var more := Items(r.rest, m - 2);
    DictOfMore(kvs, r.value.0, r.value.1, r.count, more);
    assert Agrees(EntriesFrom(r.rest, n - 1, next), AsDict(Plus(kvs', 0, more))) by {
      assert LoopOpen(0);
    }
  }

  /** After `c` bytes, with `todo` entries to go, the loop has `out`; sealed. */
  ghost predicate LoopFrom(e: PyParsed<seq<Entry>>, c: nat, tail: seq<byte>, todo: nat, out: seq<Entry>) {
    && ScalarKeys(out)
    && forall k {:trigger LoopOpen(k)} :: LoopOpen(k) ==>
      e == AddCount(c, EntriesFrom(tail, todo, out))
  }

  lemma LoopStart(s: seq<byte>, n: nat)
    ensures LoopFrom(EntriesFrom(s, n, []), 0, s, n, [])
  {
  }

  /** The next pass gives `x`; sealed. */
  ghost predicate PassIs(s: seq<byte>, out: seq<Entry>, x: PyParsed<seq<Entry>>) {
    && ScalarKeys(out) && (x.Got? ==> ScalarKeys(x.value) && |x.rest| < |s|)
    && forall k {:trigger LoopOpen(k)} :: LoopOpen(k) ==> x == EntryAt(s, out)
  }

  lemma LoopPass(e: PyParsed<seq<Entry>>, c: nat, tail: seq<byte>, todo: nat, out: seq<Entry>, x: PyParsed<seq<Entry>>)
    requires LoopFrom(e, c, tail, todo, out) && todo > 0 && PassIs(tail, out, x)
    ensures if x.Got? then LoopFrom(e, c + x.count, x.rest, todo - 1, x.value) else e == x
  {
    assert LoopOpen(0);
  }

  lemma LoopDone(e: PyParsed<seq<Entry>>, c: nat, tail: seq<byte>, out: seq<Entry>)
    requires LoopFrom(e, c, tail, 0, out)
    ensures e == Got(out, tail, c)
  {
    assert LoopOpen(0);
  }

  lemma SpoiltPairs(s0: seq<byte>, kvs: seq<Value>, c: nat, tail: seq<byte>)
    requires PairsFrom(s0, kvs, c, tail) && Spoilt(kvs)
    ensures !AsDict(PairsToBreak(s0)).Got?
  {
    assert CGrammar.Unsealed(0) && DictOpen(0);
  }

  // ---------- Items ----------

  method LoadsItem(fp: Fp) returns (r: Reply<Value>)
    requires fp.Valid()
    modifies fp
    ensures Gives(fp, r, Item(old(fp.left)), 0)
    decreases |fp.left|, 1
  {
    var tb := ReadByte(fp);
    if !tb.Done? { return Stop(tb); }
    r := LoadsTb(fp, tb.ob);
  }

  method LoadsTb(fp: Fp, tb: byte) returns (r: Reply<Value>)
    requires fp.Valid()
    modifies fp
    ensures Gives(fp, r, ItemAfter(tb, old(fp.left)), 0)
    decreases |fp.left| + 1, 0
  {
    var tag, info := Bits.SplitHead(tb);
    if tag == SEVEN && UINT16_FOLLOWS <= info <= UINT64_FOLLOWS {
      r := LoadsFloat(fp, tb);
    } else {
      var aux := TagAuxOf(fp, tb);
      if !aux.Done? { return Stop(aux); }
      r := LoadsBody(fp, tb, tag, aux.ob, aux.bytesRead);
    }
  }

  ghost function StringItem(text: bool, raw: PyParsed<seq<byte>>, read: nat): PyParsed<Value> {
    if text then AsText(raw, read) else AsBytes(raw, read)
  }

  /** `raw.decode('utf8')` for a text. */
  function Stringed(text: bool, raw: Reply<seq<byte>>, bytesRead: nat): Reply<Value> {
    if !raw.Done? then Stop(raw)
    else if text && !Utf8.Valid(raw.ob) then Raised
    else Done(if text then Text(raw.ob) else Bytes(raw.ob), bytesRead + raw.bytesRead)
  }

  method LoadsString(fp: Fp, text: bool, aux: Option<nat>, bytesRead: nat) returns (r: Reply<Value>)
    requires fp.Valid()
    modifies fp
    ensures Gives(fp, r, StringItem(text, LoadsBytes(StrType(text), aux, old(fp.left)), bytesRead), 0)
  {
    var raw := LoadsBytesOf(fp, aux, StrType(text));
    r := Stringed(text, raw, bytesRead);
  }

  method LoadsGroup(fp: Fp, isMap: bool, aux: Option<nat>, bytesRead: nat) returns (r: Reply<Value>)
    requires fp.Valid()
    modifies fp
    ensures Gives(fp, r, AsGroup(isMap, GroupItems(isMap, aux, old(fp.left)), bytesRead), 0)
    decreases |fp.left|, 6
  {
    if isMap {
      DictIsGroup(GroupItems(true, aux, fp.left), bytesRead);
      var ob;
      if aux.None? { ob := LoadsVarMap(fp, bytesRead); } else { ob := LoadsMap(fp, aux.value, bytesRead); }
      r := if ob.Done? then Done(Dict(ob.ob), ob.bytesRead) else Stop(ob);
    } else {
      var ob;
      if aux.None? { ob := LoadsVarArray(fp, bytesRead); } else { ob := LoadsArray(fp, aux.value, bytesRead); }
      r := if ob.Done? then Done(List(ob.ob, false), ob.bytesRead) else Stop(ob);
    }
  }

  method LoadsTag(fp: Fp, aux: Option<nat>, bytesRead: nat) returns (r: Reply<Value>)
    requires fp.Valid()
    modifies fp
    ensures Gives(fp, r, AsTag(aux, Item(old(fp.left)), bytesRead), 0)
    decreases |fp.left|, 4
  {
    var ob := LoadsItem(fp);
    if !ob.Done? { return Stop(ob); }
    r := Tagify(ob.ob, aux, bytesRead + ob.bytesRead);
  }

  /** The branches of `_loads_tb` over the major type. */
  method LoadsBody(fp: Fp, tb: byte, tag: byte, aux: Option<nat>, bytesRead: nat) returns (r: Reply<Value>)
    requires fp.Valid() && tag == TypeBits(tb)
    modifies fp
    ensures Gives(fp, r, Body(tb, aux, old(fp.left), bytesRead), 0)
    decreases |fp.left|, 7
  {
    if tag == UINT {
      r := Done(if aux.Some? then Int(aux.value) else Null, bytesRead);
    } else if tag == NEGINT {
      r := if aux.Some? then Done(Int(-1 - aux.value), bytesRead) else Raised;
    } else if tag == BYTES || tag == TEXT {
      r := LoadsString(fp, tag == TEXT, aux, bytesRead);
    } else if tag == ARRAY || tag == MAP {
      r := LoadsGroup(fp, tag == MAP, aux, bytesRead);
    } else if tag == TAG {
      r := LoadsTag(fp, aux, bytesRead);
    } else if tb == 0xF5 {
      r := Done(Bool(true), bytesRead);
    } else if tb == 0xF4 {
      r := Done(Bool(false), bytesRead);
    } else if tb == 0xF6 || tb == 0xF7 {
      r := Done(Null, bytesRead);
    } else {
      r := Raised;  // unknown cbor tag 7 byte
    }
  }

  method LoadsArray(fp: Fp, aux: nat, bytesRead0: nat) returns (r: Reply<seq<Value>>)
    requires fp.Valid()
    modifies fp
    ensures Gives(fp, r, Items(old(fp.left), aux), bytesRead0)
    decreases |fp.left|, 2
  {
    ghost var s0 := fp.left;
    var ob: seq<Value>, bytesRead := [], bytesRead0;
    ghost var c: nat := 0;
    ItemsStart(s0, aux);
    for i := 0 to aux
      invariant fp.Valid() && |fp.left| <= |s0| && bytesRead == bytesRead0 + c
      invariant ItemsFrom(s0, aux, ob, c, fp.left, aux - i)
    {
      ItemsPass(s0, aux, ob, c, fp.left, aux - i);
      var sub := LoadsItem(fp);
      if !sub.Done? { return Stop(sub); }
      bytesRead, c := bytesRead + sub.bytesRead, c + sub.bytesRead;
      ob := ob + [sub.ob];
    }
    ItemsStop(s0, aux, ob, c, fp.left);
    return Done(ob, bytesRead);
  }

  method LoadsVarArray(fp: Fp, bytesRead0: nat) returns (r: Reply<seq<Value>>)
    requires fp.Valid()
    modifies fp
    ensures Gives(fp, r, ItemsToBreak(old(fp.left)), bytesRead0)
    decreases |fp.left|, 2
  {
    ghost var s0 := fp.left;
    var ob: seq<Value>, bytesRead := [], bytesRead0;
    ghost var c: nat, tail := 0, s0;
    BreakStart(s0);
    BreakStop(s0, [], 0, s0);
    var tb := ReadByte(fp);
    if !tb.Done? { return Stop(tb); }
    while tb.ob != BREAK
      invariant fp.Valid() && tb.Done? && |fp.left| < |s0| && bytesRead == bytesRead0 + c
      invariant tail != [] && tail[0] == tb.ob && tail[1..] == fp.left
      invariant BreakFrom(s0, ob, c, tail)
      decreases |fp.left|
    {
      BreakPass(s0, ob, c, tail);
      var sub := LoadsTb(fp, tb.ob);
      if !sub.Done? { return Stop(sub); }
      bytesRead, c := bytesRead + (1 + sub.bytesRead), c + 1 + sub.bytesRead;
      ob := ob + [sub.ob];
      tail := fp.left;
      BreakStop(s0, ob, c, tail);
      tb := ReadByte(fp);
      if !tb.Done? { return Stop(tb); }
    }
    BreakStop(s0, ob, c, tail);
    return Done(ob, bytesRead + 1);
  }

  /** A key and its value. */
  method LoadsPair(fp: Fp) returns (r: Reply<(Value, Value)>)
    requires fp.Valid()
    modifies fp
    ensures Gives(fp, r, PairAt(old(fp.left)), 0)
    decreases |fp.left|, 2
  {
    var subk := LoadsItem(fp);
    if !subk.Done? { return Stop(subk); }
    var subv := LoadsItem(fp);
    if !subv.Done? { return Stop(subv); }
    return Done((subk.ob, subv.ob), subk.bytesRead + subv.bytesRead);
  }

  /** The same for a key whose first byte has been read. */
  method LoadsVarPair(fp: Fp, tb: byte, ghost tail: seq<byte>) returns (r: Reply<(Value, Value)>)
    requires fp.Valid() && tail != [] && tail[0] == tb && tail[1..] == fp.left
    modifies fp
    ensures Gives(fp, r, PairAt(tail), 0)
    decreases |fp.left| + 1, 1
  {
    assert Item(tail) == ItemAfter(tb, fp.left);
    var subk := LoadsTb(fp, tb);
    if !subk.Done? { return Stop(subk); }
    var subv := LoadsItem(fp);
    if !subv.Done? { return Stop(subv); }
    return Done((subk.ob, subv.ob), subk.bytesRead + subv.bytesRead);
  }

  method LoadsMap(fp: Fp, aux: nat, bytesRead0: nat) returns (r: Reply<seq<Entry>>)
    requires fp.Valid()
    modifies fp
    ensures Gives(fp, r, AsDict(Items(old(fp.left), 2 * aux)), bytesRead0)
    decreases |fp.left|, 5
  {
    ghost var s := fp.left;
    assert Agrees(EntriesFrom(s, aux, []), AsDict(Items(s, 2 * aux))) by {
      PlusNone(Items(s, 2 * aux));
      EntriesAgree(s, aux, 2 * aux, [], [], 0);
      assert LoopOpen(0);
    }
    LoopStart(s, aux);
    r := LoadsEntries(fp, aux, bytesRead0, EntriesFrom(s, aux, []));
  }

  /** One pass: `ob[subk] = subv`. */
  method LoadsEntry(fp: Fp, ob: seq<Entry>) returns (r: Reply<seq<Entry>>, ghost x: PyParsed<seq<Entry>>)
    requires fp.Valid() && ScalarKeys(ob)
    modifies fp
    ensures PassIs(old(fp.left), ob, x) && Gives(fp, r, x, 0)
    decreases |fp.left|, 3
  {
    x := EntryAt(fp.left, ob);
    var kv := LoadsPair(fp);
    if !kv.Done? {
      r := Stop(kv);
    } else {
      var next := SetItem(Some(ob), kv.ob.0, kv.ob.1);
      r := if next.None? then Raised else Done(next.value, kv.bytesRead);  // unhashable key
    }
  }

  /** The loop of a definite map, which gives `e`. */
  method LoadsEntries(fp: Fp, aux: nat, bytesRead0: nat, ghost e: PyParsed<seq<Entry>>)
    returns (r: Reply<seq<Entry>>)
    requires fp.Valid() && LoopFrom(e, 0, fp.left, aux, [])
    modifies fp
    ensures Gives(fp, r, e, bytesRead0)
    decreases |fp.left|, 4
  {
    ghost var s0 := fp.left;
    var ob: seq<Entry>, bytesRead := [], bytesRead0;
    ghost var c: nat := 0;
    for i := 0 to aux
      invariant fp.Valid() && |fp.left| <= |s0| && bytesRead == bytesRead0 + c
      invariant LoopFrom(e, c, fp.left, aux - i, ob)
    {
      ghost var tail := fp.left;
      var next, x := LoadsEntry(fp, ob);
      LoopPass(e, c, tail, aux - i, ob, x);
      if !next.Done? { return Stop(next); }
      ob, bytesRead, c := next.ob, bytesRead + next.bytesRead, c + next.bytesRead;
      assert ob == x.value && fp.left == x.rest;
    }
    LoopDone(e, c, fp.left, ob);
    return Done(ob, bytesRead);
  }

  method LoadsVarMap(fp: Fp, bytesRead0: nat) returns (r: Reply<seq<Entry>>)
    requires fp.Valid()
    modifies fp
    ensures Gives(fp, r, AsDict(PairsToBreak(old(fp.left))), bytesRead0)
    decreases |fp.left|, 3
  {
    ghost var s0 := fp.left;
    var ob: seq<Entry>, bytesRead := [], bytesRead0;
    ghost var kvs: seq<Value>, n: nat, c: nat, tail := [], 0, 0, s0;
    PairsStart(s0);
    PairsStop(s0, [], 0, s0);
    var tb := ReadByte(fp);
    if !tb.Done? { return Stop(tb); }
    while tb.ob != BREAK
      invariant fp.Valid() && tb.Done? && |fp.left| < |s0| && bytesRead == bytesRead0 + c
      invariant tail != [] && tail[0] == tb.ob && tail[1..] == fp.left
      invariant PairsFrom(s0, kvs, c, tail)
      invariant Collects(ob, kvs, n)
      decreases |fp.left|
    {
      PairsToBreakPass(s0, kvs, c, tail);
      var kv := LoadsVarPair(fp, tb.ob, tail);
      if !kv.Done? { return Stop(kv); }
      bytesRead, c := bytesRead + (1 + kv.bytesRead), c + 1 + kv.bytesRead;
      CollectsMore(ob, kvs, n, kv.ob.0, kv.ob.1);
      kvs := kvs + [kv.ob.0, kv.ob.1];
      tail := fp.left;
      var next := SetItem(Some(ob), kv.ob.0, kv.ob.1);
      if next.None? {
        SpoiltPairs(s0, kvs, c, tail);
        return Raised;  // unhashable key
      }
      ob, n := next.value, n + 1;
      PairsStop(s0, kvs, c, tail);
      tb := ReadByte(fp);
      if !tb.Done? { return Stop(tb); }
    }
    PairsStop(s0, kvs, c, tail);
    DictDone(ob, kvs, n, tail[1..], c + 1);
    return Done(ob, bytesRead + 1);
  }

  /** What an entry point makes of a result: an object, an exception, or a call of a library. */
  datatype Outcome = Object(value: Value) | Exception | LibraryCall

  ghost predicate Ends(r: Outcome, spec: PyParsed<Value>) {
    match spec
    case Got(v, _, _) => r == Object(v)
    case Raises => r.Exception?
    case Foreign => !r.Object?
  }

  function Ended(r: Reply<Value>): Outcome {
    match r case Done(ob, _) => Object(ob) case Raised => Exception case Library => LibraryCall
  }

  /** `loads`: what follows the item is ignored. */
  method Loads(data: seq<byte>) returns (r: Outcome)
    ensures Ends(r, Item(data))
  {
    var fp := new Fp(data);
    var v := LoadsItem(fp);
    return Ended(v);
  }

  /** `load`: takes one item from the file object. */
  method Load(fp: Fp) returns (r: Outcome)
    requires fp.Valid()
    modifies fp
    ensures fp.Valid() && Ends(r, Item(old(fp.left)))
    ensures r.Object? ==> fp.left == Item(old(fp.left)).rest
  {
    var v := LoadsItem(fp);
    return Ended(v);
  }
}
