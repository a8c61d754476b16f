/**
  `sort_keys` and decoding: which objects come back from sorted output.  Decoders keep the
  order of the keys, so that what comes back is compared with the object as `Sorting.Same`
  compares, without regard to it.
 */
module SortedDecoding {
  import opened Prelude
  import opened BigEndian
  import opened Biguint
  import opened Values
  import opened Wire
  import opened Sorting
  import opened Encoding
  import opened RoundTrip
  import C = CGrammar
  import CCompleteness
  import CSoundness
  import Py = PyGrammar
  import PyCompleteness
  import Interop
  import opened Recoding
  import SortedOutput

  // ---------- The canonical form loses nothing ----------

  lemma {:induction false} CanonBack(d: Codec, p: Reading, v: Value)
    requires Valid(v)
    ensures HasItem(Canon(v)) ==> HasItem(v)
    ensures Survives(d, p, Canon(v)) ==> Survives(d, p, v)
    decreases v, 1
  {
    match v
    case List(items, _) =>
      CanonAllAt(items);
      forall i | 0 <= i < |items|
        ensures HasItem(Canon(items[i])) ==> HasItem(items[i])
        ensures Survives(d, p, Canon(items[i])) ==> Survives(d, p, items[i])
      {
        CanonBack(d, p, items[i]);
      }
    case Dict(entries) => CanonBackDict(d, p, v);
    case Tag(_, item) => CanonBack(d, p, item);
    case _ =>
  }

  lemma {:induction false} CanonAllAt(vs: seq<Value>)
    ensures forall i :: 0 <= i < |vs| ==> CanonAll(vs)[i] == Canon(vs[i])
  {
    if vs != [] {
      CanonAllAt(vs[1..]);
      forall i | 0 <= i < |vs| ensures CanonAll(vs)[i] == Canon(vs[i]) {
        if i > 0 {
          assert CanonAll(vs)[i] == CanonAll(vs[1..])[i - 1] && vs[i] == vs[1..][i - 1];
        }
      }
    }
  }

  lemma {:induction false} CanonBackDict(d: Codec, p: Reading, v: Value)
    requires v.Dict? && Valid(v)
    ensures HasItem(Canon(v)) ==> HasItem(v)
    ensures Survives(d, p, Canon(v)) ==> Survives(d, p, v)
    decreases v, 0
  {
    var es, r := v.entries, Canon(v).entries;
    CanonSize(es);
    forall i | 0 <= i < |es|
      ensures HasItem(Canon(v)) ==> HasItem(es[i].key) && HasItem(es[i].val)
      ensures Survives(d, p, Canon(v)) ==> Survives(d, p, es[i].key) && Survives(d, p, es[i].val)
    {
      var k := PlaceOf(es, i);
      assert es decreases to es[i];
      CanonBack(d, p, es[i].val);
      assert HasItem(Canon(v)) ==> HasItem(r[k].key) && HasItem(r[k].val);
      assert Survives(d, p, Canon(v)) ==> Survives(d, p, r[k].key) && Survives(d, p, r[k].val);
    }
  }

  lemma CanonSize(es: seq<Entry>)
    requires ScalarKeys(es)
    ensures |Canon(Dict(es)).entries| == |es|
  {
    CanonKeys(es);
  }

  /** Where an entry of a dict is in the sorted dict. */
  lemma PlaceOf(es: seq<Entry>, i: nat) returns (k: nat)
    requires ScalarKeys(es) && i < |es|
    ensures var r := Canon(Dict(es)).entries; k < |r| && r[k].key == es[i].key && r[k].val == Canon(es[i].val)
  {
    var cs := CanonEntries(es);
    CanonKeys(es);
    SortMembers(cs);
    var r := Sort(cs);
    assert cs[i] == CanonEntry(es[i]) && cs[i] in r;
    k :| 0 <= k < |r| && r[k] == cs[i];
  }

  /** Every dict is sorted, at any depth. */
  predicate Ordered(v: Value) {
    match v
    case List(items, _) => forall i :: 0 <= i < |items| ==> Ordered(items[i])
    case Dict(entries) =>
      && ScalarKeys(entries) && Sorted(entries)
      && forall i :: 0 <= i < |entries| ==> Ordered(entries[i].val)
    case Tag(_, item) => Ordered(item)
    case _ => true
  }

  lemma {:induction false} CanonOrdered(v: Value)
    requires Valid(v) && Sortable(v)
    ensures Ordered(Canon(v))
    decreases v, 1
  {
    match v
    case List(items, _) =>
      CanonAllAt(items);
      forall i | 0 <= i < |items| ensures Ordered(CanonAll(items)[i]) {
        CanonOrdered(items[i]);
      }
    case Dict(entries) => CanonOrderedDict(v);
    case Tag(_, item) => CanonOrdered(item);
    case _ =>
  }

  lemma {:induction false} CanonOrderedDict(v: Value)
    requires v.Dict? && Valid(v) && Sortable(v)
    ensures Ordered(Canon(v))
    decreases v, 0
  {
    var es := v.entries;
    var cs := CanonEntries(es);
    CanonKeys(es);
    SortMembers(cs);
    SortSorted(cs);
    var r := Sort(cs);
    forall k | 0 <= k < |r| ensures Ordered(r[k].val) {
      assert r[k] in cs;
      var i :| 0 <= i < |cs| && cs[i] == r[k];
      assert cs[i] == CanonEntry(es[i]);
      assert es decreases to es[i];
      CanonOrdered(es[i].val);
    }
  }

  /** No two keys of a sorted dict are the same. */
  lemma SortedApart(es: seq<Entry>, i: nat, j: nat)
    requires ScalarKeys(es) && Sorted(es) && i < |es| && j < |es| && es[i].key == es[j].key
    ensures i == j
  {
    if i < j {
      BeforeAsymmetric(es[i], es[j]);
      assert false;
    } else if j < i {
      BeforeAsymmetric(es[j], es[i]);
      assert false;
    }
  }

  // ---------- Equality ----------

  lemma {:induction false} SameItself(v: Value)
    ensures Same(v, v)
    decreases v
  {
    match v
    case List(items, _) =>
      forall i | 0 <= i < |items| ensures Same(items[i], items[i]) {
        SameItself(items[i]);
      }
    case Dict(entries) =>
      forall i | 0 <= i < |entries| ensures SameEntry(entries[i], entries[i]) {
        assert entries decreases to entries[i];
        SameItself(entries[i].val);
      }
      assert forall i :: 0 <= i < |entries| ==> MatchIn(entries[i], entries) && MatchFrom(entries, entries[i]);
    case Tag(_, item) => SameItself(item);
    case _ =>
  }

  lemma SameSwapped(a: Value, b: Value)
    requires Same(a, b)
    ensures Same(b, a)
  {
    SameItself(a);
    SameEuclid(a, b, a);
  }

  /** What equals an object equals it with its dicts sorted. */
  lemma SameSorted(r: Value, v: Value)
    requires Valid(v) && Same(r, v)
    ensures Same(r, Canon(v))
  {
    CanonSame(v);
    SameSwapped(Canon(v), v);
    SameSwapped(r, v);
    SameEuclid(v, r, Canon(v));
  }

  // ---------- What comes back equal has survived ----------

  lemma IntKept(d: Codec, p: Reading, n: int, k: int)
    requires SizedInt(n) && Meaning(p, IntItem(d, n)) == Some(Int(k)) && (d.C? || InC(p))
    ensures InBignumRange(k)
  {
    if 0 - INT64_LIMIT <= n < UintLimit(d) {
      HeadSurvives(d, p, n);
    } else {
      var num, m: nat := if n >= 0 then TAG_BIGNUM else TAG_NEGBIGNUM, if n >= 0 then n else -1 - n;
      assert IntItem(d, n) == BignumItem(d, num, m);
      BignumMeaning(d, p, num, m);
      ShortBytes(d, m);
      FromBEBound(BigBytes(d, m));
      BignumLimit();
      PowGrows(|BigBytes(d, m)|, C_BIGNUM_BYTES);
    }
  }

  lemma ShortBytes(d: Codec, m: nat)
    ensures d.C? ==> |BigBytes(d, m)| <= C_BIGNUM_BYTES
  {
    BignumValue(d, m);
  }

  /** A key that was read comes through once more. */
  lemma KeyKept(d: Codec, p: Reading, x: Value, y: Value)
    requires Scalar(x) && Scalar(y) && Ready(d, x) && Meaning(p, ItemOf(d, x)) == Some(y)
    ensures Survives(d, p, y)
  {
    if x.Int? && y.Int? && (d.C? || InC(p)) {
      IntKept(d, p, x.n, y.n);
    }
  }

  /** Keys and values as they were read, still without a dict. */
  lemma {:induction false} ReadEntries(d: Codec, p: Reading, es: seq<Entry>) returns (fs: seq<Entry>)
    requires ReadyEntries(d, es) && EntriesHaveItems(es) && MeaningAll(p, ItemsOfEntries(d, es)).Some?
    ensures |fs| == |es| && MeaningAll(p, ItemsOfEntries(d, es)).value == Flat(fs)
    ensures forall i :: 0 <= i < |es| ==> ReadAs(d, p, es[i], fs[i])
    decreases es
  {
    if es == [] {
      fs := [];
    } else {
      var e, tail := es[0], es[1..];
      var k, v, ws := ItemOf(d, e.key), ItemOf(d, e.val), ItemsOfEntries(d, tail);
      MeaningOfTwo(p, k, v, ws);
      assert ItemsOfEntries(d, es) == [k, v] + ws;
      var gs := ReadEntries(d, p, tail);
      var f := Entry(Meaning(p, k).value, Meaning(p, v).value);
      fs := [f] + gs;
      FlatCons(f, gs);
      forall i | 0 <= i < |es| ensures ReadAs(d, p, es[i], fs[i]) {
        if i > 0 {
          assert ReadAs(d, p, tail[i - 1], gs[i - 1]) && es[i] == tail[i - 1] && fs[i] == gs[i - 1];
        }
      }
    }
  }

  predicate ReadAs(d: Codec, p: Reading, e: Entry, f: Entry)
    requires Ready(d, e.key) && Ready(d, e.val) && HasItem(e.key) && HasItem(e.val)
  {
    Meaning(p, ItemOf(d, e.key)) == Some(f.key) && Meaning(p, ItemOf(d, e.val)) == Some(f.val)
  }

  /** The keys of a dict are keys that were read. */
  lemma {:induction false} BuildKeys(kvs: seq<Value>, n: nat, i: nat) returns (l: nat)
    requires Build(kvs).Some? && |kvs| == 2 * n && i < |Build(kvs).value|
    ensures l < n && kvs[2 * l] == Build(kvs).value[i].key
    decreases n
  {
    l := n - 1;
    var k := 2 * l;
    var front := kvs[..k];
    var es := Build(front).value;
    PutKeys(es, kvs[k], kvs[k + 1], i);
    if i < |es| {
      l := BuildKeys(front, n - 1, i);
    }
  }

  lemma {:induction false} FlatAt(fs: seq<Entry>, l: nat)
    requires l < |fs|
    ensures Flat(fs)[2 * l] == fs[l].key
  {
    if l > 0 {
      FlatAt(fs[1..], l - 1);
    }
  }

  lemma PutKeys(es: seq<Entry>, k: Value, v: Value, i: nat)
    requires ScalarKeys(es) && Scalar(k) && i < |Put(es, k, v)|
    ensures Put(es, k, v)[i].key == if i < |es| then es[i].key else k
  {
  }

  /** If the dict read equals the one written, its keys are those that were written. */
  lemma KeysSurvive(d: Codec, p: Reading, es: seq<Entry>, fs: seq<Entry>, j: nat)
    requires ScalarKeys(es) && ReadyEntries(d, es) && EntriesHaveItems(es) && |fs| == |es| && j < |es|
    requires forall i :: 0 <= i < |es| ==> ReadAs(d, p, es[i], fs[i])
    requires Build(Flat(fs)).Some? && Same(Dict(Build(Flat(fs)).value), Dict(NormEntries(es)))
    ensures Survives(d, p, es[j].key) && fs[j].key == es[j].key
  {
    var bs, ns := Build(Flat(fs)).value, NormEntries(es);
    NormedEntry(es, j);
    var i := MatchTo(bs, ns, j);
    var l := BuildKeys(Flat(fs), |fs|, i);
    FlatAt(fs, l);
    assert ReadAs(d, p, es[l], fs[l]) && ReadAs(d, p, es[j], fs[j]);
    KeyKept(d, p, es[l].key, es[j].key);
    KeyBack(d, p, es[j].key);
  }

  lemma KeyBack(d: Codec, p: Reading, x: Value)
    requires Scalar(x) && Ready(d, x) && Survives(d, p, x)
    ensures Meaning(p, ItemOf(d, x)) == Some(x)
  {
    ItemRoundTrips(d, p, x);
  }

  lemma {:induction false} SameSurvives(d: Codec, p: Reading, v: Value, r: Value)
    requires Ready(d, v) && HasItem(v) && Ordered(v)
    requires Meaning(p, ItemOf(d, v)) == Some(r) && Same(r, Norm(v))
    ensures Survives(d, p, v)
    decreases v, 1
  {
    match v
    case List(items, frozen) => SameSurvivesList(d, p, v, r);
    case Dict(entries) => SameSurvivesDict(d, p, v, r);
    case Tag(num, item) => SameSurvivesTag(d, p, v, r);
    case _ =>
      SameLeaf(r, v);
      ItemRoundTrips(d, p, v);
  }

  lemma SameLeaf(r: Value, v: Value)
    requires !v.List? && !v.Dict? && !v.Tag? && !v.BareTag? && Same(r, Norm(v))
    ensures r == Norm(v)
  {
  }

  lemma {:induction false} SameSurvivesTag(d: Codec, p: Reading, v: Value, r: Value)
    requires v.Tag? && Ready(d, v) && HasItem(v) && Ordered(v)
    requires Meaning(p, ItemOf(d, v)) == Some(r) && Same(r, Norm(v))
    ensures Survives(d, p, v)
    decreases v, 0
  {
    var wd, w := Shortest(v.num), ItemOf(d, v.item);
    assert ItemOf(d, v) == WTag(wd, v.num, w);
    assert r.Tag?;
    if Consumed(p, v.num) {
      TagIsConsumed(p, wd, v.num, w);
    } else {
      TagIsKept(p, wd, v.num, w);
      SameSurvives(d, p, v.item, r.item);
    }
  }

  lemma {:induction false} SameSurvivesList(d: Codec, p: Reading, v: Value, r: Value)
    requires v.List? && Ready(d, v) && HasItem(v) && Ordered(v)
    requires Meaning(p, ItemOf(d, v)) == Some(r) && Same(r, Norm(v))
    ensures Survives(d, p, v)
    decreases v, 0
  {
    var vs := v.items;
    var ws := ItemsOf(d, vs);
    assert ItemOf(d, v) == WGroup(false, Shortest(|vs|), ws);
    assert r == List(MeaningAll(p, ws).value, false) && !Endless(p, |vs|);
    forall i | 0 <= i < |vs| ensures Survives(d, p, vs[i]) {
      MeaningAt(p, ws, i);
      ItemsAt(d, vs, i);
      NormAt(vs, i);
      SameSurvives(d, p, vs[i], r.items[i]);
    }
  }

  lemma {:induction false} ItemsAt(d: Codec, vs: seq<Value>, i: nat)
    requires ReadyAll(d, vs) && (forall k :: 0 <= k < |vs| ==> HasItem(vs[k])) && i < |vs|
    ensures ItemsOf(d, vs)[i] == ItemOf(d, vs[i])
  {
    if i > 0 {
      ItemsAt(d, vs[1..], i - 1);
    }
  }

  lemma {:induction false} NormAt(vs: seq<Value>, i: nat)
    requires i < |vs|
    ensures NormAll(vs)[i] == Norm(vs[i])
  {
    if i > 0 {
      NormAt(vs[1..], i - 1);
    }
  }

  lemma {:induction false} SameSurvivesDict(d: Codec, p: Reading, v: Value, r: Value)
    requires v.Dict? && Ready(d, v) && HasItem(v) && Ordered(v)
    requires Meaning(p, ItemOf(d, v)) == Some(r) && Same(r, Norm(v))
    ensures Survives(d, p, v)
    decreases v, 0
  {
    var es := v.entries;
    DictReady(d, es);
    DictMeaning(d, p, es);
    var fs := ReadEntries(d, p, es);
    var ns := NormEntries(es);
    forall j | 0 <= j < |es| ensures Survives(d, p, es[j].key) && fs[j].key == es[j].key {
      KeysSurvive(d, p, es, fs, j);
    }
    KeysKept(es, fs);
    forall j | 0 <= j < |es| ensures Survives(d, p, es[j].val) {
      ItsMatch(es, fs, j);
      assert es decreases to es[j];
      assert ReadAs(d, p, es[j], fs[j]);
      SameSurvives(d, p, es[j].val, fs[j].val);
    }
  }

  lemma KeysKept(es: seq<Entry>, fs: seq<Entry>)
    requires ScalarKeys(es) && DistinctKeys(es) && |fs| == |es|
    requires forall j :: 0 <= j < |es| ==> fs[j].key == es[j].key
    ensures Build(Flat(fs)) == Some(fs)
  {
    assert ScalarKeys(fs) && DistinctKeys(fs);
    BuildFlat(fs);
  }

  /** The entry that equals the j-th one is the j-th one. */
  lemma ItsMatch(es: seq<Entry>, fs: seq<Entry>, j: nat)
    requires ScalarKeys(es) && Sorted(es) && |fs| == |es| && j < |es| && fs[j].key == es[j].key
    requires Same(Dict(fs), Dict(NormEntries(es)))
    ensures Same(fs[j].val, Norm(es[j].val))
  {
    var ns := NormEntries(es);
    var l := MatchOf(fs, ns, j);
    NormedEntry(es, l);
    SortedApart(es, j, l);
  }

  lemma MatchOf(fs: seq<Entry>, ns: seq<Entry>, j: nat) returns (l: nat)
    requires Same(Dict(fs), Dict(ns)) && j < |fs|
    ensures l < |ns| && SameEntry(fs[j], ns[l])
  {
    assert MatchIn(fs[j], ns);
    l :| 0 <= l < |ns| && SameEntry(fs[j], ns[l]);
  }

  lemma MatchTo(fs: seq<Entry>, ns: seq<Entry>, j: nat) returns (i: nat)
    requires Same(Dict(fs), Dict(ns)) && j < |ns|
    ensures i < |fs| && SameEntry(fs[i], ns[j])
  {
    assert MatchFrom(fs, ns[j]);
    i :| 0 <= i < |fs| && SameEntry(fs[i], ns[j]);
  }

  lemma NormedEntry(es: seq<Entry>, j: nat)
    requires ScalarKeys(es) && j < |es|
    ensures NormEntries(es)[j] == Entry(es[j].key, Norm(es[j].val))
  {
    assert NormEntries(es)[j] == NormEntry(es[j]);
    assert Scalar(es[j].key);
  }

  // ---------- Sorted output ----------

  /**
    Sorted output decodes, with either decoder, to an object equal to the original, behind
    which the decoder stops, if and only if no tag without a number is in it and it survives.
   */
  lemma SortedDecodes(d: Codec, m: C.Mode, v: Value, rest: seq<byte>)
    requires Valid(v) && Accepts(d, true, v)
    ensures var r := C.Item(m, Output(d, true, v) + rest);
            r.Ok? && r.rest == rest && Same(r.value, Norm(v)) <==>
            HasItem(v) && Survives(d, CCompleteness.ReadingOf(m), v)
    ensures var r := Py.Item(Output(d, true, v) + rest);
            r.Got? && r.rest == rest && r.count == |Output(d, true, v)| && Same(r.value, Norm(v)) <==>
            HasItem(v) && Survives(d, FromPython, v)
  {
    var c := Canon(v);
    CanonReady(d, v);
    if HasItem(v) {
      SortedByC(d, m, v, rest);
      SortedByPython(d, v, rest);
    } else {
      CanonBack(d, FromPython, v);
      PythonHasItem(d, c);
      Interop.StopsElsewhere(m, c, rest);
    }
  }

  /** The item that is written for the object. */
  ghost predicate SortedItem(d: Codec, v: Value, w: DataItem)
    requires Valid(v) && Accepts(d, true, v)
  {
    && Readable(w) && Output(d, true, v) == Flatten(w)
    && Ready(d, Canon(v)) && HasItem(Canon(v)) && w == ItemOf(d, Canon(v))
  }

  lemma ItsItem(d: Codec, v: Value) returns (w: DataItem)
    requires Valid(v) && Accepts(d, true, v) && HasItem(v)
    ensures SortedItem(d, v, w)
  {
    CanonReady(d, v);
    SortedOutput.CanonHasItem(v);
    w := ItemOf(d, Canon(v));
    EncIsItem(d, Canon(v));
  }

  /** What it means equals the object only if that survives. */
  lemma EqualSurvives(d: Codec, p: Reading, v: Value, w: DataItem, r: Value)
    requires Valid(v) && Accepts(d, true, v) && SortedItem(d, v, w) && Meaning(p, w) == Some(r) && Same(r, Norm(v))
    ensures Survives(d, p, v)
  {
    SortedOutput.NormValid(v);
    SameSorted(r, Norm(v));
    SortedOutput.NormCanon(v);
    CanonOrdered(v);
    SameSurvives(d, p, Canon(v), r);
    CanonBack(d, p, v);
  }

  lemma SortedByC(d: Codec, m: C.Mode, v: Value, rest: seq<byte>)
    requires Valid(v) && Accepts(d, true, v) && HasItem(v)
    ensures var r := C.Item(m, Output(d, true, v) + rest);
            r.Ok? && r.rest == rest && Same(r.value, Norm(v)) <==> Survives(d, CCompleteness.ReadingOf(m), v)
  {
    var p, r := CCompleteness.ReadingOf(m), C.Item(m, Output(d, true, v) + rest);
    if r.Ok? && Same(r.value, Norm(v)) {
      var w := ItsItem(d, v);
      CMeaning(m, w, rest, r);
      EqualSurvives(d, p, v, w, r.value);
    }
    if Survives(d, p, v) {
      SortedOutput.SortedDecodedByC(d, m, v, rest);
    }
  }

  lemma CMeaning(m: C.Mode, w: DataItem, rest: seq<byte>, r: C.Parsed<Value>)
    requires Readable(w) && r == C.Item(m, Flatten(w) + rest) && r.Ok?
    ensures Meaning(CCompleteness.ReadingOf(m), w) == Some(r.value)
  {
    CSoundness.ItemVerdict(m, w, rest);
  }

  lemma PyMeaning(w: DataItem, rest: seq<byte>, r: Py.PyParsed<Value>)
    requires Readable(w) && r == Py.Item(Flatten(w) + rest) && r.Got?
    ensures Meaning(FromPython, w) == Some(r.value)
  {
    PyCompleteness.ReadItem(w, rest);
  }

  lemma SortedByPython(d: Codec, v: Value, rest: seq<byte>)
    requires Valid(v) && Accepts(d, true, v) && HasItem(v)
    ensures var r := Py.Item(Output(d, true, v) + rest);
            r.Got? && r.rest == rest && r.count == |Output(d, true, v)| && Same(r.value, Norm(v)) <==>
            Survives(d, FromPython, v)
  {
    var r := Py.Item(Output(d, true, v) + rest);
    if r.Got? && Same(r.value, Norm(v)) {
      var w := ItsItem(d, v);
      PyMeaning(w, rest, r);
      EqualSurvives(d, FromPython, v, w, r.value);
    }
    if Survives(d, FromPython, v) {
      SortedOutput.SortedDecodedByPython(d, v, rest);
    }
  }
}
