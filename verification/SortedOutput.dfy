/**
  `sort_keys`: equal objects encode to equal bytes, of the same length as without sorting,
  and they decode to an equal object.
 */
module SortedOutput {
  import opened Prelude
  import opened Values
  import opened Wire
  import opened Sorting
  import opened Encoding
  import opened RoundTrip
  import C = CGrammar
  import CCompleteness
  import Py = PyGrammar
  import Interop

  /**
    Determinism: objects that are equal, whatever the insertion order of their dicts at any
    depth, have one sorted encoding.
   */
  lemma Deterministic(d: Codec, a: Value, b: Value)
    requires Valid(a) && Accepts(d, true, a) && Valid(b) && Accepts(d, true, b) && Same(a, b)
    ensures Output(d, true, a) == Output(d, true, b)
  {
    CanonUnique(a, b);
  }

  // ---------- Length ----------

  lemma {:induction false} InsertLength(d: Codec, e: Entry, es: seq<Entry>)
    requires Scalar(e.key) && ScalarKeys(es) && Ready(d, e.key) && Ready(d, e.val) && ReadyEntries(d, es)
    ensures ReadyEntries(d, Insert(e, es))
    ensures |EncEntries(d, Insert(e, es))| == |EncEntry(d, e)| + |EncEntries(d, es)|
  {
    if es == [] || Before(e, es[0]) {
      assert ([e] + es)[1..] == es;
      assert es == [] ==> [e] + es == [e];
    } else {
      InsertLength(d, e, es[1..]);
      var r := Insert(e, es[1..]);
      assert ([es[0]] + r)[1..] == r;
    }
  }

  lemma {:induction false} SortLength(d: Codec, es: seq<Entry>)
    requires ScalarKeys(es) && ReadyEntries(d, es)
    ensures ReadyEntries(d, Sort(es)) && |EncEntries(d, Sort(es))| == |EncEntries(d, es)|
  {
    if es != [] {
      SortLength(d, es[1..]);
      InsertLength(d, es[0], Sort(es[1..]));
    }
  }

  lemma {:induction false} CanonLength(d: Codec, v: Value)
    requires Ready(d, v)
    ensures Ready(d, Canon(v)) && |Enc(d, Canon(v))| == |Enc(d, v)|
    decreases v
  {
    CanonReady(d, v);
    match v
    case List(items, _) => CanonLengthAll(d, items);
    case Dict(entries) =>
      CanonLengthEntries(d, entries);
      CanonKeys(entries);
      SortLength(d, CanonEntries(entries));
    case Tag(_, item) => CanonLength(d, item);
    case _ =>
  }

  lemma {:induction false} CanonLengthAll(d: Codec, vs: seq<Value>)
    requires ReadyAll(d, vs)
    ensures ReadyAll(d, CanonAll(vs)) && |EncAll(d, CanonAll(vs))| == |EncAll(d, vs)|
    decreases vs
  {
    CanonReadyAll(d, vs);
    if vs != [] {
      CanonLength(d, vs[0]);
      CanonLengthAll(d, vs[1..]);
      assert CanonAll(vs)[1..] == CanonAll(vs[1..]);
    }
  }

  lemma {:induction false} CanonLengthEntries(d: Codec, es: seq<Entry>)
    requires ReadyEntries(d, es)
    ensures ReadyEntries(d, CanonEntries(es)) && |EncEntries(d, CanonEntries(es))| == |EncEntries(d, es)|
    decreases es
  {
    if es != [] {
      assert es decreases to es[0];
      CanonLength(d, es[0].val);
      CanonLengthEntries(d, es[1..]);
      EntriesCons(d, CanonEntry(es[0]), CanonEntries(es[1..]));
      assert CanonEntries(es) == [CanonEntry(es[0])] + CanonEntries(es[1..]);
    }
  }

  lemma EntriesCons(d: Codec, e: Entry, es: seq<Entry>)
    requires Ready(d, e.key) && Ready(d, e.val) && ReadyEntries(d, es)
    ensures ReadyEntries(d, [e] + es) && EncEntries(d, [e] + es) == EncEntry(d, e) + EncEntries(d, es)
  {
    assert ([e] + es)[1..] == es;
  }

  /** Sorting permutes the bytes of the entries and no more: the length stays. */
  lemma SameLength(d: Codec, v: Value)
    requires Valid(v) && Accepts(d, true, v)
    ensures |Output(d, true, v)| == |Output(d, false, v)|
  {
    CanonLength(d, v);
  }

  // ---------- Decoding ----------

  lemma {:induction false} CanonHasItem(v: Value)
    requires Valid(v) && HasItem(v)
    ensures HasItem(Canon(v))
    decreases v
  {
    match v
    case List(items, _) => CanonHasItemAll(items);
    case Dict(entries) =>
      CanonHasItemEntries(entries);
      CanonKeys(entries);
      SortMembers(CanonEntries(entries));
    case Tag(_, item) => CanonHasItem(item);
    case _ =>
  }

  lemma {:induction false} CanonHasItemAll(vs: seq<Value>)
    requires forall i :: 0 <= i < |vs| ==> Valid(vs[i]) && HasItem(vs[i])
    ensures forall x :: x in CanonAll(vs) ==> HasItem(x)
    decreases vs
  {
    if vs != [] {
      CanonHasItem(vs[0]);
      CanonHasItemAll(vs[1..]);
    }
  }

  lemma {:induction false} CanonHasItemEntries(es: seq<Entry>)
    requires forall i :: 0 <= i < |es| ==> Valid(es[i].val)
    requires EntriesHaveItems(es)
    ensures forall x :: x in CanonEntries(es) ==> HasItem(x.key) && HasItem(x.val)
    decreases es
  {
    if es != [] {
      assert es decreases to es[0];
      CanonHasItem(es[0].val);
      CanonHasItemEntries(es[1..]);
    }
  }

  lemma {:induction false} CanonSurvives(d: Codec, p: Reading, v: Value)
    requires Valid(v) && Survives(d, p, v)
    ensures Survives(d, p, Canon(v))
    decreases v
  {
    match v
    case List(items, _) => CanonSurvivesAll(d, p, items);
    case Dict(entries) =>
      CanonSurvivesEntries(d, p, entries);
      SortedSurvive(d, p, entries);
    case Tag(_, item) => CanonSurvives(d, p, item);
    case _ =>
  }

  lemma SortedSurvive(d: Codec, p: Reading, es: seq<Entry>)
    requires ScalarKeys(es) && !Endless(p, |es|)
    requires forall x :: x in CanonEntries(es) ==> Survives(d, p, x.key) && Survives(d, p, x.val)
    ensures Survives(d, p, Canon(Dict(es)))
  {
    CanonKeys(es);
    SortMembers(CanonEntries(es));
    var r := Sort(CanonEntries(es));
    forall i | 0 <= i < |r| ensures Survives(d, p, r[i].key) && Survives(d, p, r[i].val) {
      assert r[i] in r;
    }
  }

  lemma {:induction false} CanonSurvivesAll(d: Codec, p: Reading, vs: seq<Value>)
    requires forall i :: 0 <= i < |vs| ==> Valid(vs[i]) && Survives(d, p, vs[i])
    ensures forall x :: x in CanonAll(vs) ==> Survives(d, p, x)
    decreases vs
  {
    if vs != [] {
      CanonSurvives(d, p, vs[0]);
      CanonSurvivesAll(d, p, vs[1..]);
    }
  }

  lemma {:induction false} CanonSurvivesEntries(d: Codec, p: Reading, es: seq<Entry>)
    requires forall i :: 0 <= i < |es| ==> Valid(es[i].val) && Survives(d, p, es[i].key) && Survives(d, p, es[i].val)
    ensures forall x :: x in CanonEntries(es) ==> Survives(d, p, x.key) && Survives(d, p, x.val)
    decreases es
  {
    if es != [] {
      assert es decreases to es[0];
      CanonSurvives(d, p, es[0].val);
      CanonSurvivesEntries(d, p, es[1..]);
    }
  }

  // ---------- Tuples and sorting ----------

  lemma {:induction false} NormValid(v: Value)
    requires Valid(v)
    ensures Valid(Norm(v))
    decreases v
  {
    match v
    case List(items, _) => NormValidAll(items);
    case Dict(entries) =>
      NormValidEntries(entries);
      NormKeys(entries);
    case Tag(_, item) => NormValid(item);
    case BareTag(item) => NormValid(item);
    case _ =>
  }

  lemma {:induction false} NormValidAll(vs: seq<Value>)
    requires forall i :: 0 <= i < |vs| ==> Valid(vs[i])
    ensures forall x :: x in NormAll(vs) ==> Valid(x)
    decreases vs
  {
    if vs != [] {
      NormValid(vs[0]);
      NormValidAll(vs[1..]);
    }
  }

  lemma {:induction false} NormValidEntries(es: seq<Entry>)
    requires forall i :: 0 <= i < |es| ==> Valid(es[i].key) && Valid(es[i].val)
    ensures forall x :: x in NormEntries(es) ==> Valid(x.key) && Valid(x.val)
    decreases es
  {
    if es != [] {
      assert es decreases to es[0];
      NormValid(es[0].key);
      NormValid(es[0].val);
      NormValidEntries(es[1..]);
    }
  }

  lemma {:induction false} InsertNorm(e: Entry, es: seq<Entry>)
    requires Scalar(e.key) && Norm(e.key) == e.key && ScalarKeys(es) && ScalarKeys(NormEntries(es))
    ensures Insert(NormEntry(e), NormEntries(es)) == NormEntries(Insert(e, es))
  {
    if es != [] {
      var ns := NormEntries(es);
      assert Scalar(es[0].key) && Norm(es[0].key) == es[0].key;
      assert ns[0] == NormEntry(es[0]) && ns[1..] == NormEntries(es[1..]);
      assert Before(NormEntry(e), ns[0]) == Before(e, es[0]);
      if Before(e, es[0]) {
        assert ([e] + es)[1..] == es;
      } else {
        InsertNorm(e, es[1..]);
        var r := Insert(e, es[1..]);
        assert ([es[0]] + r)[1..] == r;
      }
    }
  }

  lemma {:induction false} SortNorm(es: seq<Entry>)
    requires ScalarKeys(es)
    ensures ScalarKeys(NormEntries(es)) && Sort(NormEntries(es)) == NormEntries(Sort(es))
  {
    NormKeys(es);
    if es != [] {
      SortNorm(es[1..]);
      NormKeys(Sort(es[1..]));
      assert Scalar(es[0].key) && Norm(es[0].key) == es[0].key;
      InsertNorm(es[0], Sort(es[1..]));
      assert NormEntries(es)[1..] == NormEntries(es[1..]);
    }
  }

  /** It is the same to sort first or to replace the tuples first. */
  lemma {:induction false} NormCanon(v: Value)
    requires Valid(v)
    ensures Norm(Canon(v)) == Canon(Norm(v))
    decreases v
  {
    match v
    case List(items, _) => NormCanonAll(items);
    case Dict(entries) =>
      NormCanonEntries(entries);
      NormCanonDict(entries);
    case Tag(_, item) => NormCanon(item);
    case _ =>
  }

  lemma CanonDict(es: seq<Entry>)
    requires ScalarKeys(es)
    ensures ScalarKeys(CanonEntries(es)) && Canon(Dict(es)) == Dict(Sort(CanonEntries(es)))
  {
    CanonKeys(es);
  }

  lemma NormScalarKeys(es: seq<Entry>)
    requires ScalarKeys(es)
    ensures ScalarKeys(NormEntries(es))
  {
    NormKeys(es);
  }

  lemma NormCanonDict(es: seq<Entry>)
    requires ScalarKeys(es) && NormEntries(CanonEntries(es)) == CanonEntries(NormEntries(es))
    ensures Norm(Canon(Dict(es))) == Canon(Norm(Dict(es)))
  {
    var cs, ns := CanonEntries(es), NormEntries(es);
    NormScalarKeys(es);
    CanonDict(es);
    CanonDict(ns);
    calc {
      Norm(Canon(Dict(es)));
      Norm(Dict(Sort(cs)));
      Dict(NormEntries(Sort(cs)));
      { SortNorm(cs); }
      Dict(Sort(NormEntries(cs)));
      Canon(Dict(ns));
    }
  }

  lemma {:induction false} NormCanonAll(vs: seq<Value>)
    requires forall i :: 0 <= i < |vs| ==> Valid(vs[i])
    ensures NormAll(CanonAll(vs)) == CanonAll(NormAll(vs))
    decreases vs
  {
    if vs != [] {
      NormCanon(vs[0]);
      NormCanonAll(vs[1..]);
      assert CanonAll(vs)[1..] == CanonAll(vs[1..]) && NormAll(vs)[1..] == NormAll(vs[1..]);
    }
  }

  lemma {:induction false} NormCanonEntries(es: seq<Entry>)
    requires ScalarKeys(es) && forall i :: 0 <= i < |es| ==> Valid(es[i].val)
    ensures NormEntries(CanonEntries(es)) == CanonEntries(NormEntries(es))
    decreases es
  {
    if es != [] {
      assert es decreases to es[0];
      NormCanon(es[0].val);
      NormCanonEntries(es[1..]);
      assert Scalar(es[0].key);
      assert CanonEntries(es)[1..] == CanonEntries(es[1..]) && NormEntries(es)[1..] == NormEntries(es[1..]);
    }
  }

  lemma CanonKept(d: Codec, p: Reading, v: Value)
    requires Valid(v) && Accepts(d, true, v) && HasItem(v) && Survives(d, p, v)
    ensures var c := Canon(v);
            Ready(d, c) && HasItem(c) && Survives(d, p, c) && Output(d, true, v) == Enc(d, c) && Same(Norm(c), Norm(v))
  {
    CanonReady(d, v);
    CanonHasItem(v);
    CanonSurvives(d, p, v);
    NormCanon(v);
    NormValid(v);
    CanonSame(Norm(v));
  }

  lemma SortedDecodedByC(d: Codec, m: C.Mode, v: Value, rest: seq<byte>)
    requires Valid(v) && Accepts(d, true, v) && HasItem(v) && Survives(d, CCompleteness.ReadingOf(m), v)
    ensures var r := C.Item(m, Output(d, true, v) + rest);
            r.Ok? && r.rest == rest && Same(r.value, Norm(v))
  {
    CanonKept(d, CCompleteness.ReadingOf(m), v);
    Interop.DecodedByC(d, m, Canon(v), rest);
  }

  lemma SortedDecodedByPython(d: Codec, v: Value, rest: seq<byte>)
    requires Valid(v) && Accepts(d, true, v) && HasItem(v) && Survives(d, FromPython, v)
    ensures var r := Py.Item(Output(d, true, v) + rest);
            r.Got? && r.rest == rest && r.count == |Output(d, true, v)| && Same(r.value, Norm(v))
  {
    CanonKept(d, FromPython, v);
    Interop.DecodedByPython(d, Canon(v), rest);
  }

  // ---------- Which objects have equal output ----------

  lemma {:induction false} NormSortable(v: Value)
    requires Sortable(v)
    ensures Sortable(Norm(v))
    decreases v
  {
    match v
    case List(items, _) => NormSortableAll(items);
    case Dict(entries) =>
      NormKeys(entries);
      NormSortableEntries(entries);
      forall i, j | 0 <= i < j < |entries| ensures Alike(NormEntries(entries)[i], NormEntries(entries)[j]) {
        assert Alike(entries[i], entries[j]);
      }
    case Tag(_, item) => NormSortable(item);
    case _ =>
  }

  lemma {:induction false} NormSortableAll(vs: seq<Value>)
    requires forall i :: 0 <= i < |vs| ==> Sortable(vs[i])
    ensures forall x :: x in NormAll(vs) ==> Sortable(x)
    decreases vs
  {
    if vs != [] {
      NormSortable(vs[0]);
      NormSortableAll(vs[1..]);
    }
  }

  lemma {:induction false} NormSortableEntries(es: seq<Entry>)
    requires forall i :: 0 <= i < |es| ==> Sortable(es[i].val)
    ensures forall x :: x in NormEntries(es) ==> Sortable(x.val)
    decreases es
  {
    if es != [] {
      assert es decreases to es[0];
      NormSortable(es[0].val);
      NormSortableEntries(es[1..]);
    }
  }

  /** Tuples are written like lists. */
  lemma {:induction false} EncNorm(d: Codec, v: Value)
    requires Ready(d, v)
    ensures Ready(d, Norm(v)) && Enc(d, Norm(v)) == Enc(d, v)
    decreases v
  {
    NormValid(v);
    match v
    case List(items, _) => EncNormAll(d, items);
    case Dict(entries) => EncNormEntries(d, entries);
    case Tag(_, item) => EncNorm(d, item);
    case _ =>
  }

  lemma {:induction false} EncNormAll(d: Codec, vs: seq<Value>)
    requires ReadyAll(d, vs)
    ensures ReadyAll(d, NormAll(vs)) && EncAll(d, NormAll(vs)) == EncAll(d, vs)
    decreases vs
  {
    if vs != [] {
      EncNorm(d, vs[0]);
      EncNormAll(d, vs[1..]);
      var v, more := Norm(vs[0]), NormAll(vs[1..]);
      assert NormAll(vs) == [v] + more && ([v] + more)[1..] == more;
    }
  }

  lemma {:induction false} EncNormEntries(d: Codec, es: seq<Entry>)
    requires ReadyEntries(d, es)
    ensures ReadyEntries(d, NormEntries(es)) && EncEntries(d, NormEntries(es)) == EncEntries(d, es)
    decreases es
  {
    if es != [] {
      assert es decreases to es[0];
      EncNorm(d, es[0].key);
      EncNorm(d, es[0].val);
      EncNormEntries(d, es[1..]);
      EntriesCons(d, NormEntry(es[0]), NormEntries(es[1..]));
      assert NormEntries(es) == [NormEntry(es[0])] + NormEntries(es[1..]);
    }
  }

  lemma CanonNormOutput(d: Codec, v: Value)
    requires Valid(v) && Accepts(d, true, v)
    ensures Ready(d, Canon(Norm(v))) && Output(d, true, v) == Enc(d, Canon(Norm(v)))
  {
    CanonReady(d, v);
    NormCanon(v);
    EncNorm(d, Canon(v));
  }

  /**
    Sorted encodings are equal exactly for equal objects, where tuples count as lists and
    keys and numbers of different types as different; for objects of which nothing is lost.
   */
  lemma EqualOutput(d: Codec, a: Value, b: Value)
    requires Valid(a) && Accepts(d, true, a) && HasItem(a) && Survives(d, Standard, a)
    requires Valid(b) && Accepts(d, true, b) && HasItem(b) && Survives(d, Standard, b)
    ensures Output(d, true, a) == Output(d, true, b) <==> Same(Norm(a), Norm(b))
  {
    NormValid(a);
    NormValid(b);
    if Same(Norm(a), Norm(b)) {
      NormSortable(a);
      NormSortable(b);
      CanonUnique(Norm(a), Norm(b));
      CanonNormOutput(d, a);
      CanonNormOutput(d, b);
    }
    if Output(d, true, a) == Output(d, true, b) {
      OutputApart(d, a, b);
    }
  }

  lemma OutputApart(d: Codec, a: Value, b: Value)
    requires Valid(a) && Accepts(d, true, a) && HasItem(a) && Survives(d, Standard, a)
    requires Valid(b) && Accepts(d, true, b) && HasItem(b) && Survives(d, Standard, b)
    requires Output(d, true, a) == Output(d, true, b)
    ensures Same(Norm(a), Norm(b))
  {
    CanonReady(d, a);
    CanonReady(d, b);
    CanonHasItem(a);
    CanonHasItem(b);
    CanonSurvives(d, Standard, a);
    CanonSurvives(d, Standard, b);
    Interop.SelfDelimiting(d, Canon(a), [], d, Canon(b), []);
    NormCanon(a);
    NormCanon(b);
    NormValid(a);
    NormValid(b);
    CanonApart(Norm(a), Norm(b));
  }
}
