/**
  What `sort_keys` puts in which order, read off the keys themselves, and where the entries
  come to stand in the output.
 */
module SortOrder {
  import opened Prelude
  import opened Values
  import opened Numbers
  import opened CodePoints
  import opened Sorting
  import opened Encoding
  import opened Wire
  import EncodedBytes

  // ---------- Two keys ----------

  lemma {:induction false} LexIsOrder(a: seq<byte>, b: seq<byte>)
    ensures LexLess(a, b) <==> InOrder(a, b)
    decreases |a|
  {
    InOrderFirst(a, b);
    if a != [] && b != [] && a[0] == b[0] {
      InOrderNext(a, b);
      LexIsOrder(a[1..], b[1..]);
    }
  }

  predicate IsNumeral(v: Value) {
    Finite(v) || Infinity(v, false) || Infinity(v, true)
  }

  /** Numbers in order: an infinity is beyond everything else. */
  predicate NumbersInOrder(a: Value, b: Value)
    requires IsNumeral(a) && IsNumeral(b)
  {
    if Infinity(a, true) then !Infinity(b, true)
    else if Infinity(b, false) then !Infinity(a, false)
    else Finite(a) && Finite(b) && Units(a) < Units(b)
  }

  lemma NumeralKey(v: Value)
    requires KeyLike(v)
    ensures IsNumeral(v) <==> IsNumber(KeyOf(v))
  {
    if v.Float? {
      FloatKinds(v);
    }
  }

  lemma NumbersLess(a: Value, b: Value)
    requires KeyLike(a) && KeyLike(b) && IsNumeral(a) && IsNumeral(b)
    ensures Scalar(a) && Scalar(b) && SameKind(KeyOf(a), KeyOf(b))
    ensures Less(KeyOf(a), KeyOf(b)) <==> NumbersInOrder(a, b)
  {
    NumeralKey(a);
    NumeralKey(b);
    if a.Float? {
      FloatKinds(a);
    }
    if b.Float? {
      FloatKinds(b);
    }
    if Finite(a) && Finite(b) {
      KeyIsUnits(a);
      KeyIsUnits(b);
      Numbers.ScaledOrder(Units(a) as real, Units(b) as real, 0 - 1074);
    }
  }

  /** The keys that can be compared: numbers, texts and byte strings, each among themselves. */
  lemma KindsAlike(e: Entry, f: Entry)
    requires KeyLike(e.key) && KeyLike(f.key)
    ensures Alike(e, f) <==>
            || (IsNumeral(e.key) && IsNumeral(f.key))
            || (e.key.Text? && f.key.Text?)
            || (e.key.Bytes? && f.key.Bytes?)
  {
    NumeralKey(e.key);
    NumeralKey(f.key);
  }

  // ---------- Sorted dicts ----------

  predicate PlainKeys(es: seq<Entry>) {
    forall i :: 0 <= i < |es| ==> KeyLike(es[i].key)
  }

  /** The entries can be sorted if and only if all keys are of one kind, or there is one entry. */
  lemma SortableKinds(es: seq<Entry>)
    requires PlainKeys(es)
    ensures ScalarKeys(es)
    ensures Comparable(es) <==>
            || |es| <= 1
            || (forall i :: 0 <= i < |es| ==> IsNumeral(es[i].key))
            || (forall i :: 0 <= i < |es| ==> es[i].key.Text?)
            || (forall i :: 0 <= i < |es| ==> es[i].key.Bytes?)
  {
    assert ScalarKeys(es);
    forall i, j | 0 <= i < j < |es|
      ensures Alike(es[i], es[j]) <==>
              || (IsNumeral(es[i].key) && IsNumeral(es[j].key))
              || (es[i].key.Text? && es[j].key.Text?)
              || (es[i].key.Bytes? && es[j].key.Bytes?)
    {
      KindsAlike(es[i], es[j]);
    }
    if Comparable(es) && |es| > 1 {
      assert Alike(es[0], es[1]);
      forall j | 0 < j < |es|
        ensures IsNumeral(es[0].key) ==> IsNumeral(es[j].key)
        ensures es[0].key.Text? ==> es[j].key.Text?
        ensures es[0].key.Bytes? ==> es[j].key.Bytes?
      {
        assert Alike(es[0], es[j]);
      }
    }
  }

  /**
    A key in front of another one is smaller: for texts and byte strings, it is a proper part
    of the start of the other one, or has the smaller octet where they first differ, and for
    texts the same is true of their code points; numbers are in the order of the numbers.
   */
  lemma SortedOrder(es: seq<Entry>, i: nat, j: nat)
    requires PlainKeys(es) && ScalarKeys(es) && Comparable(es) && DistinctKeys(es) && i < j < |es|
    ensures var a, b := Sort(es)[i].key, Sort(es)[j].key;
            && KeyLike(a) && KeyLike(b)
            && ((a.Text? && b.Text?) || (a.Bytes? && b.Bytes?) || (IsNumeral(a) && IsNumeral(b)))
            && (a.Text? || a.Bytes? ==>
                  || (|a.data| < |b.data| && a.data == b.data[..|a.data|])
                  || exists k :: 0 <= k < |a.data| && k < |b.data| && a.data[..k] == b.data[..k] && a.data[k] < b.data[k])
            && (a.Text? ==> forall cs, ds ::
                  AllCodePoints(cs) && AllCodePoints(ds) && Chars(cs) == a.data && Chars(ds) == b.data ==> InOrder(cs, ds))
            && (IsNumeral(a) ==> NumbersInOrder(a, b))
            && (a.Int? && b.Int? ==> a.n < b.n)
            && (a.Float? && b.Float? && Finite(a) && Finite(b) ==> Units(a) < Units(b))
  {
    var r := Sort(es);
    SortSorted(es);
    SortedPlain(es);
    assert Before(r[i], r[j]);
    var a, b := r[i].key, r[j].key;
    assert KeyLike(a) && KeyLike(b);
    KindsAlike(r[i], r[j]);
    if a.Text? || a.Bytes? {
      LexIsOrder(a.data, b.data);
      forall cs, ds | AllCodePoints(cs) && AllCodePoints(ds) && Chars(cs) == a.data && Chars(ds) == b.data
        ensures InOrder(cs, ds)
      {
        TextOrder(cs, ds);
      }
    } else {
      NumbersLess(a, b);
    }
  }

  lemma SortedPlain(es: seq<Entry>)
    requires PlainKeys(es) && ScalarKeys(es)
    ensures PlainKeys(Sort(es))
  {
    SortMembers(es);
    var r := Sort(es);
    forall i | 0 <= i < |r| ensures KeyLike(r[i].key) {
      assert r[i] in es;
      var k :| 0 <= k < |es| && es[k] == r[i];
    }
  }

  // ---------- Sorted output ----------

  lemma {:induction false} InsertEach(e: Entry, es: seq<Entry>)
    requires Scalar(e.key) && ScalarKeys(es)
    ensures multiset(Insert(e, es)) == multiset{e} + multiset(es)
  {
    if es != [] {
      assert es == [es[0]] + es[1..];
      if Before(e, es[0]) {
        assert Insert(e, es) == [e] + es;
      } else {
        InsertEach(e, es[1..]);
      }
    }
  }

  lemma {:induction false} SortEach(es: seq<Entry>)
    requires ScalarKeys(es)
    ensures multiset(Sort(es)) == multiset(es)
  {
    if es != [] {
      SortEach(es[1..]);
      InsertEach(es[0], Sort(es[1..]));
      assert es == [es[0]] + es[1..];
    }
  }

  /** The sorted outputs of the keys and values of some entries, one behind the other. */
  function Outputs(d: Codec, es: seq<Entry>): seq<byte>
    requires forall i :: 0 <= i < |es| ==> Writable(d, es[i])
  {
    if es == [] then []
    else
      assert Writable(d, es[0]);
      assert forall i :: 0 <= i < |es[1..]| ==> es[1..][i] == es[i + 1];
      Output(d, true, es[0].key) + Output(d, true, es[0].val) + Outputs(d, es[1..])
  }

  predicate Writable(d: Codec, e: Entry) {
    Valid(e.key) && Accepts(d, true, e.key) && Valid(e.val) && Accepts(d, true, e.val)
  }

  lemma {:induction false} OutputsAre(d: Codec, es: seq<Entry>)
    requires ScalarKeys(es) && forall i :: 0 <= i < |es| ==> Writable(d, es[i])
    ensures ReadyEntries(d, CanonEntries(es)) && EncEntries(d, CanonEntries(es)) == Outputs(d, es)
    decreases es
  {
    if es != [] {
      var e := es[0];
      assert Writable(d, e);
      assert forall i :: 0 <= i < |es[1..]| ==> es[1..][i] == es[i + 1];
      CanonReady(d, e.key);
      CanonReady(d, e.val);
      OutputsAre(d, es[1..]);
      var cs := CanonEntries(es);
      assert cs == [CanonEntry(e)] + CanonEntries(es[1..]);
      assert Canon(e.key) == e.key;
      forall i | 0 <= i < |cs| ensures Ready(d, cs[i].key) && Ready(d, cs[i].val) {
        if i > 0 {
          assert cs[i] == CanonEntries(es[1..])[i - 1];
        }
      }
    }
  }

  lemma EntriesWritable(d: Codec, es: seq<Entry>)
    requires Valid(Dict(es)) && Accepts(d, true, Dict(es))
    ensures ScalarKeys(es) && forall i :: 0 <= i < |es| ==> Writable(d, es[i])
  {
    forall i | 0 <= i < |es| ensures Writable(d, es[i]) {
      assert Valid(es[i].key) && Valid(es[i].val) && Scalar(es[i].key);
    }
  }

  lemma SortedWritable(d: Codec, es: seq<Entry>)
    requires ScalarKeys(es) && forall i :: 0 <= i < |es| ==> Writable(d, es[i])
    ensures forall i :: 0 <= i < |es| ==> Writable(d, Sort(es)[i])
  {
    SortMembers(es);
    var r := Sort(es);
    forall i | 0 <= i < |r| ensures Writable(d, r[i]) {
      assert r[i] in es;
      var k :| 0 <= k < |es| && es[k] == r[i];
    }
  }

  lemma CanonOfSorted(es: seq<Entry>)
    requires ScalarKeys(es)
    ensures Canon(Dict(es)) == Dict(CanonEntries(Sort(es)))
  {
    CanonKeys(es);
    SortCanon(es);
    CanonOfDict(es);
  }

  lemma CanonOfDict(es: seq<Entry>)
    requires ScalarKeys(CanonEntries(es))
    ensures Canon(Dict(es)) == Dict(Sort(CanonEntries(es)))
  {
  }

  /**
    With sort_keys a dict is written as its head and then its entries, each once, in the order
    of their keys.
   */
  lemma SortedBytes(d: Codec, es: seq<Entry>)
    requires Valid(Dict(es)) && Accepts(d, true, Dict(es))
    ensures ScalarKeys(es) && multiset(Sort(es)) == multiset(es)
    ensures |es| < 0x8000_0000_0000_0000 && forall i :: 0 <= i < |es| ==> Writable(d, Sort(es)[i])
    ensures Output(d, true, Dict(es)) == EncodedBytes.Start(0xA0, |es|) + Outputs(d, Sort(es))
  {
    EntriesWritable(d, es);
    SortEach(es);
    SortedWritable(d, es);
    OutputsAre(d, Sort(es));
    CanonReady(d, Dict(es));
    CanonOfSorted(es);
    EncodedBytes.EncodesNode(d, Dict(CanonEntries(Sort(es))));
  }

  /** Lists, tuples and tags are written with the sorted output of what they hold, everything else as it is. */
  lemma SortedElsewhere(d: Codec, v: Value)
    requires Valid(v) && Accepts(d, true, v)
    ensures v.List? ==>
              && |v.items| < 0x8000_0000_0000_0000
              && (forall i :: 0 <= i < |v.items| ==> Valid(v.items[i]) && Accepts(d, true, v.items[i]))
              && Output(d, true, v) == EncodedBytes.Start(0x80, |v.items|) + ItemOutputs(d, v.items)
    ensures v.Tag? ==>
              && 0 <= v.num < 0x1_0000_0000_0000_0000 && Valid(v.item) && Accepts(d, true, v.item)
              && Output(d, true, v) == EncodedBytes.Start(0xC0, v.num) + Output(d, true, v.item)
    ensures !v.List? && !v.Dict? && !v.Tag? ==> Output(d, true, v) == Output(d, false, v)
  {
    CanonReady(d, v);
    if v.List? {
      ItemOutputsAre(d, v.items);
      EncodedBytes.EncodesNode(d, Canon(v));
    } else if v.Tag? {
      EncodedBytes.EncodesNode(d, Canon(v));
    }
  }

  function ItemOutputs(d: Codec, vs: seq<Value>): seq<byte>
    requires forall i :: 0 <= i < |vs| ==> Valid(vs[i]) && Accepts(d, true, vs[i])
  {
    if vs == [] then [] else Output(d, true, vs[0]) + ItemOutputs(d, vs[1..])
  }

  lemma {:induction false} ItemOutputsAre(d: Codec, vs: seq<Value>)
    requires forall i :: 0 <= i < |vs| ==> Valid(vs[i]) && Accepts(d, true, vs[i])
    ensures ReadyAll(d, CanonAll(vs)) && EncAll(d, CanonAll(vs)) == ItemOutputs(d, vs)
    decreases vs
  {
    if vs != [] {
      CanonReady(d, vs[0]);
      ItemOutputsAre(d, vs[1..]);
      var cs := CanonAll(vs);
      assert cs == [Canon(vs[0])] + CanonAll(vs[1..]);
      EncodedBytes.EncodesRow(d, Canon(vs[0]), CanonAll(vs[1..]), Entry(Null, Null), []);
    }
  }
}
