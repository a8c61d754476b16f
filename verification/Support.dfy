/**
  Which objects the encoders take, said of the objects inside them: no encoder refuses None,
  a boolean, a number, a string, a list, a tuple or a dict.
 */
module Support {
  import opened Prelude
  import opened BigEndian
  import opened Values
  import opened Encoding
  import opened Numbers
  import Sorting
  import Utf8
  import SortOrder

  /** The object and all that is written inside it; the content of a tag without a number is not. */
  function Parts(v: Value): seq<Value>
    decreases v, 1
  {
    [v] + InParts(v)
  }

  function InParts(v: Value): seq<Value>
    decreases v, 0
  {
    match v
    case List(items, _) => PartsAll(items)
    case Dict(entries) => PartsEntries(entries)
    case Tag(_, item) => Parts(item)
    case _ => []
  }

  lemma PartsOf(v: Value)
    ensures v in Parts(v) && |Parts(v)| == 1 + |InParts(v)|
    ensures forall x :: x in Parts(v) <==> x == v || x in InParts(v)
  {
  }

  function PartsAll(vs: seq<Value>): seq<Value>
    decreases vs
  {
    if vs == [] then [] else Parts(vs[0]) + PartsAll(vs[1..])
  }

  function PartsEntries(es: seq<Entry>): seq<Value>
    decreases es
  {
    if es == [] then [] else PartsEntry(es[0]) + PartsEntries(es[1..])
  }

  function PartsEntry(e: Entry): seq<Value>
    decreases e
  {
    Parts(e.key) + Parts(e.val)
  }

  /** What an encoder cannot write. */
  predicate Refused(d: Codec, x: Value) {
    || x.Instance?
    || (d.Python? && x.BareTag?)
    || (x.Tag? && (x.num < 0 || x.num >= if d.C? then 0x8000_0000_0000_0000 else 0x1_0000_0000_0000_0000))
  }

  lemma {:induction false} PartsDecide(d: Codec, v: Value)
    ensures Encodable(d, v) <==> forall x :: x in Parts(v) ==> !Refused(d, x)
    decreases v, 1
  {
    PartsOf(v);
    match v
    case List(items, _) => PartsDecideAll(d, items);
    case Dict(entries) => PartsDecideEntries(d, entries);
    case Tag(_, item) => PartsDecide(d, item);
    case _ =>
  }

  lemma {:induction false} PartsDecideAll(d: Codec, vs: seq<Value>)
    ensures (forall i :: 0 <= i < |vs| ==> Encodable(d, vs[i])) <==> forall x :: x in PartsAll(vs) ==> !Refused(d, x)
    decreases vs
  {
    if vs != [] {
      PartsDecide(d, vs[0]);
      PartsDecideAll(d, vs[1..]);
      assert forall i :: 1 <= i < |vs| ==> vs[i] == vs[1..][i - 1];
      assert forall i :: 0 <= i < |vs| - 1 ==> vs[1..][i] == vs[i + 1];
    }
  }

  lemma {:induction false} PartsDecideEntries(d: Codec, es: seq<Entry>)
    ensures (forall i :: 0 <= i < |es| ==> Encodable(d, es[i].key) && Encodable(d, es[i].val)) <==>
            forall x :: x in PartsEntries(es) ==> !Refused(d, x)
    decreases es
  {
    if es != [] {
      assert es decreases to es[0];
      PartsDecide(d, es[0].key);
      PartsDecide(d, es[0].val);
      PartsDecideEntries(d, es[1..]);
      assert forall i :: 1 <= i < |es| ==> es[i] == es[1..][i - 1];
      assert forall i :: 0 <= i < |es| - 1 ==> es[1..][i] == es[i + 1];
    }
  }

  /**
    Without sort_keys an encoder takes exactly the objects in which there is no instance of
    an unknown class and no tag whose number it cannot write: in C, numbers in [0, 2^63) or
    no number at all, in Python, numbers in [0, 2^64).
   */
  lemma AcceptsExactly(d: Codec, v: Value)
    requires Valid(v)
    ensures Accepts(d, false, v) <==> forall x :: x in Parts(v) ==> !Refused(d, x)
  {
    PartsDecide(d, v);
  }

  /** What `sort_keys` can sort: keys of one kind, or a single one. */
  predicate OneKind(es: seq<Entry>) {
    || |es| <= 1
    || (forall i :: 0 <= i < |es| ==> SortOrder.IsNumeral(es[i].key))
    || (forall i :: 0 <= i < |es| ==> es[i].key.Text?)
    || (forall i :: 0 <= i < |es| ==> es[i].key.Bytes?)
  }

  lemma KeysDecide(es: seq<Entry>)
    requires Valid(Dict(es))
    ensures ScalarKeys(es) && (Sorting.Comparable(es) <==> OneKind(es))
  {
    forall i | 0 <= i < |es| ensures KeyLike(es[i].key) {
      assert Scalar(es[i].key) && Valid(es[i].key);
    }
    SortOrder.SortableKinds(es);
  }

  lemma {:induction false} PartsSort(v: Value)
    requires Valid(v)
    ensures Sorting.Sortable(v) <==> forall x :: x in Parts(v) && x.Dict? ==> OneKind(x.entries)
    decreases v, 1
  {
    PartsOf(v);
    match v
    case List(items, _) => PartsSortAll(items);
    case Dict(entries) =>
      KeysDecide(entries);
      PartsSortEntries(entries);
    case Tag(_, item) => PartsSort(item);
    case _ =>
  }

  lemma {:induction false} PartsSortAll(vs: seq<Value>)
    requires forall i :: 0 <= i < |vs| ==> Valid(vs[i])
    ensures (forall i :: 0 <= i < |vs| ==> Sorting.Sortable(vs[i])) <==>
            forall x :: x in PartsAll(vs) && x.Dict? ==> OneKind(x.entries)
    decreases vs
  {
    if vs != [] {
      PartsSort(vs[0]);
      PartsSortAll(vs[1..]);
      assert forall i :: 1 <= i < |vs| ==> vs[i] == vs[1..][i - 1];
      assert forall i :: 0 <= i < |vs| - 1 ==> vs[1..][i] == vs[i + 1];
    }
  }

  lemma {:induction false} PartsSortEntries(es: seq<Entry>)
    requires forall i :: 0 <= i < |es| ==> Scalar(es[i].key) && Valid(es[i].val)
    ensures (forall i :: 0 <= i < |es| ==> Sorting.Sortable(es[i].val)) <==>
            forall x :: x in PartsEntries(es) && x.Dict? ==> OneKind(x.entries)
    decreases es
  {
    if es != [] {
      assert es decreases to es[0];
      assert Parts(es[0].key) == [es[0].key];
      PartsSort(es[0].val);
      PartsSortEntries(es[1..]);
      assert forall i :: 1 <= i < |es| ==> es[i] == es[1..][i - 1];
      assert forall i :: 0 <= i < |es| - 1 ==> es[1..][i] == es[i + 1];
    }
  }

  /** With sort_keys it takes those of them whose dicts have keys of one kind each. */
  lemma AcceptsSorted(d: Codec, v: Value)
    requires Valid(v)
    ensures Accepts(d, true, v) <==>
            && Accepts(d, false, v)
            && forall x :: x in Parts(v) && x.Dict? ==> OneKind(x.entries)
  {
    PartsSort(v);
  }

  // ---------- What is asked of objects ----------

  /** The object and everything inside it. */
  function Whole(v: Value): seq<Value>
    decreases v, 1
  {
    [v] + InWhole(v)
  }

  function InWhole(v: Value): seq<Value>
    decreases v, 0
  {
    match v
    case List(items, _) => WholeAll(items)
    case Dict(entries) => WholeEntries(entries)
    case Tag(_, item) => Whole(item)
    case BareTag(item) => Whole(item)
    case _ => []
  }

  lemma WholeOf(v: Value)
    ensures v in Whole(v) && |Whole(v)| == 1 + |InWhole(v)|
    ensures forall x :: x in Whole(v) <==> x == v || x in InWhole(v)
  {
  }

  function WholeAll(vs: seq<Value>): seq<Value>
    decreases vs
  {
    if vs == [] then [] else Whole(vs[0]) + WholeAll(vs[1..])
  }

  function WholeEntries(es: seq<Entry>): seq<Value>
    decreases es
  {
    if es == [] then [] else WholeEntry(es[0]) + WholeEntries(es[1..])
  }

  function WholeEntry(e: Entry): seq<Value>
    decreases e
  {
    Whole(e.key) + Whole(e.val)
  }

  predicate SimpleKey(v: Value) {
    v.Null? || v.Bool? || v.Int? || v.Bytes? || v.Text? || v.Float?
  }

  /** Sizes below 2^63, texts that are texts, doubles, and dicts with simple keys of which no two are equal. */
  predicate Sound(x: Value) {
    match x
    case Int(n) => |MinBE(if n < 0 then -1 - n else n)| < 0x8000_0000_0000_0000
    case Bytes(data) => |data| < 0x8000_0000_0000_0000
    case Text(data) => |data| < 0x8000_0000_0000_0000 && Utf8.Valid(data)
    case Float(payload) => |payload| == 8
    case List(items, _) => |items| < 0x8000_0000_0000_0000
    case Dict(entries) =>
      && |entries| < 0x8000_0000_0000_0000
      && (forall i :: 0 <= i < |entries| ==> SimpleKey(entries[i].key))
      && forall i, j :: 0 <= i < j < |entries| ==> !KeyEq(entries[i].key, entries[j].key)
    case _ => true
  }

  /** An object is valid exactly if everything in it is sound. */
  lemma {:induction false} ValidExactly(v: Value)
    ensures Valid(v) <==> forall x :: x in Whole(v) ==> Sound(x)
    decreases v, 1
  {
    WholeOf(v);
    match v
    case List(items, _) => ValidAll(items);
    case Dict(entries) =>
      ValidEntries(entries);
      KeysSound(entries);
    case Tag(_, item) => ValidExactly(item);
    case BareTag(item) => ValidExactly(item);
    case _ =>
  }

  lemma KeysSound(es: seq<Entry>)
    ensures ScalarKeys(es) <==> forall i :: 0 <= i < |es| ==> SimpleKey(es[i].key)
  {
    assert forall i :: 0 <= i < |es| ==> (Scalar(es[i].key) <==> SimpleKey(es[i].key));
  }

  lemma {:induction false} ValidAll(vs: seq<Value>)
    ensures (forall i :: 0 <= i < |vs| ==> Valid(vs[i])) <==> forall x :: x in WholeAll(vs) ==> Sound(x)
    decreases vs
  {
    if vs != [] {
      ValidExactly(vs[0]);
      ValidAll(vs[1..]);
      assert forall i :: 1 <= i < |vs| ==> vs[i] == vs[1..][i - 1];
      assert forall i :: 0 <= i < |vs| - 1 ==> vs[1..][i] == vs[i + 1];
    }
  }

  lemma {:induction false} ValidEntries(es: seq<Entry>)
    ensures (forall i :: 0 <= i < |es| ==> Valid(es[i].key) && Valid(es[i].val)) <==>
            forall x :: x in WholeEntries(es) ==> Sound(x)
    decreases es
  {
    if es != [] {
      assert es decreases to es[0];
      ValidExactly(es[0].key);
      ValidExactly(es[0].val);
      ValidEntries(es[1..]);
      assert forall i :: 1 <= i < |es| ==> es[i] == es[1..][i - 1];
      assert forall i :: 0 <= i < |es| - 1 ==> es[1..][i] == es[i + 1];
    }
  }

  /** A NaN among several keys. */
  predicate HasNaN(x: Value) {
    && x.Dict? && |x.entries| > 1
    && exists i :: 0 <= i < |x.entries| && IsNaN(x.entries[i].key)
  }

  predicate IsNaN(k: Value) {
    k.Float? && |k.payload| == 8 && NotANumber(k.payload)
  }

  /** With sort_keys the encoders are specified for exactly the objects without one. */
  lemma {:induction false} OrderableExactly(v: Value)
    requires Valid(v)
    ensures Sorting.Orderable(v) <==> forall x :: x in Parts(v) ==> !HasNaN(x)
    decreases v, 1
  {
    PartsOf(v);
    match v
    case List(items, _) => OrderableAll(items);
    case Dict(entries) =>
      NaNKeys(entries);
      OrderableEntries(entries);
    case Tag(_, item) => OrderableExactly(item);
    case _ =>
  }

  lemma NaNKeys(es: seq<Entry>)
    requires Valid(Dict(es))
    ensures ScalarKeys(es)
    ensures forall i :: 0 <= i < |es| ==> (KeyOf(es[i].key) == NaN <==> IsNaN(es[i].key))
  {
    forall i | 0 <= i < |es| ensures KeyOf(es[i].key) == NaN <==> IsNaN(es[i].key) {
      assert Valid(es[i].key) && Scalar(es[i].key);
      if es[i].key.Float? {
        FloatKinds(es[i].key);
      }
    }
  }

  lemma {:induction false} OrderableAll(vs: seq<Value>)
    requires forall i :: 0 <= i < |vs| ==> Valid(vs[i])
    ensures (forall i :: 0 <= i < |vs| ==> Sorting.Orderable(vs[i])) <==> forall x :: x in PartsAll(vs) ==> !HasNaN(x)
    decreases vs
  {
    if vs != [] {
      OrderableExactly(vs[0]);
      OrderableAll(vs[1..]);
      assert forall i :: 1 <= i < |vs| ==> vs[i] == vs[1..][i - 1];
      assert forall i :: 0 <= i < |vs| - 1 ==> vs[1..][i] == vs[i + 1];
    }
  }

  lemma {:induction false} OrderableEntries(es: seq<Entry>)
    requires forall i :: 0 <= i < |es| ==> Scalar(es[i].key) && Valid(es[i].val)
    ensures (forall i :: 0 <= i < |es| ==> Sorting.Orderable(es[i].val)) <==> forall x :: x in PartsEntries(es) ==> !HasNaN(x)
    decreases es
  {
    if es != [] {
      assert es decreases to es[0];
      assert Parts(es[0].key) == [es[0].key];
      OrderableExactly(es[0].val);
      OrderableEntries(es[1..]);
      assert forall i :: 1 <= i < |es| ==> es[i] == es[1..][i - 1];
      assert forall i :: 0 <= i < |es| - 1 ==> es[1..][i] == es[i + 1];
    }
  }
}
