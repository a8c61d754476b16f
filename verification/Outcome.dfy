/** The outcome of an encoder, object by object, in the order in which it visits them. */
module Outcome {
  import opened Prelude
  import opened Values
  import opened Wire
  import opened Sorting
  import opened Encoding

  /** The objects that the encoders are specified for. */
  predicate Eligible(sort: bool, v: Value) {
    Valid(v) && (sort ==> Orderable(v))
  }

  /** The bytes of an object, or None where the encoder fails; with `sort`, of one that is eligible. */
  function Out(d: Codec, sort: bool, v: Value): Option<seq<byte>> {
    if Valid(v) && Accepts(d, sort, v) then Some(Output(d, sort, v)) else None
  }

  function Cat(a: Option<seq<byte>>, b: Option<seq<byte>>): Option<seq<byte>> {
    if a.Some? && b.Some? then Some(a.value + b.value) else None
  }

  function OutAll(d: Codec, sort: bool, vs: seq<Value>): Option<seq<byte>> {
    if vs == [] then Some([]) else Cat(Out(d, sort, vs[0]), OutAll(d, sort, vs[1..]))
  }

  lemma CatTwice(a: Option<seq<byte>>, b: Option<seq<byte>>, c: Option<seq<byte>>)
    ensures Cat(a, Cat(b, c)) == Cat(Cat(a, b), c)
  {
    if a.Some? && b.Some? && c.Some? {
      assert a.value + (b.value + c.value) == a.value + b.value + c.value;
    }
  }

  /** The keys in the order in which `dumps_dict` visits them. */
  function Visited(sort: bool, es: seq<Entry>): (r: seq<Entry>)
    requires ScalarKeys(es)
    ensures ScalarKeys(r) && |r| == |es|
  {
    if sort then Sort(es) else es
  }

  predicate Fine(d: Codec, sort: bool, v: Value) {
    Valid(v) && Accepts(d, sort, v)
  }

  predicate FineAll(d: Codec, sort: bool, vs: seq<Value>) {
    forall i :: 0 <= i < |vs| ==> Fine(d, sort, vs[i])
  }

  lemma {:induction false} OutAllFine(d: Codec, sort: bool, vs: seq<Value>)
    ensures OutAll(d, sort, vs).Some? <==> FineAll(d, sort, vs)
  {
    if vs != [] {
      OutAllFine(d, sort, vs[1..]);
      if FineAll(d, sort, vs) {
        assert Fine(d, sort, vs[0]);
        forall i | 0 <= i < |vs[1..]| ensures Fine(d, sort, vs[1..][i]) {
          assert Fine(d, sort, vs[i + 1]);
        }
      }
      if OutAll(d, sort, vs).Some? {
        forall i | 0 <= i < |vs| ensures Fine(d, sort, vs[i]) {
          if i > 0 {
            assert Fine(d, sort, vs[1..][i - 1]);
          }
        }
      }
    }
  }

  lemma {:induction false} OutAllIsEnc(d: Codec, sort: bool, vs: seq<Value>)
    requires FineAll(d, sort, vs)
    ensures var cs := if sort then CanonAll(vs) else vs;
            ReadyAll(d, cs) && OutAll(d, sort, vs) == Some(EncAll(d, cs))
  {
    if vs != [] {
      assert Fine(d, sort, vs[0]);
      forall i | 0 <= i < |vs[1..]| ensures Fine(d, sort, vs[1..][i]) {
        assert Fine(d, sort, vs[i + 1]);
      }
      OutAllIsEnc(d, sort, vs[1..]);
      ReadyConcat(d, sort, vs[0], vs[1..]);
      assert vs == [vs[0]] + vs[1..];
    }
  }

  lemma ReadyConcat(d: Codec, sort: bool, v: Value, vs: seq<Value>)
    requires Fine(d, sort, v)
    requires ReadyAll(d, if sort then CanonAll(vs) else vs)
    ensures var c, cs := if sort then Canon(v) else v, if sort then CanonAll(vs) else vs;
            var all := if sort then CanonAll([v] + vs) else [v] + vs;
            && all == [c] + cs && Ready(d, c) && ReadyAll(d, all)
            && EncAll(d, all) == Output(d, sort, v) + EncAll(d, cs)
  {
    CanonReady(d, v);
    assert ([v] + vs)[1..] == vs;
    var cs := if sort then CanonAll(vs) else vs;
    var c := if sort then Canon(v) else v;
    assert ([c] + cs)[1..] == cs;
  }

  lemma OutList(d: Codec, sort: bool, v: Value)
    requires v.List? && Valid(v)
    ensures Out(d, sort, v) == Cat(Some(Head(ARRAY, |v.items|)), OutAll(d, sort, v.items))
  {
    OutAllFine(d, sort, v.items);
    ListFine(d, sort, v);
    if FineAll(d, sort, v.items) {
      OutAllIsEnc(d, sort, v.items);
      OutputOfList(d, sort, v);
    }
  }

  lemma ListFine(d: Codec, sort: bool, v: Value)
    requires v.List? && Valid(v)
    ensures Accepts(d, sort, v) <==> FineAll(d, sort, v.items)
  {
    if FineAll(d, sort, v.items) {
      forall i | 0 <= i < |v.items| ensures Accepts(d, sort, v.items[i]) {
        assert Fine(d, sort, v.items[i]);
      }
    } else {
      var i :| 0 <= i < |v.items| && !Fine(d, sort, v.items[i]);
    }
  }

  lemma OutputOfList(d: Codec, sort: bool, v: Value)
    requires v.List? && Valid(v) && Accepts(d, sort, v)
    requires ReadyAll(d, if sort then CanonAll(v.items) else v.items)
    ensures Output(d, sort, v) ==
            Head(ARRAY, |v.items|) + EncAll(d, if sort then CanonAll(v.items) else v.items)
  {
    CanonReady(d, v);
  }

  predicate EntryFine(d: Codec, sort: bool, e: Entry) {
    Fine(d, sort, e.key) && Fine(d, sort, e.val)
  }

  predicate EntriesFine(d: Codec, sort: bool, es: seq<Entry>) {
    forall i :: 0 <= i < |es| ==> EntryFine(d, sort, es[i])
  }

  lemma OutFlatCons(d: Codec, sort: bool, es: seq<Entry>)
    requires es != []
    ensures OutAll(d, sort, Flat(es)) ==
            Cat(Cat(Out(d, sort, es[0].key), Out(d, sort, es[0].val)), OutAll(d, sort, Flat(es[1..])))
  {
    var kvs, rest := Flat(es), Flat(es[1..]);
    assert kvs[0] == es[0].key && kvs[1..][0] == es[0].val && kvs[1..][1..] == rest;
    CatTwice(Out(d, sort, es[0].key), Out(d, sort, es[0].val), OutAll(d, sort, rest));
  }

  lemma EntriesFineCons(d: Codec, sort: bool, es: seq<Entry>)
    requires es != []
    ensures EntriesFine(d, sort, es) <==> EntryFine(d, sort, es[0]) && EntriesFine(d, sort, es[1..])
  {
    if EntriesFine(d, sort, es) {
      forall i | 0 <= i < |es[1..]| ensures EntryFine(d, sort, es[1..][i]) {
        assert EntryFine(d, sort, es[i + 1]);
      }
    }
    if EntryFine(d, sort, es[0]) && EntriesFine(d, sort, es[1..]) {
      forall i | 0 <= i < |es| ensures EntryFine(d, sort, es[i]) {
        if i > 0 {
          assert EntryFine(d, sort, es[1..][i - 1]);
        }
      }
    }
  }

  lemma {:induction false} OutFlatFine(d: Codec, sort: bool, es: seq<Entry>)
    ensures OutAll(d, sort, Flat(es)).Some? <==> EntriesFine(d, sort, es)
  {
    if es != [] {
      OutFlatCons(d, sort, es);
      EntriesFineCons(d, sort, es);
      OutFlatFine(d, sort, es[1..]);
    }
  }

  function CanonOr(sort: bool, es: seq<Entry>): (r: seq<Entry>)
    ensures |r| == |es|
  {
    if sort then CanonEntries(es) else es
  }

  lemma EntryEnc(d: Codec, sort: bool, e: Entry, es: seq<Entry>)
    requires EntryFine(d, sort, e) && Scalar(e.key) && ReadyEntries(d, CanonOr(sort, es))
    ensures ReadyEntries(d, CanonOr(sort, [e] + es))
    ensures EncEntries(d, CanonOr(sort, [e] + es)) ==
            Output(d, sort, e.key) + Output(d, sort, e.val) + EncEntries(d, CanonOr(sort, es))
  {
    CanonReady(d, e.val);
    var c := if sort then CanonEntry(e) else e;
    var all, cs := CanonOr(sort, [e] + es), CanonOr(sort, es);
    assert ([e] + es)[1..] == es;
    assert all == [c] + cs;
    assert all[1..] == cs;
  }

  lemma {:induction false} OutFlatIsEnc(d: Codec, sort: bool, es: seq<Entry>)
    requires EntriesFine(d, sort, es) && ScalarKeys(es)
    ensures ReadyEntries(d, CanonOr(sort, es))
    ensures OutAll(d, sort, Flat(es)) == Some(EncEntries(d, CanonOr(sort, es)))
  {
    if es != [] {
      OutFlatCons(d, sort, es);
      EntriesFineCons(d, sort, es);
      OutFlatIsEnc(d, sort, es[1..]);
      EntryEnc(d, sort, es[0], es[1..]);
      assert es == [es[0]] + es[1..];
    }
  }

  lemma VisitedFine(d: Codec, sort: bool, es: seq<Entry>)
    requires ScalarKeys(es)
    ensures EntriesFine(d, sort, Visited(sort, es)) <==> EntriesFine(d, sort, es)
  {
    var vs := Visited(sort, es);
    SortMembers(es);
    if EntriesFine(d, sort, es) {
      forall k | 0 <= k < |vs| ensures EntryFine(d, sort, vs[k]) {
        assert vs[k] in vs;
        var i :| 0 <= i < |es| && es[i] == vs[k];
      }
    }
    if EntriesFine(d, sort, vs) {
      forall i | 0 <= i < |es| ensures EntryFine(d, sort, es[i]) {
        assert es[i] in es;
        var k :| 0 <= k < |vs| && vs[k] == es[i];
      }
    }
  }

  lemma DictAccepts(d: Codec, sort: bool, v: Value)
    requires v.Dict? && Valid(v)
    ensures Accepts(d, sort, v) <==> (sort ==> Comparable(v.entries)) && EntriesFine(d, sort, v.entries)
  {
    var es := v.entries;
    if Accepts(d, sort, v) {
      forall i | 0 <= i < |es| ensures EntryFine(d, sort, es[i]) {
        assert Scalar(es[i].key);
      }
    } else if (sort ==> Comparable(es)) && EntriesFine(d, sort, es) {
      forall i | 0 <= i < |es|
        ensures Encodable(d, es[i].key) && Encodable(d, es[i].val) && (sort ==> Sortable(es[i].val))
      {
        assert EntryFine(d, sort, es[i]);
      }
      assert false;
    }
  }

  lemma OutDict(d: Codec, sort: bool, v: Value)
    requires v.Dict? && Valid(v)
    ensures Out(d, sort, v) ==
            if sort && !Comparable(v.entries) then None
            else Cat(Some(Head(MAP, |v.entries|)), OutAll(d, sort, Flat(Visited(sort, v.entries))))
  {
    var es := v.entries;
    var vs := Visited(sort, es);
    DictAccepts(d, sort, v);
    VisitedFine(d, sort, es);
    OutFlatFine(d, sort, vs);
    if Accepts(d, sort, v) {
      OutFlatIsEnc(d, sort, vs);
      CanonReady(d, v);
      if sort {
        CanonKeys(es);
        SortCanon(es);
        assert Canon(v) == Dict(CanonOr(sort, vs));
      }
    }
  }

  lemma OutTag(d: Codec, sort: bool, v: Value)
    requires v.Tag? && Valid(v)
    ensures Out(d, sort, v) ==
            if 0 <= v.num < TagLimit(d) then Cat(Some(Head(TAG, v.num)), Out(d, sort, v.item)) else None
  {
    if 0 <= v.num < TagLimit(d) && Encodable(d, v.item) {
      CanonReady(d, v.item);
      CanonReady(d, v);
    }
  }

  lemma EntryOf(sort: bool, ob: Value, es: seq<Entry>, i: nat)
    requires ob.Dict? && Eligible(sort, ob) && i < |es| && forall x :: x in es ==> x in ob.entries
    ensures Eligible(sort, es[i].key) && Eligible(sort, es[i].val)
    ensures (ob decreases to es[i].key) && (ob decreases to es[i].val)
  {
    assert es[i] in es;
    var k :| 0 <= k < |ob.entries| && ob.entries[k] == es[i];
    assert ob.entries decreases to ob.entries[k];
  }

  /** What is left to write of the entries from the i-th on. */
  lemma PairAhead(d: Codec, sort: bool, ob: Value, es: seq<Entry>, i: nat, e: Entry)
    requires ob.Dict? && Eligible(sort, ob) && (forall x :: x in es ==> x in ob.entries) && i < |es| && e == es[i]
    ensures Eligible(sort, e.key) && Eligible(sort, e.val) && (ob decreases to e.key) && (ob decreases to e.val)
    ensures OutAll(d, sort, Flat(es[i..])) ==
            Cat(Cat(Out(d, sort, e.key), Out(d, sort, e.val)), OutAll(d, sort, Flat(es[i + 1..])))
  {
    EntryOf(sort, ob, es, i);
    assert es[i..][0] == e && es[i..][1..] == es[i + 1..];
    OutFlatCons(d, sort, es[i..]);
  }

  /** A tag whose number is None: the C encoder writes nothing, the Python encoder raises. */
  lemma OutBareTag(d: Codec, sort: bool, v: Value)
    requires v.BareTag? && Valid(v)
    ensures Out(d, sort, v) == if d.C? then Some([]) else None
  {
  }
}
