/**
  `sort_keys`: the order Python puts dict keys in, and the canonical form of a value
  that results at every level.
 */
module Sorting {
  import opened Prelude
  import opened Values

  // ---------- The order of keys ----------

  /** Python compares numbers with numbers, texts with texts and bytes with bytes. */
  predicate SameKind(a: Key, b: Key) {
    || (IsNumber(a) && IsNumber(b))
    || (a.TextKey? && b.TextKey?)
    || (a.BytesKey? && b.BytesKey?)
  }

  predicate IsNumber(a: Key) { a.Numeric? || a.Infinite? }

  /** Code points in order are UTF-8 bytes in order. */
  predicate LexLess(a: seq<byte>, b: seq<byte>)
    decreases |a|
  {
    b != [] && (a == [] || a[0] < b[0] || (a[0] == b[0] && LexLess(a[1..], b[1..])))
  }

  predicate Less(a: Key, b: Key)
    requires SameKind(a, b)
  {
    match a
    case Numeric(x) => if b.Numeric? then x < b.x else !b.negative
    case Infinite(neg) => neg && b != Infinite(true)
    case TextKey(t) => LexLess(t, b.text)
    case BytesKey(s) => LexLess(s, b.bytes)
  }

  lemma {:induction false} LexTransitive(a: seq<byte>, b: seq<byte>, c: seq<byte>)
    requires LexLess(a, b) && LexLess(b, c)
    ensures LexLess(a, c)
    decreases |a|
  {
    if a != [] && a[0] == b[0] && b[0] == c[0] {
      LexTransitive(a[1..], b[1..], c[1..]);
    }
  }

  lemma {:induction false} LexTotal(a: seq<byte>, b: seq<byte>)
    ensures LexLess(a, b) || a == b || LexLess(b, a)
    ensures !(LexLess(a, b) && LexLess(b, a)) && !LexLess(a, a)
    decreases |a|
  {
    if a != [] {
      LexTotal(a[1..], a[1..]);
      if b != [] && a[0] == b[0] {
        LexTotal(a[1..], b[1..]);
        if a[1..] == b[1..] {
          assert a == [a[0]] + a[1..] == b;
        }
      }
    }
  }

  lemma LessTransitive(a: Key, b: Key, c: Key)
    requires SameKind(a, b) && SameKind(b, c) && Less(a, b) && Less(b, c)
    ensures SameKind(a, c) && Less(a, c)
  {
    if a.TextKey? { LexTransitive(a.text, b.text, c.text); }
    if a.BytesKey? { LexTransitive(a.bytes, b.bytes, c.bytes); }
  }

  lemma LessTotal(a: Key, b: Key)
    requires SameKind(a, b)
    ensures Less(a, b) || a == b || Less(b, a)
    ensures !(Less(a, b) && Less(b, a)) && !Less(a, a)
  {
    if a.TextKey? { LexTotal(a.text, b.text); }
    if a.BytesKey? { LexTotal(a.bytes, b.bytes); }
    if a.TextKey? { LexTotal(a.text, a.text); }
    if a.BytesKey? { LexTotal(a.bytes, a.bytes); }
  }

  predicate Before(a: Entry, b: Entry)
    requires Scalar(a.key) && Scalar(b.key)
  {
    SameKind(KeyOf(a.key), KeyOf(b.key)) && Less(KeyOf(a.key), KeyOf(b.key))
  }

  lemma BeforeTransitive(a: Entry, b: Entry, c: Entry)
    requires Scalar(a.key) && Scalar(b.key) && Scalar(c.key)
    requires Before(a, b) && Before(b, c)
    ensures Before(a, c)
  {
    LessTransitive(KeyOf(a.key), KeyOf(b.key), KeyOf(c.key));
  }

  lemma BeforeAsymmetric(a: Entry, b: Entry)
    requires Scalar(a.key) && Scalar(b.key) && Before(a, b)
    ensures !Before(b, a)
  {
    LessTotal(KeyOf(a.key), KeyOf(b.key));
  }

  predicate Alike(a: Entry, b: Entry)
    requires Scalar(a.key) && Scalar(b.key)
  {
    SameKind(KeyOf(a.key), KeyOf(b.key))
  }

  lemma BeforeTotal(a: Entry, b: Entry)
    requires Scalar(a.key) && Scalar(b.key)
    requires Alike(a, b) && !KeyEq(a.key, b.key)
    ensures Before(a, b) || Before(b, a)
  {
    LessTotal(KeyOf(a.key), KeyOf(b.key));
  }

  // ---------- Sorting ----------

  /** All pairs of keys can be compared; otherwise, unless there is a NaN, the sort raises a TypeError. */
  predicate Comparable(es: seq<Entry>)
    requires ScalarKeys(es)
  {
    forall i, j :: 0 <= i < j < |es| ==> Alike(es[i], es[j])
  }

  predicate Sorted(es: seq<Entry>)
    requires ScalarKeys(es)
  {
    forall i, j :: 0 <= i < j < |es| ==> Before(es[i], es[j])
  }

  function Insert(e: Entry, es: seq<Entry>): (r: seq<Entry>)
    requires Scalar(e.key) && ScalarKeys(es)
    ensures ScalarKeys(r) && |r| == |es| + 1
  {
    if es == [] then [e]
    else if Before(e, es[0]) then [e] + es
    else [es[0]] + Insert(e, es[1..])
  }

  /** The entries in the order of their keys. */
  function Sort(es: seq<Entry>): (r: seq<Entry>)
    requires ScalarKeys(es)
    ensures ScalarKeys(r) && |r| == |es|
  {
    if es == [] then [] else Insert(es[0], Sort(es[1..]))
  }

  lemma {:induction false} InsertMembers(e: Entry, es: seq<Entry>)
    requires Scalar(e.key) && ScalarKeys(es)
    ensures forall x :: x in Insert(e, es) <==> x == e || x in es
  {
    if es != [] && !Before(e, es[0]) {
      InsertMembers(e, es[1..]);
      assert es == [es[0]] + es[1..];
    }
  }

  /** Sorting keeps every entry and adds none. */
  lemma {:induction false} SortMembers(es: seq<Entry>)
    requires ScalarKeys(es)
    ensures forall x :: x in Sort(es) <==> x in es
  {
    if es != [] {
      SortMembers(es[1..]);
      InsertMembers(es[0], Sort(es[1..]));
      assert es == [es[0]] + es[1..];
    }
  }

  lemma {:induction false} InsertSorted(e: Entry, es: seq<Entry>)
    requires Scalar(e.key) && ScalarKeys(es) && Sorted(es)
    requires forall i :: 0 <= i < |es| ==> Before(e, es[i]) || Before(es[i], e)
    ensures Sorted(Insert(e, es))
  {
    if es == [] {
    } else if Before(e, es[0]) {
      forall i | 0 <= i < |es| ensures Before(e, es[i]) {
        if i > 0 {
          BeforeTransitive(e, es[0], es[i]);
        }
      }
    } else {
      var tail := es[1..];
      forall i | 0 <= i < |tail| ensures Before(e, tail[i]) || Before(tail[i], e) {
        assert tail[i] == es[i + 1];
      }
      InsertSorted(e, tail);
      InsertMembers(e, tail);
      var r := Insert(e, tail);
      forall i | 0 <= i < |r| ensures Before(es[0], r[i]) {
        assert r[i] in r;
        if r[i] != e {
          var k :| 0 <= k < |tail| && tail[k] == r[i];
          assert r[i] == es[k + 1];
        } else {
          assert Before(e, es[0]) || Before(es[0], e);
        }
      }
    }
  }

  lemma {:induction false} SortSorted(es: seq<Entry>)
    requires ScalarKeys(es) && Comparable(es) && DistinctKeys(es)
    ensures Sorted(Sort(es))
  {
    if es != [] {
      var e, tail := es[0], es[1..];
      SortSorted(tail);
      SortMembers(tail);
      var s := Sort(tail);
      forall i | 0 <= i < |s| ensures Before(e, s[i]) || Before(s[i], e) {
        assert s[i] in s;
        var k :| 0 <= k < |tail| && tail[k] == s[i];
        assert s[i] == es[k + 1];
        assert Alike(es[0], es[k + 1]) && !KeyEq(es[0].key, es[k + 1].key);
        BeforeTotal(e, s[i]);
      }
      InsertSorted(e, s);
    }
  }

  lemma NotBeforeItself(e: Entry)
    requires Scalar(e.key)
    ensures !Before(e, e)
  {
    if Before(e, e) {
      BeforeAsymmetric(e, e);
    }
  }

  /** There is only one sorted order. */
  lemma {:induction false} SortedUnique(a: seq<Entry>, b: seq<Entry>)
    requires ScalarKeys(a) && ScalarKeys(b) && Sorted(a) && Sorted(b)
    requires forall x :: x in a <==> x in b
    ensures a == b
  {
    assert b == [] || b[0] in b;
    if a != [] {
      assert a[0] in a && a[0] in b;
      assert b[0] in b && b[0] in a;
      if a[0] != b[0] {
        var k :| 0 <= k < |b| && b[k] == a[0];
        var l :| 0 <= l < |a| && a[l] == b[0];
        assert Before(b[0], a[0]) && Before(a[0], b[0]);
        BeforeAsymmetric(a[0], b[0]);
        assert false;
      }
      RestMembers(a);
      RestMembers(b);
      SortedUnique(a[1..], b[1..]);
      assert a == [a[0]] + a[1..] && b == [b[0]] + b[1..];
    }
  }

  lemma RestMembers(a: seq<Entry>)
    requires a != [] && ScalarKeys(a) && Sorted(a)
    ensures forall x :: x in a[1..] <==> x in a && x != a[0]
  {
    forall x | x in a[1..] ensures x in a && x != a[0] {
      var k :| 0 <= k < |a[1..]| && a[1..][k] == x;
      assert a[k + 1] == x;
      assert Before(a[0], a[k + 1]);
      NotBeforeItself(a[0]);
    }
    assert a == [a[0]] + a[1..];
  }

  // ---------- Canonical form ----------

  /** Every dict of `v`, at any depth, in the order of its keys. */
  function Canon(v: Value): Value {
    match v
    case List(items, frozen) => List(CanonAll(items), frozen)
    case Dict(entries) =>
      var es := CanonEntries(entries);
      if ScalarKeys(es) then Dict(Sort(es)) else Dict(es)
    case Tag(num, item) => Tag(num, Canon(item))
    case _ => v
  }

  function CanonAll(vs: seq<Value>): (r: seq<Value>)
    ensures |r| == |vs|
  {
    if vs == [] then [] else [Canon(vs[0])] + CanonAll(vs[1..])
  }

  function CanonEntry(e: Entry): Entry {
    Entry(e.key, Canon(e.val))
  }

  function CanonEntries(es: seq<Entry>): (r: seq<Entry>)
    ensures |r| == |es|
    ensures forall i :: 0 <= i < |es| ==> r[i] == CanonEntry(es[i])
  {
    if es == [] then [] else [CanonEntry(es[0])] + CanonEntries(es[1..])
  }

  lemma CanonKeys(es: seq<Entry>)
    requires ScalarKeys(es)
    ensures ScalarKeys(CanonEntries(es))
    ensures forall i :: 0 <= i < |es| ==> CanonEntries(es)[i].key == es[i].key
    ensures DistinctKeys(es) ==> DistinctKeys(CanonEntries(es))
    ensures Comparable(es) ==> Comparable(CanonEntries(es))
  {
    var cs := CanonEntries(es);
    forall i | 0 <= i < |es| ensures Scalar(cs[i].key) && cs[i].key == es[i].key {
      assert cs[i] == CanonEntry(es[i]);
      assert Scalar(es[i].key);
    }
    if DistinctKeys(es) {
      forall i, j | 0 <= i < j < |es| ensures !KeyEq(cs[i].key, cs[j].key) {
        assert cs[i].key == es[i].key && cs[j].key == es[j].key;
      }
    }
    if Comparable(es) {
      forall i, j | 0 <= i < j < |es| ensures Alike(cs[i], cs[j]) {
        assert Alike(es[i], es[j]);
      }
    }
  }

  lemma {:induction false} InsertCanon(e: Entry, es: seq<Entry>)
    requires Scalar(e.key) && ScalarKeys(es) && ScalarKeys(CanonEntries(es))
    ensures Insert(CanonEntry(e), CanonEntries(es)) == CanonEntries(Insert(e, es))
  {
    if es != [] {
      var cs := CanonEntries(es);
      assert cs[0] == CanonEntry(es[0]) && cs[1..] == CanonEntries(es[1..]);
      assert Before(CanonEntry(e), cs[0]) == Before(e, es[0]);
      if Before(e, es[0]) {
        assert ([e] + es)[1..] == es;
      } else {
        InsertCanon(e, es[1..]);
        var r := Insert(e, es[1..]);
        assert ([es[0]] + r)[1..] == r;
      }
    }
  }

  /** The order of the keys does not depend on the values. */
  lemma {:induction false} SortCanon(es: seq<Entry>)
    requires ScalarKeys(es) && ScalarKeys(CanonEntries(es))
    ensures Sort(CanonEntries(es)) == CanonEntries(Sort(es))
  {
    if es != [] {
      CanonKeys(es[1..]);
      SortCanon(es[1..]);
      var cs := CanonEntries(es);
      assert cs[0] == CanonEntry(es[0]) && cs[1..] == CanonEntries(es[1..]);
      CanonKeys(Sort(es[1..]));
      InsertCanon(es[0], Sort(es[1..]));
    }
  }

  /** Wherever there is a dict, its keys can be compared. */
  predicate Sortable(v: Value) {
    match v
    case List(items, _) => forall i :: 0 <= i < |items| ==> Sortable(items[i])
    case Dict(entries) =>
      && ScalarKeys(entries) && Comparable(entries)
      && forall i :: 0 <= i < |entries| ==> Sortable(entries[i].val)
    case Tag(_, item) => Sortable(item)
    case _ => true
  }

  /**
    No dict with several entries has a NaN for a key.  Comparing with a NaN raises nothing,
    but then the order that comes out depends on the sorting algorithm.
   */
  predicate Orderable(v: Value) {
    match v
    case List(items, _) => forall i :: 0 <= i < |items| ==> Orderable(items[i])
    case Dict(entries) =>
      && (|entries| > 1 && ScalarKeys(entries) ==> forall i :: 0 <= i < |entries| ==> KeyOf(entries[i].key) != NaN)
      && forall i :: 0 <= i < |entries| ==> Orderable(entries[i].val)
    case Tag(_, item) => Orderable(item)
    case _ => true
  }

  /** Equal objects, where dicts are equal as maps and tuples differ from lists. */
  ghost predicate Same(a: Value, b: Value)
    decreases a
  {
    match a
    case List(items, frozen) =>
      && b.List? && frozen == b.frozen && |items| == |b.items|
      && forall i :: 0 <= i < |items| ==> Same(items[i], b.items[i])
    case Dict(entries) =>
      && b.Dict?
      && (forall i {:trigger MatchIn(entries[i], b.entries)} :: 0 <= i < |entries| ==> MatchIn(entries[i], b.entries))
      && (forall j {:trigger MatchFrom(entries, b.entries[j])} :: 0 <= j < |b.entries| ==> MatchFrom(entries, b.entries[j]))
    case Tag(num, item) => b.Tag? && num == b.num && Same(item, b.item)
    case _ => a == b
  }

  ghost predicate SameEntry(e: Entry, f: Entry)
    decreases e, 0
  {
    e.key == f.key && Same(e.val, f.val)
  }

  /** `fs` has the entry `e`. */
  ghost predicate MatchIn(e: Entry, fs: seq<Entry>)
    decreases e, 1
  {
    exists j :: 0 <= j < |fs| && SameEntry(e, fs[j])
  }

  /** `es` has the entry `f`. */
  ghost predicate MatchFrom(es: seq<Entry>, f: Entry)
    decreases es
  {
    exists i :: 0 <= i < |es| && SameEntry(es[i], f)
  }

  /** Dicts that are equal as maps, at any depth, have one canonical form. */
  lemma {:induction false} CanonUnique(a: Value, b: Value)
    requires Valid(a) && Valid(b) && Sortable(a) && Sortable(b) && Same(a, b)
    ensures Canon(a) == Canon(b)
    decreases a, 2
  {
    match a
    case List(items, _) =>
      CanonUniqueAll(items, b.items);
    case Dict(entries) =>
      CanonUniqueDict(a, b);
    case Tag(_, item) =>
      CanonUnique(item, b.item);
    case _ =>
  }

  lemma {:induction false} CanonUniqueAll(as_: seq<Value>, bs: seq<Value>)
    requires |as_| == |bs|
    requires forall i :: 0 <= i < |as_| ==> Valid(as_[i]) && Sortable(as_[i])
    requires forall i :: 0 <= i < |bs| ==> Valid(bs[i]) && Sortable(bs[i])
    requires forall i :: 0 <= i < |as_| ==> Same(as_[i], bs[i])
    ensures CanonAll(as_) == CanonAll(bs)
    decreases as_, 2
  {
    if as_ != [] {
      CanonUnique(as_[0], bs[0]);
      CanonUniqueAll(as_[1..], bs[1..]);
    }
  }

  lemma SameMembersSort(cs: seq<Entry>, ds: seq<Entry>)
    requires ScalarKeys(cs) && Comparable(cs) && DistinctKeys(cs)
    requires ScalarKeys(ds) && Comparable(ds) && DistinctKeys(ds)
    requires forall x :: x in cs <==> x in ds
    ensures Sort(cs) == Sort(ds)
  {
    SortSorted(cs);
    SortSorted(ds);
    SortMembers(cs);
    SortMembers(ds);
    SortedUnique(Sort(cs), Sort(ds));
  }

  lemma {:induction false} CanonUniqueEntry(a: Value, b: Value, i: nat, j: nat)
    requires a.Dict? && b.Dict? && i < |a.entries| && j < |b.entries|
    requires Valid(a) && Valid(b) && Sortable(a) && Sortable(b)
    requires SameEntry(a.entries[i], b.entries[j])
    ensures CanonEntries(a.entries)[i] == CanonEntries(b.entries)[j]
    decreases a, 0
  {
    var e, f := a.entries[i], b.entries[j];
    assert Valid(e.val) && Valid(f.val) && Sortable(e.val) && Sortable(f.val);
    CanonUnique(e.val, f.val);
    assert CanonEntries(a.entries)[i] == CanonEntry(e);
    assert CanonEntries(b.entries)[j] == CanonEntry(f);
  }

  lemma {:induction false} CanonUniqueDict(a: Value, b: Value)
    requires a.Dict? && b.Dict?
    requires Valid(a) && Valid(b) && Sortable(a) && Sortable(b) && Same(a, b)
    ensures Canon(a) == Canon(b)
    decreases a, 1
  {
    var es, fs := a.entries, b.entries;
    var cs, ds := CanonEntries(es), CanonEntries(fs);
    assert forall x :: x in cs <==> x in ds by {
      forall i, j | 0 <= i < |es| && 0 <= j < |fs| && SameEntry(es[i], fs[j])
        ensures cs[i] == ds[j]
      {
        CanonUniqueEntry(a, b, i, j);
      }
      SameMembers(es, fs, cs, ds);
    }
    CanonKeys(es);
    CanonKeys(fs);
    SameMembersSort(cs, ds);
  }

  lemma SameMembers(es: seq<Entry>, fs: seq<Entry>, cs: seq<Entry>, ds: seq<Entry>)
    requires |es| == |cs| && |fs| == |ds|
    requires forall i {:trigger MatchIn(es[i], fs)} :: 0 <= i < |es| ==> MatchIn(es[i], fs)
    requires forall j {:trigger MatchFrom(es, fs[j])} :: 0 <= j < |fs| ==> MatchFrom(es, fs[j])
    requires forall i, j {:trigger SameEntry(es[i], fs[j])} ::
               0 <= i < |es| && 0 <= j < |fs| && SameEntry(es[i], fs[j]) ==> cs[i] == ds[j]
    ensures forall x :: x in cs <==> x in ds
  {
    forall x | x in cs ensures x in ds {
      var i :| 0 <= i < |cs| && cs[i] == x;
      assert MatchIn(es[i], fs);
      var j :| 0 <= j < |fs| && SameEntry(es[i], fs[j]);
      assert ds[j] == x;
    }
    forall x | x in ds ensures x in cs {
      var j :| 0 <= j < |ds| && ds[j] == x;
      assert MatchFrom(es, fs[j]);
      var i :| 0 <= i < |es| && SameEntry(es[i], fs[j]);
      assert cs[i] == x;
    }
  }

  /** Sorting changes no object: its canonical form equals it. */
  lemma {:induction false} CanonSame(v: Value)
    requires Valid(v)
    ensures Same(Canon(v), v)
    decreases v, 1
  {
    match v
    case List(items, _) => CanonSameAll(items);
    case Dict(entries) => CanonSameDict(v);
    case Tag(_, item) => CanonSame(item);
    case _ =>
  }

  lemma {:induction false} CanonSameAll(vs: seq<Value>)
    requires forall i :: 0 <= i < |vs| ==> Valid(vs[i])
    ensures forall i :: 0 <= i < |vs| ==> Same(CanonAll(vs)[i], vs[i])
    decreases vs
  {
    if vs != [] {
      CanonSame(vs[0]);
      CanonSameAll(vs[1..]);
      forall i | 0 <= i < |vs| ensures Same(CanonAll(vs)[i], vs[i]) {
        if i > 0 {
          assert CanonAll(vs)[i] == CanonAll(vs[1..])[i - 1] && vs[i] == vs[1..][i - 1];
        }
      }
    }
  }

  lemma {:induction false} CanonSameDict(v: Value)
    requires v.Dict? && Valid(v)
    ensures Same(Canon(v), v)
    decreases v, 0
  {
    var es := v.entries;
    var cs := CanonEntries(es);
    CanonKeys(es);
    var r := Sort(cs);
    SortMembers(cs);
    forall i | 0 <= i < |es| ensures SameEntry(cs[i], es[i]) {
      CanonSame(es[i].val);
      assert cs[i] == CanonEntry(es[i]);
    }
    forall k | 0 <= k < |r| ensures MatchIn(r[k], es) {
      assert r[k] in r && r[k] in cs;
      var i :| 0 <= i < |cs| && cs[i] == r[k];
      assert SameEntry(r[k], es[i]);
    }
    forall i | 0 <= i < |es| ensures MatchFrom(r, es[i]) {
      assert cs[i] in cs && cs[i] in r;
      var k :| 0 <= k < |r| && r[k] == cs[i];
      assert SameEntry(r[k], es[i]);
    }
  }

  /** Objects equal to a third one are equal. */
  lemma {:induction false} SameEuclid(c: Value, a: Value, b: Value)
    requires Same(c, a) && Same(c, b)
    ensures Same(a, b)
    decreases c, 1
  {
    match c
    case List(items, _) =>
      forall i | 0 <= i < |items| ensures Same(a.items[i], b.items[i]) {
        SameEuclid(items[i], a.items[i], b.items[i]);
      }
    case Dict(_) => SameEuclidDict(c, a, b);
    case Tag(_, item) => SameEuclid(item, a.item, b.item);
    case _ =>
  }

  lemma {:induction false} SameEuclidDict(c: Value, a: Value, b: Value)
    requires c.Dict? && Same(c, a) && Same(c, b)
    ensures Same(a, b)
    decreases c, 0
  {
    forall k, i, j | 0 <= k < |c.entries| && 0 <= i < |a.entries| && 0 <= j < |b.entries|
                     && SameEntry(c.entries[k], a.entries[i]) && SameEntry(c.entries[k], b.entries[j])
      ensures SameEntry(a.entries[i], b.entries[j])
    {
      assert c.entries decreases to c.entries[k];
      SameEuclid(c.entries[k].val, a.entries[i].val, b.entries[j].val);
    }
    SameEuclidEntries(c.entries, a.entries, b.entries);
  }

  lemma SameEuclidEntries(cs: seq<Entry>, es: seq<Entry>, fs: seq<Entry>)
    requires forall k {:trigger MatchIn(cs[k], es)} :: 0 <= k < |cs| ==> MatchIn(cs[k], es)
    requires forall k {:trigger MatchIn(cs[k], fs)} :: 0 <= k < |cs| ==> MatchIn(cs[k], fs)
    requires forall i {:trigger MatchFrom(cs, es[i])} :: 0 <= i < |es| ==> MatchFrom(cs, es[i])
    requires forall j {:trigger MatchFrom(cs, fs[j])} :: 0 <= j < |fs| ==> MatchFrom(cs, fs[j])
    requires forall k, i, j {:trigger SameEntry(cs[k], es[i]), SameEntry(cs[k], fs[j])} ::
               (0 <= k < |cs| && 0 <= i < |es| && 0 <= j < |fs| && SameEntry(cs[k], es[i]) && SameEntry(cs[k], fs[j]))
               ==> SameEntry(es[i], fs[j])
    ensures Same(Dict(es), Dict(fs))
  {
    forall i | 0 <= i < |es| ensures MatchIn(es[i], fs) {
      assert MatchFrom(cs, es[i]);
      var k :| 0 <= k < |cs| && SameEntry(cs[k], es[i]);
      assert MatchIn(cs[k], fs);
      var j :| 0 <= j < |fs| && SameEntry(cs[k], fs[j]);
      assert SameEntry(es[i], fs[j]);
    }
    forall j | 0 <= j < |fs| ensures MatchFrom(es, fs[j]) {
      assert MatchFrom(cs, fs[j]);
      var k :| 0 <= k < |cs| && SameEntry(cs[k], fs[j]);
      assert MatchIn(cs[k], es);
      var i :| 0 <= i < |es| && SameEntry(cs[k], es[i]);
      assert SameEntry(es[i], fs[j]);
    }
  }

  /** Objects with one canonical form are equal. */
  lemma CanonApart(a: Value, b: Value)
    requires Valid(a) && Valid(b) && Canon(a) == Canon(b)
    ensures Same(a, b)
  {
    CanonSame(a);
    CanonSame(b);
    SameEuclid(Canon(a), a, b);
  }

  /** The canonical form is an object like any other. */
  lemma {:induction false} CanonValid(v: Value)
    requires Valid(v)
    ensures Valid(Canon(v))
    decreases v, 1
  {
    match v
    case List(items, _) => CanonValidAll(items);
    case Dict(entries) => CanonValidDict(v);
    case Tag(_, item) => CanonValid(item);
    case _ =>
  }

  lemma {:induction false} CanonValidAll(vs: seq<Value>)
    requires forall i :: 0 <= i < |vs| ==> Valid(vs[i])
    ensures forall i :: 0 <= i < |vs| ==> Valid(CanonAll(vs)[i])
    decreases vs
  {
    if vs != [] {
      CanonValid(vs[0]);
      CanonValidAll(vs[1..]);
      forall i | 0 <= i < |vs| ensures Valid(CanonAll(vs)[i]) {
        if i > 0 {
          assert CanonAll(vs)[i] == CanonAll(vs[1..])[i - 1];
        }
      }
    }
  }

  lemma {:induction false} CanonValidDict(v: Value)
    requires v.Dict? && Valid(v)
    ensures Valid(Canon(v))
    decreases v, 0
  {
    var es := v.entries;
    var cs := CanonEntries(es);
    CanonKeys(es);
    forall x | x in cs ensures Valid(x.key) && Valid(x.val) {
      var i :| 0 <= i < |cs| && cs[i] == x;
      assert x == CanonEntry(es[i]) && Valid(es[i].key);
      CanonValid(es[i].val);
    }
    SortMembers(cs);
    SortDistinct(cs);
    var r := Sort(cs);
    forall k | 0 <= k < |r| ensures Valid(r[k].key) && Valid(r[k].val) {
      assert r[k] in r;
    }
  }

  lemma {:induction false} InsertDistinct(e: Entry, es: seq<Entry>)
    requires Scalar(e.key) && ScalarKeys(es) && DistinctKeys(es)
    requires forall i :: 0 <= i < |es| ==> !KeyEq(e.key, es[i].key)
    ensures DistinctKeys(Insert(e, es))
  {
    if es != [] && !Before(e, es[0]) {
      var tail := es[1..];
      forall i | 0 <= i < |tail| ensures !KeyEq(e.key, tail[i].key) {
        assert tail[i] == es[i + 1];
      }
      InsertDistinct(e, tail);
      InsertMembers(e, tail);
      var r := Insert(e, tail);
      forall i | 0 <= i < |r| ensures !KeyEq(es[0].key, r[i].key) {
        assert r[i] in r;
        if r[i] != e {
          var k :| 0 <= k < |tail| && tail[k] == r[i];
          assert r[i] == es[k + 1];
        }
      }
    }
  }

  lemma {:induction false} SortDistinct(es: seq<Entry>)
    requires ScalarKeys(es) && DistinctKeys(es)
    ensures DistinctKeys(Sort(es))
  {
    if es != [] {
      var e, tail := es[0], es[1..];
      SortDistinct(tail);
      SortMembers(tail);
      var s := Sort(tail);
      forall i | 0 <= i < |s| ensures !KeyEq(e.key, s[i].key) {
        assert s[i] in s;
        var k :| 0 <= k < |tail| && tail[k] == s[i];
        assert s[i] == es[k + 1];
      }
      InsertDistinct(e, s);
    }
  }
}
